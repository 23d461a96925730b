/**
 * The project repositories the docker-build command checks out before
 * building: the merged, de-duplicated list of every image's projects, the
 * directory name of each, and the clone/pull/ls-remote decision per project.
 */
module Projects {
  import opened PhpStrings
  import opened BuildFiles
  import opened Events

  /** `array_merge` of the project lists of the images named by `keys`, in that order. */
  function Merged(keys: seq<string>, files: map<string, Descriptor>): (r: seq<string>)
    requires forall k :: k in keys ==> k in files
  {
    if keys == [] then []
    else Merged(keys[..|keys| - 1], files) + files[keys[|keys| - 1]].projects
  }

  /** Merging one more image's projects appends them. */
  lemma MergedPrefix(keys: seq<string>, i: nat, files: map<string, Descriptor>)
    requires i < |keys| && forall k :: k in keys ==> k in files
    ensures Merged(keys[..i + 1], files) == Merged(keys[..i], files) + files[keys[i]].projects
  {
    assert keys[..i + 1][..i] == keys[..i];
  }

  /** A project is in the merged list exactly when some image lists it. */
  lemma {:induction false} MergedMembers(keys: seq<string>, files: map<string, Descriptor>, p: string)
    requires forall k :: k in keys ==> k in files
    ensures p in Merged(keys, files) <==> exists i :: 0 <= i < |keys| && p in files[keys[i]].projects
    decreases |keys|
  {
    if keys != [] {
      var init := keys[..|keys| - 1];
      MergedMembers(init, files, p);
      if exists i :: 0 <= i < |keys| && p in files[keys[i]].projects {
        var i :| 0 <= i < |keys| && p in files[keys[i]].projects;
        if i < |init| {
          assert init[i] == keys[i];
        }
      }
      if exists i :: 0 <= i < |init| && p in files[init[i]].projects {
        var i :| 0 <= i < |init| && p in files[init[i]].projects;
        assert keys[i] == init[i];
      }
    }
  }

  /** `array_unique`: the first occurrence of every element, in order of first occurrence. */
  function Unique(s: seq<string>): (r: seq<string>)
    ensures |r| <= |s|
  {
    if s == [] then []
    else
      var init := Unique(s[..|s| - 1]);
      var x := s[|s| - 1];
      if x in s[..|s| - 1] then init else init + [x]
  }

  /** De-duplication keeps exactly the elements of the input. */
  lemma {:induction false} UniqueMembers(s: seq<string>)
    ensures forall x :: x in Unique(s) <==> x in s
    decreases |s|
  {
    if s != [] {
      var init := s[..|s| - 1];
      UniqueMembers(init);
      assert s == init + [s[|s| - 1]];
    }
  }

  /** De-duplication leaves no element twice. */
  lemma {:induction false} UniqueDistinct(s: seq<string>)
    ensures Distinct(Unique(s))
    decreases |s|
  {
    if s != [] {
      var init := s[..|s| - 1];
      UniqueDistinct(init);
      UniqueMembers(init);
      var x := s[|s| - 1];
      if x !in init {
        var u := Unique(init);
        forall i, j | 0 <= i < j < |u| + 1
          ensures (u + [x])[i] != (u + [x])[j]
        {
          if j == |u| {
            assert (u + [x])[i] == u[i] && u[i] in u;
          }
        }
      }
    }
  }

  /** Appending an element does not move the first occurrence of an element already present. */
  lemma FirstIndexSnoc(s: seq<string>, x: string, y: string)
    requires y in s
    ensures IndexOf(s + [x], y) == IndexOf(s, y) < |s|
  {
    var j := IndexOf(s, y);
    assert (s + [x])[..j] == s[..j];
    IndexOfUnique(s + [x], y, j);
  }

  /** An element appended to a list without it first occurs at the end. */
  lemma FirstIndexNew(s: seq<string>, x: string)
    requires x !in s
    ensures IndexOf(s + [x], x) == |s|
  {
    assert (s + [x])[..|s|] == s;
    IndexOfUnique(s + [x], x, |s|);
  }

  /** The elements of `u` occur in `s`, and in the order of their first occurrence there. */
  predicate FirstOrdered(s: seq<string>, u: seq<string>)
  {
    forall a, b :: 0 <= a < b < |u| ==> u[a] in s && u[b] in s && IndexOf(s, u[a]) < IndexOf(s, u[b])
  }

  /** The elements kept by de-duplication are in order of their first occurrence in the input. */
  lemma {:induction false} UniqueFirstOrder(s: seq<string>)
    ensures FirstOrdered(s, Unique(s))
    decreases |s|
  {
    if s != [] {
      var init, x := s[..|s| - 1], s[|s| - 1];
      assert s == init + [x];
      UniqueFirstOrder(init);
      UniqueMembers(init);
      var u0 := Unique(init);
      var u := Unique(s);
      forall i, j | 0 <= i < j < |u|
        ensures u[i] in s && u[j] in s && IndexOf(s, u[i]) < IndexOf(s, u[j])
      {
        UniqueFirstOrderStep(init, x, i, j);
      }
    }
  }

  lemma UniqueFirstOrderStep(init: seq<string>, x: string, i: nat, j: nat)
    requires FirstOrdered(init, Unique(init))
    requires forall y :: y in Unique(init) <==> y in init
    requires i < j < |Unique(init + [x])|
    ensures var u, s := Unique(init + [x]), init + [x];
      u[i] in s && u[j] in s && IndexOf(s, u[i]) < IndexOf(s, u[j])
  {
    var s := init + [x];
    assert s[..|s| - 1] == init;
    var u0, u := Unique(init), Unique(s);
    assert u == if x in init then u0 else u0 + [x];
    assert u[i] == u0[i] && u0[i] in init;
    FirstIndexSnoc(init, x, u[i]);
    if j < |u0| {
      assert u[j] == u0[j] && u0[j] in init;
      assert IndexOf(init, u0[i]) < IndexOf(init, u0[j]);
      FirstIndexSnoc(init, x, u[j]);
    } else {
      assert u[j] == x && x !in init;
      FirstIndexNew(init, x);
    }
  }

  /** The projects `checkoutProjects` visits: every image's projects in batch order, first occurrences only. */
  function AllProjects(b: Batch): seq<string>
    requires Valid(b)
  {
    Unique(Merged(b.keys, b.files))
  }

  /** A project is visited exactly when some image of the batch lists it, and then only once. */
  lemma AllProjectsMembers(b: Batch, p: string)
    requires Valid(b)
    ensures p in AllProjects(b) <==> exists k :: k in b.files && p in b.files[k].projects
    ensures Distinct(AllProjects(b))
  {
    var m := Merged(b.keys, b.files);
    UniqueMembers(m);
    UniqueDistinct(m);
    MergedMembers(b.keys, b.files, p);
    if exists k :: k in b.files && p in b.files[k].projects {
      var k :| k in b.files && p in b.files[k].projects;
      var i := IndexOf(b.keys, k);
      assert p in b.files[b.keys[i]].projects;
    }
  }

  /** The checkout directory of a repository URL: its last path segment without ".git". */
  function ProjectName(url: string): (r: string)
    ensures '/' !in r
  {
    RemoveAllKeeps(LastSegment(url, '/'), ".git");
    RemoveAll(LastSegment(url, '/'), ".git")
  }

  /** The last segment of `p + "/" + t` is `t` when `t` has no '/'. */
  lemma LastSegmentAfter(p: string, t: string)
    requires '/' !in t
    ensures LastSegment(p + "/" + t, '/') == t
  {
    var s := p + "/" + t;
    var i := LastIndexOf(s, '/');
    LastIndexOfIsLast(s, '/');
    assert s[|p|] == '/';
    forall j | |p| < j < |s|
      ensures s[j] != '/'
    {
      assert s[j] == t[j - |p| - 1];
    }
    assert i == |p|;
    assert s[|p| + 1..] == t;
  }

  /**
   * A repository URL `base/name.git`, with no '/' and no ".git" inside
   * `name`, is checked out into the directory `name`.
   */
  lemma ProjectNameOfUrl(base: string, name: string)
    requires '/' !in name
    requires forall i :: !OccursAt(".git", name, i)
    ensures ProjectName(base + "/" + name + ".git") == name
  {
    assert base + "/" + name + ".git" == base + "/" + (name + ".git");
    LastSegmentAfter(base, name + ".git");
    RemoveGitSuffix(name);
    RemoveAllAbsent(name, ".git");
  }

  /**
   * The project directory as the checkout finds it: the names that exist in
   * it, and the repositories whose `git clone` creates their directory. The
   * command ignores what `git clone` returns and asks `file_exists` again for
   * the next project, so a failed clone leaves the name missing.
   */
  datatype ProjectDir = ProjectDir(present: set<string>, clonable: set<string>)

  /** The project directory after `git clone` of `url` into the directory `ProjectName(url)`. */
  function AfterClone(dir: ProjectDir, url: string): ProjectDir
  {
    if url in dir.clonable then dir.(present := dir.present + {ProjectName(url)}) else dir
  }

  /** A clone adds its directory to the names present exactly when it succeeds, and changes nothing else. */
  lemma AfterCloneHas(dir: ProjectDir, url: string, n: string)
    ensures AfterClone(dir, url).clonable == dir.clonable
    ensures n in AfterClone(dir, url).present <==> n in dir.present || (url in dir.clonable && n == ProjectName(url))
  {
  }

  /**
   * The checkout step for each project in turn: in a dry run the remote is
   * listed; otherwise an existing project directory is pulled and a missing
   * one is cloned; the clone creates the directory for the projects that
   * follow only when it succeeds.
   */
  function CheckoutEvents(projects: seq<string>, dryRun: bool, dir: ProjectDir): (r: seq<Event>)
    ensures |r| == |projects|
  {
    if projects == [] then []
    else
      var url := projects[0];
      var name := ProjectName(url);
      if dryRun then [LsRemote(url)] + CheckoutEvents(projects[1..], dryRun, dir)
      else if name in dir.present then [Pull(name)] + CheckoutEvents(projects[1..], dryRun, dir)
      else [Clone(url, name)] + CheckoutEvents(projects[1..], dryRun, AfterClone(dir, url))
  }

  /** The checkout of the projects from position `i` on: the step for project `i`, then the rest. */
  lemma CheckoutStep(projects: seq<string>, i: nat, dryRun: bool, dir: ProjectDir)
    requires i < |projects|
    ensures var url := projects[i]; var name := ProjectName(url);
      CheckoutEvents(projects[i..], dryRun, dir)
        == if dryRun then [LsRemote(url)] + CheckoutEvents(projects[i + 1..], dryRun, dir)
           else if name in dir.present then [Pull(name)] + CheckoutEvents(projects[i + 1..], dryRun, dir)
           else [Clone(url, name)] + CheckoutEvents(projects[i + 1..], dryRun, AfterClone(dir, url))
  {
    assert projects[i..][1..] == projects[i + 1..];
  }

  /** A dry run only lists the remote of every project, in order. */
  lemma {:induction false} DryRunOnlyLists(projects: seq<string>, dir: ProjectDir)
    ensures var r := CheckoutEvents(projects, true, dir);
      forall i :: 0 <= i < |projects| ==> r[i] == LsRemote(projects[i])
    decreases |projects|
  {
    if projects != [] {
      DryRunOnlyLists(projects[1..], dir);
      var r := CheckoutEvents(projects, true, dir);
      forall i | 0 < i < |projects|
        ensures r[i] == LsRemote(projects[i])
      {
        assert projects[1..][i - 1] == projects[i];
      }
    }
  }

  /** The checkout step only lists, pulls or clones. */
  lemma {:induction false} CheckoutKinds(projects: seq<string>, dryRun: bool, dir: ProjectDir)
    ensures forall e :: e in CheckoutEvents(projects, dryRun, dir) ==> e.LsRemote? || e.Pull? || e.Clone?
    ensures dryRun ==> forall e :: e in CheckoutEvents(projects, dryRun, dir) ==> e.LsRemote?
    decreases |projects|
  {
    if projects != [] {
      CheckoutKinds(projects[1..], dryRun, dir);
      CheckoutKinds(projects[1..], dryRun, AfterClone(dir, projects[0]));
    }
  }

  /** The directories the projects of `projects` would create by a successful clone. */
  function CreatedBy(projects: seq<string>, clonable: set<string>): set<string>
  {
    if projects == [] then {}
    else (if projects[0] in clonable then {ProjectName(projects[0])} else {}) + CreatedBy(projects[1..], clonable)
  }

  /** A directory is created by a list exactly when some project of the list has it and clones successfully. */
  lemma {:induction false} CreatedByMembers(projects: seq<string>, clonable: set<string>, name: string)
    ensures name in CreatedBy(projects, clonable)
        <==> exists j :: 0 <= j < |projects| && projects[j] in clonable && ProjectName(projects[j]) == name
  {
    if projects != [] {
      var rest := projects[1..];
      CreatedByMembers(rest, clonable, name);
      if name in CreatedBy(rest, clonable) {
        var j :| 0 <= j < |rest| && rest[j] in clonable && ProjectName(rest[j]) == name;
        assert projects[j + 1] == rest[j];
      }
      if exists j :: 0 <= j < |projects| && projects[j] in clonable && ProjectName(projects[j]) == name {
        var j :| 0 <= j < |projects| && projects[j] in clonable && ProjectName(projects[j]) == name;
        if j > 0 {
          assert rest[j - 1] == projects[j];
        }
      }
    }
  }

  lemma DropTake<T>(s: seq<T>, i: nat)
    requires 0 < i <= |s|
    ensures s[..i][1..] == s[1..][..i - 1] && s[..i][0] == s[0]
  {
  }

  /**
   * Outside a dry run the first project is decided; the rest see its
   * directory as created when its clone succeeds (or it was there already).
   */
  lemma CheckoutHead(projects: seq<string>, dir: ProjectDir)
    requires projects != []
    ensures var url := projects[0]; var name := ProjectName(url);
      CheckoutEvents(projects, false, dir)
        == [if name in dir.present then Pull(name) else Clone(url, name)]
           + CheckoutEvents(projects[1..], false,
               dir.(present := dir.present + if url in dir.clonable then {name} else {}))
  {
    var url := projects[0];
    var name := ProjectName(url);
    if name in dir.present || url !in dir.clonable {
      assert dir.(present := dir.present + if url in dir.clonable then {name} else {}) == dir;
    }
  }

  /** Outside a dry run, the step for `url` when the directory holds the names `existing`. */
  function PullOrClone(url: string, existing: set<string>): Event
  {
    var name := ProjectName(url);
    if name in existing then Pull(name) else Clone(url, name)
  }

  /**
   * Outside a dry run a project is cloned exactly when its directory neither
   * existed beforehand nor was created by a successful clone of an earlier
   * project of the list; otherwise it is pulled.
   */
  lemma {:induction false} CheckoutDecision(projects: seq<string>, dir: ProjectDir, i: nat)
    requires i < |projects|
    ensures CheckoutEvents(projects, false, dir)[i]
         == PullOrClone(projects[i], dir.present + CreatedBy(projects[..i], dir.clonable))
    decreases i
  {
    if i == 0 {
      CheckoutHead(projects, dir);
      assert dir.present + CreatedBy(projects[..0], dir.clonable) == dir.present;
    } else {
      CheckoutDecision(projects[1..], HeadDir(projects, dir), i - 1);
      DecisionFromRest(projects, dir, i);
    }
  }

  /** The project directory the projects after the first one see outside a dry run. */
  function HeadDir(projects: seq<string>, dir: ProjectDir): ProjectDir
    requires projects != []
  {
    dir.(present := dir.present + if projects[0] in dir.clonable then {ProjectName(projects[0])} else {})
  }

  /** The decision for a later project, from its decision in the checkout of the rest. */
  lemma DecisionFromRest(projects: seq<string>, dir: ProjectDir, i: nat)
    requires 0 < i < |projects|
    requires var dir1 := HeadDir(projects, dir);
      CheckoutEvents(projects[1..], false, dir1)[i - 1]
        == PullOrClone(projects[1..][i - 1], dir1.present + CreatedBy(projects[1..][..i - 1], dir1.clonable))
    ensures CheckoutEvents(projects, false, dir)[i]
         == PullOrClone(projects[i], dir.present + CreatedBy(projects[..i], dir.clonable))
  {
    CheckoutLater(projects, dir, i);
    CreatedBySplit(projects, dir.clonable, dir.present, i);
  }

  /** The names present before project `i`, seen from the head or from the rest of the list. */
  lemma CreatedBySplit(projects: seq<string>, clonable: set<string>, present: set<string>, i: nat)
    requires 0 < i <= |projects|
    ensures var made := if projects[0] in clonable then {ProjectName(projects[0])} else {};
      present + made + CreatedBy(projects[1..][..i - 1], clonable) == present + CreatedBy(projects[..i], clonable)
  {
    CreatedByHead(projects, clonable, i);
  }

  /** The directories created by a non-empty prefix: the first project's, then those of the rest of the prefix. */
  lemma CreatedByHead(projects: seq<string>, clonable: set<string>, i: nat)
    requires 0 < i <= |projects|
    ensures CreatedBy(projects[..i], clonable)
         == (if projects[0] in clonable then {ProjectName(projects[0])} else {})
            + CreatedBy(projects[1..][..i - 1], clonable)
  {
    DropTake(projects, i);
  }

  /** Outside a dry run the step for a later project is its step in the checkout of the rest. */
  lemma CheckoutLater(projects: seq<string>, dir: ProjectDir, i: nat)
    requires 0 < i < |projects|
    ensures projects[1..][i - 1] == projects[i]
    ensures var url := projects[0];
      CheckoutEvents(projects, false, dir)[i]
         == CheckoutEvents(projects[1..], false,
              dir.(present := dir.present + if url in dir.clonable then {ProjectName(url)} else {}))[i - 1]
  {
    var url := projects[0];
    var name := ProjectName(url);
    var tail := CheckoutEvents(projects[1..], false,
      dir.(present := dir.present + if url in dir.clonable then {name} else {}));
    CheckoutHead(projects, dir);
    ConsAt(if name in dir.present then Pull(name) else Clone(url, name), tail, i);
  }

  /** Past the head, a sequence with an element put in front is the original, shifted by one. */
  lemma ConsAt<T>(x: T, s: seq<T>, i: nat)
    requires 0 < i <= |s|
    ensures ([x] + s)[i] == s[i - 1]
  {
  }

  /** The directory of a project whose clone succeeds is created by every longer prefix. */
  lemma CreatedEarlier(projects: seq<string>, clonable: set<string>, i: nat, j: nat)
    requires i < j <= |projects| && projects[i] in clonable
    ensures ProjectName(projects[i]) in CreatedBy(projects[..j], clonable)
  {
    CreatedByMembers(projects[..j], clonable, ProjectName(projects[i]));
    assert projects[..j][i] == projects[i];
  }

  /**
   * Outside a dry run no directory that already existed is cloned, and none
   * is cloned again after a clone of it succeeded.
   */
  lemma ClonesDistinct(projects: seq<string>, dir: ProjectDir, i: nat, j: nat)
    requires i < j < |projects|
    ensures var r := CheckoutEvents(projects, false, dir);
      r[j].Clone? ==> r[j].name !in dir.present
                      && (r[i].Clone? && projects[i] in dir.clonable ==> r[i].name != r[j].name)
  {
    CheckoutDecision(projects, dir, i);
    CheckoutDecision(projects, dir, j);
    if projects[i] in dir.clonable {
      CreatedEarlier(projects, dir.clonable, i, j);
    }
  }

  /**
   * Two repositories with the same last segment share one directory: once
   * the earlier one is cloned successfully, the later one is pulled.
   */
  lemma SharedNamePulled(projects: seq<string>, dir: ProjectDir, i: nat, j: nat)
    requires i < j < |projects| && ProjectName(projects[i]) == ProjectName(projects[j])
    ensures projects[i] in dir.clonable ==> CheckoutEvents(projects, false, dir)[j] == Pull(ProjectName(projects[j]))
  {
    CheckoutDecision(projects, dir, j);
    if projects[i] in dir.clonable {
      CreatedEarlier(projects, dir.clonable, i, j);
    }
  }

  /**
   * A directory that is missing, and that no earlier repository of the same
   * name clones successfully, is cloned again for every repository that has it.
   */
  lemma FailedCloneRetried(projects: seq<string>, dir: ProjectDir, i: nat, j: nat)
    requires i < j < |projects| && ProjectName(projects[i]) == ProjectName(projects[j])
    requires ProjectName(projects[j]) !in dir.present
    requires forall k :: 0 <= k < j && ProjectName(projects[k]) == ProjectName(projects[j]) ==> projects[k] !in dir.clonable
    ensures var r, name := CheckoutEvents(projects, false, dir), ProjectName(projects[j]);
      r[i] == Clone(projects[i], name) && r[j] == Clone(projects[j], name)
  {
    var name := ProjectName(projects[j]);
    CheckoutDecision(projects, dir, i);
    CheckoutDecision(projects, dir, j);
    NotCreated(projects, dir.clonable, name, i);
    NotCreated(projects, dir.clonable, name, j);
  }

  /** A name no clonable project of a prefix has is not created by that prefix. */
  lemma NotCreated(projects: seq<string>, clonable: set<string>, name: string, n: nat)
    requires n <= |projects|
    requires forall k :: 0 <= k < n && ProjectName(projects[k]) == name ==> projects[k] !in clonable
    ensures name !in CreatedBy(projects[..n], clonable)
  {
    CreatedByMembers(projects[..n], clonable, name);
    forall k | 0 <= k < n
      ensures !(projects[..n][k] in clonable && ProjectName(projects[..n][k]) == name)
    {
      assert projects[..n][k] == projects[k];
    }
  }

  /** Names of entries that exist in every directory: its own path, "." and "..". */
  const SelfEntries: set<string> := {"", ".", ".."}

  /**
   * A repository whose directory name is "", "." or ".." (a URL ending in
   * "/", "/.git" or "/.") is pulled once the project directory exists,
   * because `file_exists` of that path is then true.
   */
  lemma SelfEntryPulled(projects: seq<string>, dir: ProjectDir, i: nat)
    requires i < |projects| && SelfEntries <= dir.present && ProjectName(projects[i]) in SelfEntries
    ensures CheckoutEvents(projects, false, dir)[i] == Pull(ProjectName(projects[i]))
  {
    CheckoutDecision(projects, dir, i);
  }
}
