/**
 * Reading the `.posignore` skip list and loading the image descriptors found
 * under the images directory into a batch keyed by image name.
 */
module Loading {
  import opened PhpStrings
  import opened BuildFiles

  // ---------------------------------------------------------------------------
  // The skip list

  /** A trimmed line is an entry when it is truthy and does not start with '#'. */
  predicate IsEntry(t: string)
  {
    Truthy(t) && t[0] != '#'
  }

  /** The entries of the `.posignore` lines, in file order, each trimmed. */
  function IgnoreEntries(lines: seq<string>): (r: seq<string>)
    ensures |r| <= |lines|
  {
    if lines == [] then []
    else
      var init := IgnoreEntries(lines[..|lines| - 1]);
      var t := Trim(lines[|lines| - 1]);
      if IsEntry(t) then init + [t] else init
  }

  /** Every entry of the skip list is an entry and already trimmed. */
  lemma {:induction false} IgnoreEntriesTrimmed(lines: seq<string>)
    ensures forall e :: e in IgnoreEntries(lines) ==> IsEntry(e) && Trim(e) == e
    decreases |lines|
  {
    if lines != [] {
      IgnoreEntriesTrimmed(lines[..|lines| - 1]);
      TrimIdempotent(lines[|lines| - 1]);
    }
  }

  /** Reading one more line appends its trimmed text exactly when that text is an entry. */
  lemma IgnoreEntriesSnoc(lines: seq<string>, line: string)
    ensures IgnoreEntries(lines + [line])
         == IgnoreEntries(lines) + if IsEntry(Trim(line)) then [Trim(line)] else []
  {
    assert (lines + [line])[..|lines|] == lines;
  }

  /** The entries of the first `i + 1` lines: those of the first `i`, then line `i`'s if it is one. */
  lemma IgnoreEntriesPrefix(lines: seq<string>, i: nat)
    requires i < |lines|
    ensures var t := Trim(lines[i]);
      IgnoreEntries(lines[..i + 1]) == IgnoreEntries(lines[..i]) + if IsEntry(t) then [t] else []
  {
    assert lines[..i + 1][..i] == lines[..i];
  }

  /** Reading two runs of lines one after the other gives their entries one after the other. */
  lemma {:induction false} IgnoreEntriesAppend(a: seq<string>, b: seq<string>)
    ensures IgnoreEntries(a + b) == IgnoreEntries(a) + IgnoreEntries(b)
    decreases |b|
  {
    if b == [] {
      AppendEmpty(a);
      AppendEmpty(IgnoreEntries(a));
    } else {
      var b', l := b[..|b| - 1], b[|b| - 1];
      var x := if IsEntry(Trim(l)) then [Trim(l)] else [];
      calc {
        IgnoreEntries(a + b);
        { SnocLast(b); AppendAssoc(a, b', [l]); }
        IgnoreEntries((a + b') + [l]);
        { IgnoreEntriesSnoc(a + b', l); }
        IgnoreEntries(a + b') + x;
        { IgnoreEntriesAppend(a, b'); }
        (IgnoreEntries(a) + IgnoreEntries(b')) + x;
        { AppendAssoc(IgnoreEntries(a), IgnoreEntries(b'), x); }
        IgnoreEntries(a) + (IgnoreEntries(b') + x);
        { IgnoreEntriesSnoc(b', l); SnocLast(b); }
        IgnoreEntries(a) + IgnoreEntries(b);
      }
    }
  }

  /** The trimmed text of every line, in file order. */
  function TrimAll(lines: seq<string>): (r: seq<string>)
    ensures |r| == |lines|
    ensures forall i :: 0 <= i < |lines| ==> r[i] == Trim(lines[i])
  {
    if lines == [] then [] else TrimAll(lines[..|lines| - 1]) + [Trim(lines[|lines| - 1])]
  }

  lemma TrimAllSnoc(lines: seq<string>)
    requires lines != []
    ensures TrimAll(lines) == TrimAll(lines[..|lines| - 1]) + [Trim(lines[|lines| - 1])]
  {
  }

  /** The skip list holds exactly the trimmed lines that are entries. */
  lemma {:induction false} IgnoreEntriesComplete(lines: seq<string>)
    ensures forall e :: e in IgnoreEntries(lines) <==> e in TrimAll(lines) && IsEntry(e)
    decreases |lines|
  {
    if lines != [] {
      var init, l := lines[..|lines| - 1], lines[|lines| - 1];
      IgnoreEntriesComplete(init);
      TrimAllSnoc(lines);
      SnocLast(lines);
      IgnoreEntriesSnoc(init, l);
      var t := Trim(l);
      forall e
        ensures e in IgnoreEntries(lines) <==> e in TrimAll(lines) && IsEntry(e)
      {
        MemberSnoc(TrimAll(init), t, e);
        if IsEntry(t) {
          MemberSnoc(IgnoreEntries(init), t, e);
        } else {
          AppendEmpty(IgnoreEntries(init));
        }
      }
    }
  }

  /** A single line contributes its trimmed text exactly when that text is an entry. */
  lemma IgnoreEntriesOne(line: string)
    ensures IgnoreEntries([line]) == if IsEntry(Trim(line)) then [Trim(line)] else []
  {
    IgnoreEntriesSnoc([], line);
    assert [] + [line] == [line];
  }

  /** A padded line contributes its text exactly when that text is an entry. */
  lemma IgnoreEntriesPadded(pre: string, t: string, post: string)
    requires AllTrimmable(pre) && AllTrimmable(post)
    requires t != [] && !IsTrimmable(t[0]) && !IsTrimmable(t[|t| - 1])
    ensures IgnoreEntries([pre + t + post]) == if IsEntry(t) then [t] else []
  {
    TrimPadded(pre, t, post);
    IgnoreEntriesOne(pre + t + post);
  }

  /** PHP truthiness drops a line that trims to "0". */
  lemma ZeroLineDropped()
    ensures IgnoreEntries([" 0\n"]) == []
  {
    assert AllTrimmable(" ") && AllTrimmable("\n");
    assert " 0\n" == " " + "0" + "\n";
    IgnoreEntriesPadded(" ", "0", "\n");
  }

  /** A comment line is dropped. */
  lemma CommentLineDropped()
    ensures IgnoreEntries(["# example/image1\n"]) == []
  {
    var t := "# example/image1";
    assert AllTrimmable("") && AllTrimmable("\n");
    assert t[0] == '#' && t[|t| - 1] == '1';
    assert "# example/image1\n" == "" + t + "\n";
    IgnoreEntriesPadded("", t, "\n");
  }

  /** An image name on a line of its own is kept without its line break. */
  lemma NameLineKept()
    ensures IgnoreEntries(["example/image2\n"]) == ["example/image2"]
  {
    var t := "example/image2";
    assert AllTrimmable("") && AllTrimmable("\n");
    assert t[0] == 'e' && t[|t| - 1] == '2';
    assert IsEntry(t);
    assert "example/image2\n" == "" + t + "\n";
    IgnoreEntriesPadded("", t, "\n");
  }

  // ---------------------------------------------------------------------------
  // Loading the descriptors

  /** A path the directory traversal reports, with the descriptor its `build.php` would return. */
  datatype FoundFile = FoundFile(path: string, build: Descriptor)

  /** `basename`: the last path component, ignoring trailing separators. */
  function Basename(path: string): (r: string)
    ensures '/' !in r
  {
    if path != [] && path[|path| - 1] == '/' then Basename(path[..|path| - 1])
    else LastSegment(path, '/')
  }

  /** The traversal entry is an image's build file. */
  predicate IsBuildFile(path: string)
  {
    Basename(path) == "build.php"
  }

  /**
   * `str_replace([imagesDir . '/', '/build.php'], ['', ''], path)`: every
   * occurrence of the images directory prefix is removed first, then every
   * occurrence of "/build.php" in what remains.
   */
  function ImageName(path: string, imagesDir: string): string
  {
    RemoveAll(RemoveAll(path, imagesDir + "/"), "/build.php")
  }

  /** The image name of a build file directly below the images directory is its directory path. */
  lemma ImageNameOfBuildFile(imagesDir: string, name: string)
    requires forall i :: !OccursAt(imagesDir + "/", name + "/build.php", i)
    requires forall i :: !OccursAt("/build.php", name, i)
    ensures ImageName(imagesDir + "/" + name + "/build.php", imagesDir) == name
  {
    var pre := imagesDir + "/";
    var rest := name + "/build.php";
    assert imagesDir + "/" + name + "/build.php" == pre + rest;
    RemovePrefix(pre, rest);
    RemoveAllAbsent(rest, pre);
    RemoveSuffix(name, "/build.php");
    RemoveAllAbsent(name, "/build.php");
  }

  /** Removing `pat` from `pat + s` removes the leading copy and goes on with `s`. */
  lemma RemovePrefix(pat: string, s: string)
    requires pat != []
    ensures RemoveAll(pat + s, pat) == RemoveAll(s, pat)
  {
    assert (pat + s)[..|pat|] == pat;
    assert (pat + s)[|pat|..] == s;
  }

  /**
   * Removing "/build.php" from `s + "/build.php"` removes the suffix, when
   * `s` itself holds no occurrence: an occurrence reaching across the
   * boundary would need a '/' at a position where "build.php" has none.
   */
  lemma {:induction false} RemoveSuffix(s: string, pat: string)
    requires pat == "/build.php"
    requires forall i :: !OccursAt(pat, s, i)
    ensures RemoveAll(s + pat, pat) == RemoveAll(s, pat)
    decreases |s|
  {
    var t := s + pat;
    if s == [] {
      assert t == pat;
      assert t[|pat|..] == [];
    } else {
      assert t[..|pat|] != pat by {
        if |s| >= |pat| {
          assert t[..|pat|] == s[..|pat|];
          assert !OccursAt(pat, s, 0);
        } else {
          assert t[..|pat|][|s|] == '/';
          assert pat[|s|] != '/';
        }
      }
      assert t[1..] == s[1..] + pat;
      AbsentInTail(pat, s);
      RemoveSuffix(s[1..], pat);
      if |s| < |pat| {
        RemoveAllShort(s, pat);
        RemoveAllShort(s[1..], pat);
      } else {
        assert s[..|pat|] != pat by { assert !OccursAt(pat, s, 0); }
      }
    }
  }

  lemma RemoveAllShort(s: string, pat: string)
    requires pat != [] && |s| < |pat|
    ensures RemoveAll(s, pat) == s
  {
  }

  /** A build file found by the traversal, under the image name derived from its path. */
  datatype Entry = Entry(name: string, build: Descriptor)

  /** The entry a traversal path contributes: one when it is a build file, none otherwise. */
  function EntryOf(f: FoundFile, imagesDir: string): seq<Entry>
  {
    if IsBuildFile(f.path) then [Entry(ImageName(f.path, imagesDir), f.build)] else []
  }

  /** The pieces of `ss` joined in order. */
  function Concat<T>(ss: seq<seq<T>>): (r: seq<T>)
  {
    if ss == [] then [] else Concat(ss[..|ss| - 1]) + ss[|ss| - 1]
  }

  lemma {:induction false} ConcatMembers<T>(ss: seq<seq<T>>, x: T)
    ensures x in Concat(ss) <==> exists i :: 0 <= i < |ss| && x in ss[i]
    decreases |ss|
  {
    if ss != [] {
      var init := ss[..|ss| - 1];
      ConcatMembers(init, x);
      if exists i :: 0 <= i < |ss| && x in ss[i] {
        var i :| 0 <= i < |ss| && x in ss[i];
        if i < |init| {
          assert init[i] == ss[i];
        }
      }
      if exists i :: 0 <= i < |init| && x in init[i] {
        var i :| 0 <= i < |init| && x in init[i];
        assert ss[i] == init[i];
      }
    }
  }

  lemma ConcatSnoc<T>(ss: seq<seq<T>>, s: seq<T>)
    ensures Concat(ss + [s]) == Concat(ss) + s
  {
    assert (ss + [s])[..|ss|] == ss;
  }

  /** `f` applied to every element of `s`, in order. */
  function Map<A, B>(s: seq<A>, f: A -> B): (r: seq<B>)
    ensures |r| == |s|
  {
    if s == [] then [] else Map(s[..|s| - 1], f) + [f(s[|s| - 1])]
  }

  lemma {:induction false} MapAt<A, B>(s: seq<A>, f: A -> B, i: nat)
    requires i < |s|
    ensures Map(s, f)[i] == f(s[i])
    decreases |s|
  {
    var init := s[..|s| - 1];
    if i < |init| {
      MapAt(init, f, i);
      assert init[i] == s[i];
    }
  }

  lemma MapSnoc<A, B>(s: seq<A>, x: A, f: A -> B)
    ensures Map(s + [x], f) == Map(s, f) + [f(x)]
  {
    assert (s + [x])[..|s|] == s;
  }

  /** The entry each traversal path contributes, in traversal order. */
  function Pieces(found: seq<FoundFile>, imagesDir: string): (r: seq<seq<Entry>>)
  {
    Map(found, f => EntryOf(f, imagesDir))
  }

  /** The build files of the traversal, in traversal order, each with its image name. */
  function BuildEntries(found: seq<FoundFile>, imagesDir: string): seq<Entry>
  {
    Concat(Pieces(found, imagesDir))
  }

  /** One more traversal path adds its own entry, if any, at the end. */
  lemma BuildEntriesSnoc(found: seq<FoundFile>, f: FoundFile, imagesDir: string)
    ensures BuildEntries(found + [f], imagesDir) == BuildEntries(found, imagesDir) + EntryOf(f, imagesDir)
  {
    MapSnoc(found, f, g => EntryOf(g, imagesDir));
    ConcatSnoc(Pieces(found, imagesDir), EntryOf(f, imagesDir));
  }

  /** Exactly the build files of the traversal become entries, with their own descriptors. */
  lemma BuildEntriesMembers(found: seq<FoundFile>, imagesDir: string, e: Entry)
    ensures e in BuildEntries(found, imagesDir) <==> exists i :: 0 <= i < |found| && e in EntryOf(found[i], imagesDir)
  {
    var ps := Pieces(found, imagesDir);
    ConcatMembers(ps, e);
    if exists i :: 0 <= i < |ps| && e in ps[i] {
      var i :| 0 <= i < |ps| && e in ps[i];
      MapAt(found, f => EntryOf(f, imagesDir), i);
    }
    if exists i :: 0 <= i < |found| && e in EntryOf(found[i], imagesDir) {
      var i :| 0 <= i < |found| && e in EntryOf(found[i], imagesDir);
      MapAt(found, f => EntryOf(f, imagesDir), i);
    }
  }

  /** Storing the entries one by one, skipping every image named in the skip list. */
  function LoadEntries(entries: seq<Entry>, ignore: seq<string>): (r: Batch)
    ensures Valid(r)
  {
    if entries == [] then Empty()
    else
      var acc := LoadEntries(entries[..|entries| - 1], ignore);
      var e := entries[|entries| - 1];
      if e.name in ignore then acc else Put(acc, e.name, e.build)
  }

  /** The batch `loadBuildFiles` returns for the traversal `found`. */
  function Loaded(found: seq<FoundFile>, imagesDir: string, ignore: seq<string>): Batch
  {
    LoadEntries(BuildEntries(found, imagesDir), ignore)
  }

  /** The descriptors stored by name, each entry overwriting an earlier one of the same name. */
  function LoadedFiles(entries: seq<Entry>, ignore: seq<string>): map<string, Descriptor>
  {
    if entries == [] then map[]
    else
      var acc := LoadedFiles(entries[..|entries| - 1], ignore);
      var e := entries[|entries| - 1];
      if e.name in ignore then acc else acc[e.name := e.build]
  }

  /** The map of the loaded batch is the overwriting store of the entries not skipped. */
  lemma {:induction false} LoadEntriesFiles(entries: seq<Entry>, ignore: seq<string>)
    ensures LoadEntries(entries, ignore).files == LoadedFiles(entries, ignore)
    decreases |entries|
  {
    if entries != [] {
      LoadEntriesFiles(entries[..|entries| - 1], ignore);
    }
  }

  /** Every stored image is the name of some entry, and is not in the skip list. */
  lemma {:induction false} LoadedFilesWitness(entries: seq<Entry>, ignore: seq<string>, k: string) returns (j: nat)
    requires k in LoadedFiles(entries, ignore)
    ensures k !in ignore && j < |entries| && entries[j].name == k
    decreases |entries|
  {
    var n := |entries| - 1;
    var init := entries[..n];
    if entries[n].name == k && k !in ignore {
      j := n;
    } else {
      j := LoadedFilesWitness(init, ignore, k);
      assert init[j] == entries[j];
    }
  }

  /** Every entry whose name is not in the skip list is stored. */
  lemma {:induction false} LoadedFilesHas(entries: seq<Entry>, ignore: seq<string>, j: nat)
    requires j < |entries| && entries[j].name !in ignore
    ensures entries[j].name in LoadedFiles(entries, ignore)
    decreases |entries|
  {
    var n := |entries| - 1;
    var init := entries[..n];
    if j < n {
      assert init[j] == entries[j];
      LoadedFilesHas(init, ignore, j);
    }
  }

  /** A stored image holds the descriptor of the last entry that names it. */
  lemma {:induction false} LoadedFilesValue(entries: seq<Entry>, ignore: seq<string>, i: nat)
    requires i < |entries| && entries[i].name !in ignore
    requires forall j :: i < j < |entries| ==> entries[j].name != entries[i].name
    ensures entries[i].name in LoadedFiles(entries, ignore)
    ensures LoadedFiles(entries, ignore)[entries[i].name] == entries[i].build
    decreases |entries|
  {
    var n := |entries| - 1;
    var init := entries[..n];
    if i < n {
      assert init[i] == entries[i];
      forall j | i < j < |init|
        ensures init[j].name != init[i].name
      {
        assert init[j] == entries[j];
      }
      LoadedFilesValue(init, ignore, i);
    }
  }

  /** The traversal path `f` is a build file of the image `k`. */
  predicate NamesImage(f: FoundFile, imagesDir: string, k: string)
  {
    IsBuildFile(f.path) && ImageName(f.path, imagesDir) == k
  }

  /** Every loaded image is named by some build file and is not in the skip list. */
  lemma LoadedKeysSound(found: seq<FoundFile>, imagesDir: string, ignore: seq<string>, k: string)
    requires k in Loaded(found, imagesDir, ignore).files
    ensures k !in ignore && exists i :: 0 <= i < |found| && NamesImage(found[i], imagesDir, k)
  {
    var entries := BuildEntries(found, imagesDir);
    LoadEntriesFiles(entries, ignore);
    var j := LoadedFilesWitness(entries, ignore, k);
    BuildEntriesMembers(found, imagesDir, entries[j]);
    var i :| 0 <= i < |found| && entries[j] in EntryOf(found[i], imagesDir);
    EntryOfNames(found[i], imagesDir, entries[j]);
  }

  /** The entry of a traversal path names the image of that build file. */
  lemma EntryOfNames(f: FoundFile, imagesDir: string, e: Entry)
    requires e in EntryOf(f, imagesDir)
    ensures NamesImage(f, imagesDir, e.name)
  {
  }

  /** Every build file whose image is not in the skip list has its image loaded. */
  lemma LoadedKeysComplete(found: seq<FoundFile>, imagesDir: string, ignore: seq<string>, i: nat)
    requires i < |found| && IsBuildFile(found[i].path)
    requires ImageName(found[i].path, imagesDir) !in ignore
    ensures ImageName(found[i].path, imagesDir) in Loaded(found, imagesDir, ignore).files
  {
    var entries := BuildEntries(found, imagesDir);
    var k := ImageName(found[i].path, imagesDir);
    var e := Entry(k, found[i].build);
    assert e in EntryOf(found[i], imagesDir);
    BuildEntriesMembers(found, imagesDir, e);
    var j := IndexOf(entries, e);
    LoadEntriesFiles(entries, ignore);
    LoadedFilesHas(entries, ignore, j);
  }

  /**
   * The loaded batch holds an image exactly when some build file of the
   * traversal is named after it and the skip list does not list it.
   */
  lemma LoadedKeys(found: seq<FoundFile>, imagesDir: string, ignore: seq<string>, k: string)
    ensures k in Loaded(found, imagesDir, ignore).files
        <==> k !in ignore && exists i :: 0 <= i < |found| && NamesImage(found[i], imagesDir, k)
  {
    if k in Loaded(found, imagesDir, ignore).files {
      LoadedKeysSound(found, imagesDir, ignore, k);
    }
    if k !in ignore && exists i :: 0 <= i < |found| && NamesImage(found[i], imagesDir, k) {
      var i :| 0 <= i < |found| && NamesImage(found[i], imagesDir, k);
      LoadedKeysComplete(found, imagesDir, ignore, i);
    }
  }

  /** No image named in the skip list is loaded. */
  lemma LoadedSkipsIgnored(found: seq<FoundFile>, imagesDir: string, ignore: seq<string>)
    ensures forall k :: k in ignore ==> k !in Loaded(found, imagesDir, ignore).files
  {
    forall k | k in ignore
      ensures k !in Loaded(found, imagesDir, ignore).files
    {
      LoadedKeys(found, imagesDir, ignore, k);
    }
  }
}
