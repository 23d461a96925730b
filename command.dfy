/**
 * The docker-build command itself: an object holding the loaded build files
 * and the skip list, whose `execute` reads `.posignore`, loads and orders the
 * image descriptors, checks out their projects, injects the composer and git
 * instructions into every descriptor and builds each image in turn. Every
 * effect on the outside world is returned as a trace of events.
 */
module Command {
  import opened Wrappers
  import opened PhpStrings
  import opened BuildFiles
  import opened Events
  import opened Loading
  import opened Dependencies
  import opened Injection
  import opened Projects

  /** What the command finds at the `.posignore` path. */
  datatype IgnoreFile =
    /** There is no such file. */
    | Missing
    /** The file exists but cannot be opened. */
    | Unopenable
    /** The lines `fgets` returned, and whether reading reached the end of the file. */
    | Readable(lines: seq<string>, readToEnd: bool)

  /**
   * The part of the outside world the command consults: whether the images
   * directory exists, its path, the `.posignore` file, the files of the
   * recursive traversal of the images directory (each with the descriptor its
   * `include` would return), the GitHub token of the auth file, and the
   * project directory: the names in it before the run and the repositories
   * whose `git clone` succeeds.
   */
  datatype Environment = Environment(
    imagesDirExists: bool,
    imagesDir: string,
    ignoreFile: IgnoreFile,
    found: seq<FoundFile>,
    token: Option<string>,
    projectDir: ProjectDir)

  /** The events of a run together with the command's fields after it. */
  datatype Outcome = Outcome(events: seq<Event>, buildFiles: Batch, posignore: seq<string>)

  // ---------------------------------------------------------------------------
  // Specification of the individual steps

  /** The skip-list entries a `.posignore` file contributes. */
  function IgnoredBy(f: IgnoreFile): seq<string>
  {
    if f.Readable? then IgnoreEntries(f.lines) else []
  }

  /** The error message printed when reading `.posignore` stopped early. */
  function ReadErrors(f: IgnoreFile): seq<Event>
  {
    if f.Readable? && !f.readToEnd then [IgnoreReadError] else []
  }

  /** One copy per asset of the image, in the descriptor's order. */
  function AssetEvents(image: string, assets: seq<string>): (r: seq<Event>)
    ensures |r| == |assets|
    ensures forall i :: 0 <= i < |assets| ==> r[i] == CopyAsset(image, assets[i])
  {
    if assets == [] then []
    else AssetEvents(image, assets[..|assets| - 1]) + [CopyAsset(image, assets[|assets| - 1])]
  }

  /** Building one image outside a dry run: assets, Dockerfile, `docker build`, save and move the archive. */
  function ImageEvents(image: string, d: Descriptor): seq<Event>
  {
    AssetEvents(image, d.assets)
      + [WriteDockerfile(d), EnterBuildDir, DockerBuild(image),
         DockerSave(TarName(image), image), MoveTar(TarName(image)), ReturnToRoot]
  }

  /** The events of building the images `keys` of `b` in that order, each from its prepared descriptor. */
  function BuildEvents(b: Batch, keys: seq<string>, token: Option<string>, debug: bool, dryRun: bool): seq<Event>
    requires forall k :: k in keys ==> k in b.files
  {
    if keys == [] then []
    else
      var k := keys[|keys| - 1];
      BuildEvents(b, keys[..|keys| - 1], token, debug, dryRun)
        + if dryRun then [] else ImageEvents(k, Prepared(b.files[k], token, debug))
  }

  /** The batch after the descriptors of `keys` have been prepared for building. */
  function PreparedBatch(b: Batch, keys: seq<string>, token: Option<string>, debug: bool): Batch
  {
    Batch(b.keys, map k | k in b.files :: if k in keys then Prepared(b.files[k], token, debug) else b.files[k])
  }

  /** The skip list a run uses: the entries held before and those read from `.posignore`. */
  function RunIgnore(env: Environment, posignore0: seq<string>): seq<string>
  {
    posignore0 + IgnoredBy(env.ignoreFile)
  }

  /** The batch a run loads. */
  function RunLoaded(env: Environment, posignore0: seq<string>): (r: Batch)
    ensures Valid(r)
  {
    Loaded(env.found, env.imagesDir, RunIgnore(env, posignore0))
  }

  /**
   * The project directory as `checkoutProjects` finds it: `execute` has made
   * sure the directory exists, so the paths of its own entry, "." and ".."
   * exist in it too.
   */
  function CheckoutDir(env: Environment): ProjectDir
  {
    env.projectDir.(present := env.projectDir.present + SelfEntries)
  }

  /** The checkout sees every name present before the run, its own entries, and the same clone outcomes. */
  lemma CheckoutDirHas(env: Environment)
    ensures SelfEntries <= CheckoutDir(env).present && env.projectDir.present <= CheckoutDir(env).present
    ensures CheckoutDir(env).clonable == env.projectDir.clonable
  {
  }

  /**
   * Outside a dry run the checkout of a run pulls a project whose directory
   * was there before the run, or whose name is the project directory's own
   * entry, "." or "..".
   */
  lemma RunCheckoutPulls(env: Environment, projects: seq<string>, i: nat)
    requires i < |projects|
    requires ProjectName(projects[i]) in env.projectDir.present || ProjectName(projects[i]) in SelfEntries
    ensures CheckoutEvents(projects, false, CheckoutDir(env))[i] == Pull(ProjectName(projects[i]))
  {
    CheckoutDirHas(env);
    CheckoutDecision(projects, CheckoutDir(env), i);
  }

  /** The run gets past reading `.posignore`. */
  predicate Proceeds(env: Environment)
  {
    env.imagesDirExists && !env.ignoreFile.Missing?
  }

  /** The whole run of `execute`, from the environment and the fields beforehand. */
  function ExecuteOutcome(env: Environment, buildFiles0: Batch, posignore0: seq<string>,
                          image: string, dryRun: bool, debug: bool): Outcome
  {
    var start := [CopyComposerPhar];
    if !env.imagesDirExists then Outcome(start + [Exit], buildFiles0, posignore0)
    else if env.ignoreFile.Missing? then Outcome(start, buildFiles0, posignore0)
    else
      AfterLoad(start + ReadErrors(env.ignoreFile), RunLoaded(env, posignore0), RunIgnore(env, posignore0),
                CheckoutDir(env), image, dryRun, env.token, debug)
  }

  /** The run once the batch is loaded: order it, or stop on a cycle. */
  function AfterLoad(read: seq<Event>, loaded: Batch, ignore: seq<string>, dir: ProjectDir,
                     image: string, dryRun: bool, token: Option<string>, debug: bool): Outcome
    requires Valid(loaded)
  {
    match BuildOrder(loaded)
    case Err(_) => Outcome(read + [CyclicDependency], loaded, ignore)
    case Ok(sorted) =>
      BuildOrderPermutation(loaded);
      Finish(read, sorted, CheckoutEvents(AllProjects(sorted), dryRun, dir), ignore, image, dryRun, token, debug)
  }

  /** The run once the batch is ordered and the projects are checked out: build, then clean up. */
  function Finish(read: seq<Event>, sorted: Batch, checkout: seq<Event>, ignore: seq<string>,
                  image: string, dryRun: bool, token: Option<string>, debug: bool): Outcome
    requires Valid(sorted)
  {
    if image != "all" then Outcome(read + checkout + [Unsupported] + [Cleanup], sorted, ignore)
    else
      Outcome(read + checkout + BuildEvents(sorted, sorted.keys, token, debug, dryRun) + [Cleanup],
              PreparedBatch(sorted, sorted.keys, token, debug), ignore)
  }

  // ---------------------------------------------------------------------------
  // The command object

  class DockerBuildCommand {
    /** The loaded image descriptors, keyed by image name. */
    var buildFiles: Batch
    /** The image names read from `.posignore`. */
    var posignore: seq<string>

    constructor()
      ensures buildFiles == Empty() && posignore == []
    {
      buildFiles := Empty();
      posignore := [];
    }

    /** The reading loop over `.posignore`: every trimmed, truthy line not starting with '#' is appended. */
    method ReadPosignore(lines: seq<string>)
      modifies this
      ensures posignore == old(posignore) + IgnoreEntries(lines)
      ensures buildFiles == old(buildFiles)
    {
      var i := 0;
      while i < |lines|
        invariant 0 <= i <= |lines|
        invariant posignore == old(posignore) + IgnoreEntries(lines[..i])
        invariant buildFiles == old(buildFiles)
      {
        ReadStep(old(posignore), lines, i, posignore);
        var line := Trim(lines[i]);
        if Truthy(line) && line[0] != '#' {
          posignore := posignore + [line];
        }
        i := i + 1;
      }
      assert lines[..i] == lines;
    }

    /** `loadBuildFiles`: every build file of the traversal not on the skip list, under its image name. */
    method LoadBuildFiles(found: seq<FoundFile>, imagesDir: string) returns (r: Batch)
      ensures r == Loaded(found, imagesDir, posignore)
    {
      r := Empty();
      for i := 0 to |found|
        invariant r == Loaded(found[..i], imagesDir, posignore)
      {
        LoadedPrefix(found, i, imagesDir, posignore);
        var fileName := found[i].path;
        if IsBuildFile(fileName) {
          var imageName := ImageName(fileName, imagesDir);
          if imageName !in posignore {
            r := Put(r, imageName, found[i].build);
          }
        }
      }
      TakeAll(found);
    }

    /** `checkoutProjects`: merge the project lists, drop repeats, then list, pull or clone each. */
    method CheckoutProjects(dryRun: bool, dir: ProjectDir) returns (events: seq<Event>)
      requires Valid(buildFiles)
      ensures events == CheckoutEvents(AllProjects(buildFiles), dryRun, dir)
    {
      var projects: seq<string> := [];
      for i := 0 to |buildFiles.keys|
        invariant projects == Merged(buildFiles.keys[..i], buildFiles.files)
      {
        MergedPrefix(buildFiles.keys, i, buildFiles.files);
        projects := projects + buildFiles.files[buildFiles.keys[i]].projects;
      }
      TakeAll(buildFiles.keys);
      projects := Unique(projects);
      events := [];
      var existing := dir;
      TakeAll(projects);
      AppendEmpty(CheckoutEvents(projects, dryRun, dir));
      for i := 0 to |projects|
        invariant events + CheckoutEvents(projects[i..], dryRun, existing)
               == CheckoutEvents(projects, dryRun, dir)
      {
        var project := projects[i];
        var projectName := ProjectName(project);
        CheckoutStep(projects, i, dryRun, existing);
        var rest := CheckoutEvents(projects[i + 1..], dryRun,
          if dryRun || projectName in existing.present then existing else AfterClone(existing, project));
        if dryRun {
          AppendAssoc(events, [LsRemote(project)], rest);
          events := events + [LsRemote(project)];
        } else if projectName in existing.present {
          AppendAssoc(events, [Pull(projectName)], rest);
          events := events + [Pull(projectName)];
        } else {
          AppendAssoc(events, [Clone(project, projectName)], rest);
          events := events + [Clone(project, projectName)];
          existing := AfterClone(existing, project);
        }
      }
      AppendEmpty(events);
    }

    /** `copyAddAssets`: one copy into the build context per asset of the image. */
    method CopyAddAssets(build: Descriptor, imageName: string) returns (events: seq<Event>)
      ensures events == AssetEvents(imageName, build.assets)
    {
      var assets := build.assets;
      events := [];
      for i := 0 to |assets|
        invariant events == AssetEvents(imageName, assets[..i])
      {
        assert assets[..i + 1][..i] == assets[..i];
        events := events + [CopyAsset(imageName, assets[i])];
      }
      assert assets[..|assets|] == assets;
    }

    /** `addComposerInstallCommand`: appends the token run and the composer installation. */
    method AddComposerInstallCommand(build: Descriptor, token: Option<string>, debug: bool) returns (r: Descriptor)
      ensures r == build.(instructions := build.instructions + Injected(build.composerInstallDirs, token, debug))
    {
      var directories := build.composerInstallDirs;
      r := build;
      if token.Some? && Truthy(token.value) {
        r := r.RunCommand(TokenPrefix + [token.value]);
      } else {
        AppendEmpty(build.instructions);
      }
      InjectedParts(build.instructions, directories, token, debug);
      if directories == [] {
        return;
      }
      r := r.AddFile("auth.json", "/root/.composer/auth.json");
      r := r.AddFile("composer.phar", ComposerPhar);
      ghost var base := build.instructions + TokenPart(token) + [AuthAdd, PharAdd];
      AppendAssoc(build.instructions + TokenPart(token), [AuthAdd], [PharAdd]);
      AppendEmpty(base);
      assert r.instructions == base + InstallRuns(directories[..0], debug);
      for i := 0 to |directories|
        invariant r.instructions == base + InstallRuns(directories[..i], debug)
        invariant r == build.(instructions := r.instructions)
      {
        InstallStep(base, directories, i, debug);
        var composerCommand := ["php", ComposerPhar, "--no-interaction", "--no-dev",
                                "--working-dir=" + directories[i]];
        if debug {
          composerCommand := composerCommand + ["-vvv"];
        }
        composerCommand := composerCommand + ["install"];
        assert composerCommand == InstallArgs(directories[i], debug);
        r := r.RunCommand(composerCommand);
      }
      TakeAll(directories);
      r := r.RunCommand(CleanupArgs);
    }

    /** `setDefaultGitProtocol`: appends the run that rewrites git:// GitHub URLs to https. */
    method SetDefaultGitProtocol(build: Descriptor) returns (r: Descriptor)
      ensures r == build.(instructions := build.instructions + [Run(GitProtocolArgs)])
    {
      r := build.RunCommand(GitProtocolArgs);
    }

    /**
     * `build`: only "all" is supported. Every descriptor is prepared in place,
     * in a dry run too; outside a dry run each image is then built in batch order.
     */
    method Build(image: string, dryRun: bool, token: Option<string>, debug: bool) returns (events: seq<Event>)
      requires Valid(buildFiles)
      modifies this
      ensures posignore == old(posignore)
      ensures image != "all" ==> events == [Unsupported] && buildFiles == old(buildFiles)
      ensures image == "all" ==>
        && events == BuildEvents(old(buildFiles), old(buildFiles).keys, token, debug, dryRun)
        && buildFiles == PreparedBatch(old(buildFiles), old(buildFiles).keys, token, debug)
    {
      if image != "all" {
        events := [Unsupported];
        return;
      }
      var b := buildFiles;
      events := [];
      for i := 0 to |b.keys|
        invariant posignore == old(posignore)
        invariant buildFiles == PreparedBatch(b, b.keys[..i], token, debug)
        invariant events == BuildEvents(b, b.keys[..i], token, debug, dryRun)
      {
        var imageName := b.keys[i];
        var build := b.files[imageName];
        build := AddComposerInstallCommand(build, token, debug);
        build := SetDefaultGitProtocol(build);
        assert build == Prepared(b.files[imageName], token, debug);
        PreparedBatchStep(b, i, token, debug);
        BuildEventsStep(b, i, token, debug, dryRun);
        buildFiles := buildFiles.(files := buildFiles.files[imageName := build]);
        if !dryRun {
          var copies := CopyAddAssets(build, imageName);
          var tarFileName := TarName(imageName);
          var steps := [WriteDockerfile(build), EnterBuildDir, DockerBuild(imageName),
                        DockerSave(tarFileName, imageName), MoveTar(tarFileName), ReturnToRoot];
          assert copies + steps == ImageEvents(imageName, build);
          events := events + (copies + steps);
        }
        assert events == BuildEvents(b, b.keys[..i + 1], token, debug, dryRun);
        assert buildFiles == PreparedBatch(b, b.keys[..i + 1], token, debug);
      }
      TakeAll(b.keys);
    }

    /** `execute`: the whole command run against the environment `env`. */
    method Execute(env: Environment, image: string, dryRun: bool, debug: bool) returns (events: seq<Event>)
      modifies this
      ensures Outcome(events, buildFiles, posignore)
           == ExecuteOutcome(env, old(buildFiles), old(posignore), image, dryRun, debug)
    {
      events := [CopyComposerPhar];
      if !env.imagesDirExists {
        events := events + [Exit];
        return;
      }
      if env.ignoreFile.Missing? {
        return;
      }
      AppendEmpty(posignore);
      AppendEmpty(events);
      if env.ignoreFile.Readable? {
        ReadPosignore(env.ignoreFile.lines);
        if !env.ignoreFile.readToEnd {
          events := events + [IgnoreReadError];
        }
      }
      assert posignore == old(posignore) + IgnoredBy(env.ignoreFile);
      assert events == [CopyComposerPhar] + ReadErrors(env.ignoreFile);
      buildFiles := LoadBuildFiles(env.found, env.imagesDir);
      var sorted := SortBuildFiles(buildFiles);
      if sorted.Err? {
        events := events + [CyclicDependency];
        return;
      }
      buildFiles := sorted.value;
      var checkout := CheckoutProjects(dryRun, CheckoutDir(env));
      events := events + checkout;
      var built := Build(image, dryRun, env.token, debug);
      AppendAssoc(events, built, [Cleanup]);
      events := events + built + [Cleanup];
    }
  }

  // ---------------------------------------------------------------------------
  // Steps of the loops

  /** Reading line `i` extends the skip list read so far exactly as the entries of one more line do. */
  lemma ReadStep(posignore0: seq<string>, lines: seq<string>, i: nat, posignore: seq<string>)
    requires i < |lines| && posignore == posignore0 + IgnoreEntries(lines[..i])
    ensures var line := Trim(lines[i]);
      (if IsEntry(line) then posignore + [line] else posignore)
        == posignore0 + IgnoreEntries(lines[..i + 1])
  {
    IgnoreEntriesPrefix(lines, i);
    var line, a := Trim(lines[i]), IgnoreEntries(lines[..i]);
    AppendAssoc(posignore0, a, if IsEntry(line) then [line] else []);
    AppendEmpty(a);
  }

  /** The instructions `addComposerInstallCommand` appends, in the order it appends them. */
  lemma InjectedParts(prefix: seq<Instruction>, dirs: seq<string>, token: Option<string>, debug: bool)
    ensures dirs == [] ==> prefix + Injected(dirs, token, debug) == prefix + TokenPart(token)
    ensures dirs != [] ==>
      prefix + Injected(dirs, token, debug)
        == prefix + TokenPart(token) + [AuthAdd, PharAdd] + InstallRuns(dirs, debug) + [Run(CleanupArgs)]
  {
    var t := TokenPart(token);
    if dirs == [] {
      assert t + [] == t;
    } else {
      var runs := InstallRuns(dirs, debug);
      var adds: seq<Instruction> := [AuthAdd, PharAdd];
      assert prefix + (t + (adds + runs + [Run(CleanupArgs)])) == prefix + t + adds + runs + [Run(CleanupArgs)];
    }
  }

  /** Appending the install run of directory `i` extends the install runs of the directories before it. */
  lemma InstallStep(prefix: seq<Instruction>, dirs: seq<string>, i: nat, debug: bool)
    requires i < |dirs|
    ensures prefix + InstallRuns(dirs[..i], debug) + [Run(InstallArgs(dirs[i], debug))]
         == prefix + InstallRuns(dirs[..i + 1], debug)
  {
    assert dirs[..i + 1][..i] == dirs[..i];
    var runs := InstallRuns(dirs[..i], debug);
    assert prefix + runs + [Run(InstallArgs(dirs[i], debug))] == prefix + (runs + [Run(InstallArgs(dirs[i], debug))]);
  }

  /** One more traversal path loads its build file unless it is skipped, and changes nothing otherwise. */
  lemma LoadedPrefix(found: seq<FoundFile>, i: nat, imagesDir: string, ignore: seq<string>)
    requires i < |found|
    ensures var f := found[i];
      Loaded(found[..i + 1], imagesDir, ignore)
        == if IsBuildFile(f.path) && ImageName(f.path, imagesDir) !in ignore
           then Put(Loaded(found[..i], imagesDir, ignore), ImageName(f.path, imagesDir), f.build)
           else Loaded(found[..i], imagesDir, ignore)
  {
    var f, init := found[i], found[..i];
    assert found[..i + 1] == init + [f];
    var es := BuildEntries(init, imagesDir);
    BuildEntriesSnoc(init, f, imagesDir);
    if IsBuildFile(f.path) {
      var e := Entry(ImageName(f.path, imagesDir), f.build);
      assert (es + [e])[..|es|] == es;
    } else {
      AppendEmpty(es);
    }
  }

  lemma PreparedBatchStep(b: Batch, i: nat, token: Option<string>, debug: bool)
    requires Valid(b) && i < |b.keys|
    ensures var k, p := b.keys[i], PreparedBatch(b, b.keys[..i], token, debug);
      PreparedBatch(b, b.keys[..i + 1], token, debug) == p.(files := p.files[k := Prepared(b.files[k], token, debug)])
  {
    var k := b.keys[i];
    TakeSnoc(b.keys, i);
    var p := PreparedBatch(b, b.keys[..i], token, debug);
    var q := PreparedBatch(b, b.keys[..i + 1], token, debug);
    var m := p.files[k := Prepared(b.files[k], token, debug)];
    forall x
      ensures x in q.files <==> x in m
    {
    }
    forall x | x in q.files
      ensures q.files[x] == m[x]
    {
      MemberSnoc(b.keys[..i], k, x);
    }
    MapsEqual(q.files, m);
  }

  lemma BuildEventsStep(b: Batch, i: nat, token: Option<string>, debug: bool, dryRun: bool)
    requires Valid(b) && i < |b.keys|
    ensures var k := b.keys[i];
      BuildEvents(b, b.keys[..i + 1], token, debug, dryRun)
        == BuildEvents(b, b.keys[..i], token, debug, dryRun)
           + if dryRun then [] else ImageEvents(k, Prepared(b.files[k], token, debug))
  {
    assert b.keys[..i + 1][..i] == b.keys[..i];
  }

  // ---------------------------------------------------------------------------
  // Properties of a run

  /** The events that belong to building one image. */
  predicate IsBuildStep(e: Event)
  {
    e.CopyAsset? || e.WriteDockerfile? || e.EnterBuildDir? || e.DockerBuild? || e.DockerSave? || e.MoveTar? || e.ReturnToRoot?
  }

  /** The events of the project checkout. */
  predicate IsCheckoutStep(e: Event)
  {
    e.LsRemote? || e.Pull? || e.Clone?
  }

  /** The events a run records before it loads the descriptors. */
  predicate ReadOnly(read: seq<Event>)
  {
    forall e :: e in read ==> e == CopyComposerPhar || e == IgnoreReadError
  }

  predicate CheckoutOnly(checkout: seq<Event>)
  {
    forall e :: e in checkout ==> IsCheckoutStep(e)
  }

  /** The images `docker build` runs for, in the order it runs for them. */
  function BuiltImages(events: seq<Event>): (r: seq<string>)
  {
    if events == [] then []
    else
      var e := events[|events| - 1];
      BuiltImages(events[..|events| - 1]) + if e.DockerBuild? then [e.image] else []
  }

  lemma {:induction false} BuiltImagesAppend(a: seq<Event>, b: seq<Event>)
    ensures BuiltImages(a + b) == BuiltImages(a) + BuiltImages(b)
    decreases |b|
  {
    if b == [] {
      AppendEmpty(a);
      AppendEmpty(BuiltImages(a));
    } else {
      var init, e := b[..|b| - 1], b[|b| - 1];
      assert (a + b)[..|a + b| - 1] == a + init;
      BuiltImagesAppend(a, init);
      AppendAssoc(BuiltImages(a), BuiltImages(init), if e.DockerBuild? then [e.image] else []);
    }
  }

  /** An image is among the built images exactly when a `docker build` event for it occurs. */
  lemma {:induction false} BuiltImagesMembers(events: seq<Event>, k: string)
    ensures k in BuiltImages(events) <==> DockerBuild(k) in events
    decreases |events|
  {
    if events != [] {
      var init := events[..|events| - 1];
      BuiltImagesMembers(init, k);
      assert events == init + [events[|events| - 1]];
    }
  }

  lemma {:induction false} NoneBuilt(events: seq<Event>)
    requires forall e :: e in events ==> !e.DockerBuild?
    ensures BuiltImages(events) == []
    decreases |events|
  {
    if events != [] {
      NoneBuilt(events[..|events| - 1]);
    }
  }

  /** Building one image runs `docker build` once, for that image, and consists of build steps only. */
  lemma ImageEventsBuilt(k: string, d: Descriptor)
    ensures BuiltImages(ImageEvents(k, d)) == [k]
    ensures forall e :: e in ImageEvents(k, d) ==> IsBuildStep(e)
  {
    var assets := AssetEvents(k, d.assets);
    var p1: seq<Event> := [WriteDockerfile(d), EnterBuildDir];
    var p2: seq<Event> := [DockerBuild(k)];
    var p3: seq<Event> := [DockerSave(TarName(k), k), MoveTar(TarName(k)), ReturnToRoot];
    assert ImageEvents(k, d) == assets + (p1 + p2 + p3);
    AssetEventsCopies(k, d.assets);
    NoneBuilt(assets);
    NoneBuilt(p1);
    NoneBuilt(p3);
    assert BuiltImages(p2) == [k] by {
      assert p2[..0] == [];
    }
    BuiltImagesAppend(p1, p2);
    BuiltImagesAppend(p1 + p2, p3);
    BuiltImagesAppend(assets, p1 + p2 + p3);
  }

  /** The copies of an image's assets are all asset copies. */
  lemma AssetEventsCopies(image: string, assets: seq<string>)
    ensures forall e :: e in AssetEvents(image, assets) ==> e.CopyAsset?
  {
    var r := AssetEvents(image, assets);
    forall e | e in r
      ensures e.CopyAsset?
    {
      var i :| 0 <= i < |r| && r[i] == e;
    }
  }

  /** Building the images of `keys` runs `docker build` for exactly those images, in that order. */
  lemma {:induction false} BuildEventsBuilt(b: Batch, keys: seq<string>, token: Option<string>, debug: bool)
    requires forall k :: k in keys ==> k in b.files
    ensures BuiltImages(BuildEvents(b, keys, token, debug, false)) == keys
    decreases |keys|
  {
    if keys != [] {
      var init, k := keys[..|keys| - 1], keys[|keys| - 1];
      var d := Prepared(b.files[k], token, debug);
      assert BuildEvents(b, keys, token, debug, false) == BuildEvents(b, init, token, debug, false) + ImageEvents(k, d);
      BuildEventsBuilt(b, init, token, debug);
      ImageEventsBuilt(k, d);
      BuiltImagesAppend(BuildEvents(b, init, token, debug, false), ImageEvents(k, d));
      SnocLast(keys);
    }
  }

  /** A dry run builds nothing. */
  lemma {:induction false} BuildEventsDry(b: Batch, keys: seq<string>, token: Option<string>, debug: bool)
    requires forall k :: k in keys ==> k in b.files
    ensures BuildEvents(b, keys, token, debug, true) == []
    decreases |keys|
  {
    if keys != [] {
      BuildEventsDry(b, keys[..|keys| - 1], token, debug);
    }
  }

  /** Building consists of build steps only. */
  lemma {:induction false} BuildEventsKinds(b: Batch, keys: seq<string>, token: Option<string>, debug: bool, dryRun: bool)
    requires forall k :: k in keys ==> k in b.files
    ensures forall e :: e in BuildEvents(b, keys, token, debug, dryRun) ==> IsBuildStep(e)
    decreases |keys|
  {
    if keys != [] {
      var k := keys[|keys| - 1];
      BuildEventsKinds(b, keys[..|keys| - 1], token, debug, dryRun);
      ImageEventsBuilt(k, Prepared(b.files[k], token, debug));
    }
  }

  /**
   * The last stage keeps the skip list and ends with the clean-up; it builds
   * only with "all" outside a dry run, leaves the batch as ordered otherwise,
   * and in a dry run neither clones nor pulls.
   */
  lemma FinishSteps(read: seq<Event>, sorted: Batch, checkout: seq<Event>, ignore: seq<string>,
                    image: string, dryRun: bool, token: Option<string>, debug: bool)
    requires Valid(sorted) && ReadOnly(read) && CheckoutOnly(checkout)
    requires dryRun ==> forall e :: e in checkout ==> e.LsRemote?
    ensures var out := Finish(read, sorted, checkout, ignore, image, dryRun, token, debug);
      && out.posignore == ignore
      && (image != "all" ==> out.buildFiles == sorted)
      && out.events != [] && out.events[|out.events| - 1] == Cleanup
      && forall e :: e in out.events ==>
           (IsBuildStep(e) ==> image == "all" && !dryRun) && (dryRun ==> !e.Pull? && !e.Clone?)
  {
    var tail: seq<Event> := if image != "all" then [Unsupported] else BuildEvents(sorted, sorted.keys, token, debug, dryRun);
    if image == "all" {
      BuildEventsKinds(sorted, sorted.keys, token, debug, dryRun);
      if dryRun {
        BuildEventsDry(sorted, sorted.keys, token, debug);
      }
    }
    var events := read + checkout + tail + [Cleanup];
    assert Finish(read, sorted, checkout, ignore, image, dryRun, token, debug).events == events;
    forall e | e in events
      ensures (IsBuildStep(e) ==> image == "all" && !dryRun) && (dryRun ==> !e.Pull? && !e.Clone?)
    {
      if e in read {
      } else if e in checkout {
      } else if e in tail {
      }
    }
  }

  /** The last stage builds the ordered images exactly when the selector is "all" outside a dry run. */
  lemma FinishBuilt(read: seq<Event>, sorted: Batch, checkout: seq<Event>, ignore: seq<string>,
                    image: string, dryRun: bool, token: Option<string>, debug: bool)
    requires Valid(sorted) && ReadOnly(read) && CheckoutOnly(checkout)
    ensures BuiltImages(Finish(read, sorted, checkout, ignore, image, dryRun, token, debug).events)
         == if image == "all" && !dryRun then sorted.keys else []
  {
    NoneBuilt(read);
    NoneBuilt(checkout);
    BuiltImagesAppend(read, checkout);
    var tail: seq<Event> := if image != "all" then [Unsupported] else BuildEvents(sorted, sorted.keys, token, debug, dryRun);
    if image != "all" {
      NoneBuilt(tail);
    } else if dryRun {
      BuildEventsDry(sorted, sorted.keys, token, debug);
      NoneBuilt(tail);
    } else {
      BuildEventsBuilt(sorted, sorted.keys, token, debug);
    }
    BuiltImagesAppend(read + checkout, tail);
    NoneBuilt([Cleanup]);
    BuiltImagesAppend(read + checkout + tail, [Cleanup]);
    AppendEmpty(BuiltImages(tail));
    AppendEmpty(BuiltImages(read + checkout + tail));
  }

  /** In the last stage every checkout step comes before every build step. */
  lemma FinishOrder(read: seq<Event>, sorted: Batch, checkout: seq<Event>, ignore: seq<string>,
                    image: string, dryRun: bool, token: Option<string>, debug: bool)
    requires Valid(sorted) && ReadOnly(read) && CheckoutOnly(checkout)
    ensures var events := Finish(read, sorted, checkout, ignore, image, dryRun, token, debug).events;
      forall i, j :: 0 <= i < j < |events| && IsBuildStep(events[i]) ==> !IsCheckoutStep(events[j])
  {
    var head := read + checkout;
    var tail: seq<Event> := if image != "all" then [Unsupported] else BuildEvents(sorted, sorted.keys, token, debug, dryRun);
    if image == "all" {
      BuildEventsKinds(sorted, sorted.keys, token, debug, dryRun);
    }
    AppendAssoc(head, tail, [Cleanup]);
    StepsInOrder(head, tail + [Cleanup]);
  }

  /** Once no build step precedes the tail and no checkout step is in it, checkout precedes building. */
  lemma StepsInOrder(head: seq<Event>, tail: seq<Event>)
    requires forall e :: e in head ==> !IsBuildStep(e)
    requires forall e :: e in tail ==> !IsCheckoutStep(e)
    ensures var events := head + tail;
      forall i, j :: 0 <= i < j < |events| && IsBuildStep(events[i]) ==> !IsCheckoutStep(events[j])
  {
    var events := head + tail;
    forall i | 0 <= i < |head|
      ensures !IsBuildStep(events[i])
    {
      assert events[i] == head[i];
    }
    forall j | |head| <= j < |events|
      ensures !IsCheckoutStep(events[j])
    {
      assert events[j] == tail[j - |head|];
    }
  }

  /** A run that gets past `.posignore` records its reading events and then continues with the loaded batch. */
  lemma RunStage(env: Environment, b0: Batch, p0: seq<string>, image: string, dryRun: bool, debug: bool)
      returns (read: seq<Event>, loaded: Batch)
    requires Proceeds(env)
    ensures ReadOnly(read) && read != [] && loaded == RunLoaded(env, p0) && Valid(loaded)
    ensures ExecuteOutcome(env, b0, p0, image, dryRun, debug)
         == AfterLoad(read, loaded, RunIgnore(env, p0), CheckoutDir(env), image, dryRun, env.token, debug)
  {
    read := [CopyComposerPhar] + ReadErrors(env.ignoreFile);
    loaded := RunLoaded(env, p0);
    ReadEventsOnly(env.ignoreFile);
  }

  /** Reading `.posignore` records only the copy of composer.phar and possibly the read error. */
  lemma ReadEventsOnly(f: IgnoreFile)
    ensures ReadOnly([CopyComposerPhar] + ReadErrors(f))
  {
    var read := [CopyComposerPhar] + ReadErrors(f);
    assert read == [CopyComposerPhar] || read == [CopyComposerPhar, IgnoreReadError];
  }

  /** A batch with a cycle stops the run with the cycle report and leaves the batch as loaded. */
  lemma AfterLoadErr(read: seq<Event>, loaded: Batch, ignore: seq<string>, dir: ProjectDir,
                     image: string, dryRun: bool, token: Option<string>, debug: bool)
    requires Valid(loaded) && BuildOrder(loaded).Err?
    ensures AfterLoad(read, loaded, ignore, dir, image, dryRun, token, debug)
         == Outcome(read + [CyclicDependency], loaded, ignore)
  {
  }

  /** An ordered batch continues with the checkout of its projects and the last stage. */
  lemma AfterLoadShape(read: seq<Event>, loaded: Batch, ignore: seq<string>, dir: ProjectDir,
                       image: string, dryRun: bool, token: Option<string>, debug: bool)
      returns (sorted: Batch, checkout: seq<Event>)
    requires Valid(loaded) && BuildOrder(loaded).Ok?
    ensures sorted == BuildOrder(loaded).value && Valid(sorted) && sorted.files == loaded.files
    ensures CheckoutOnly(checkout)
    ensures dryRun ==> forall e :: e in checkout ==> e.LsRemote?
    ensures AfterLoad(read, loaded, ignore, dir, image, dryRun, token, debug)
         == Finish(read, sorted, checkout, ignore, image, dryRun, token, debug)
  {
    BuildOrderPermutation(loaded);
    BuildOrderShape(loaded);
    sorted := BuildOrder(loaded).value;
    checkout := CheckoutEvents(AllProjects(sorted), dryRun, dir);
    CheckoutKinds(AllProjects(sorted), dryRun, dir);
  }

  /** A run that does not reach the last stage records only its start, the `.posignore` errors and the stop. */
  lemma RunQuiet(env: Environment, b0: Batch, p0: seq<string>, image: string, dryRun: bool, debug: bool)
    requires !(Proceeds(env) && BuildOrder(RunLoaded(env, p0)).Ok?)
    ensures forall e :: e in ExecuteOutcome(env, b0, p0, image, dryRun, debug).events ==>
      e == CopyComposerPhar || e == Exit || e == IgnoreReadError || e == CyclicDependency
  {
    if Proceeds(env) {
      var read, loaded := RunStage(env, b0, p0, image, dryRun, debug);
      AfterLoadErr(read, loaded, RunIgnore(env, p0), CheckoutDir(env), image, dryRun, env.token, debug);
      forall e | e in read + [CyclicDependency]
        ensures e == CopyComposerPhar || e == IgnoreReadError || e == CyclicDependency
      {
        if e in read {
        }
      }
    }
  }

  /**
   * A run that loads and orders its batch consists of the reading events, the
   * checkout of the ordered batch's projects, then the last stage.
   */
  lemma RunShape(env: Environment, b0: Batch, p0: seq<string>, image: string, dryRun: bool, debug: bool)
      returns (read: seq<Event>, sorted: Batch, checkout: seq<Event>)
    requires Proceeds(env) && BuildOrder(RunLoaded(env, p0)).Ok?
    ensures sorted == BuildOrder(RunLoaded(env, p0)).value
    ensures Valid(sorted) && sorted.files == RunLoaded(env, p0).files
    ensures ReadOnly(read) && CheckoutOnly(checkout)
    ensures dryRun ==> forall e :: e in checkout ==> e.LsRemote?
    ensures ExecuteOutcome(env, b0, p0, image, dryRun, debug)
         == Finish(read, sorted, checkout, RunIgnore(env, p0), image, dryRun, env.token, debug)
  {
    var loaded;
    read, loaded := RunStage(env, b0, p0, image, dryRun, debug);
    sorted, checkout := AfterLoadShape(read, loaded, RunIgnore(env, p0), CheckoutDir(env), image, dryRun, env.token, debug);
  }

  /** Without the images directory the run copies the composer executable and exits, changing nothing else. */
  lemma ExitWithoutImagesDir(env: Environment, b0: Batch, p0: seq<string>, image: string, dryRun: bool, debug: bool)
    requires !env.imagesDirExists
    ensures ExecuteOutcome(env, b0, p0, image, dryRun, debug) == Outcome([CopyComposerPhar, Exit], b0, p0)
  {
  }

  /** Without a `.posignore` file the run stops silently after copying the composer executable. */
  lemma StopWithoutIgnoreFile(env: Environment, b0: Batch, p0: seq<string>, image: string, dryRun: bool, debug: bool)
    requires env.imagesDirExists && env.ignoreFile.Missing?
    ensures ExecuteOutcome(env, b0, p0, image, dryRun, debug) == Outcome([CopyComposerPhar], b0, p0)
  {
  }

  /**
   * A run that gets past `.posignore` keeps the skip list it read, and ends
   * with the clean-up exactly when the images can be ordered, and with the
   * cycle report otherwise.
   */
  lemma RunEnds(env: Environment, b0: Batch, p0: seq<string>, image: string, dryRun: bool, debug: bool)
    requires Proceeds(env)
    ensures var out, loaded := ExecuteOutcome(env, b0, p0, image, dryRun, debug), RunLoaded(env, p0);
      && out.posignore == RunIgnore(env, p0)
      && out.events != []
      && (BuildOrder(loaded).Err? ==> out.events[|out.events| - 1] == CyclicDependency)
      && (BuildOrder(loaded).Ok? ==> out.events[|out.events| - 1] == Cleanup)
  {
    var read, loaded := RunStage(env, b0, p0, image, dryRun, debug);
    if BuildOrder(loaded).Ok? {
      var sorted, checkout := AfterLoadShape(read, loaded, RunIgnore(env, p0), CheckoutDir(env), image, dryRun, env.token, debug);
      FinishSteps(read, sorted, checkout, RunIgnore(env, p0), image, dryRun, env.token, debug);
    } else {
      AfterLoadErr(read, loaded, RunIgnore(env, p0), CheckoutDir(env), image, dryRun, env.token, debug);
    }
  }

  /** A dry run neither builds an image nor clones or pulls a project: it only lists the remotes. */
  lemma DryRunBuildsNothing(env: Environment, b0: Batch, p0: seq<string>, image: string, debug: bool)
    ensures var out := ExecuteOutcome(env, b0, p0, image, true, debug);
      forall e :: e in out.events ==> !IsBuildStep(e) && !e.Pull? && !e.Clone?
  {
    if Proceeds(env) && BuildOrder(RunLoaded(env, p0)).Ok? {
      var read, sorted, checkout := RunShape(env, b0, p0, image, true, debug);
      FinishSteps(read, sorted, checkout, RunIgnore(env, p0), image, true, env.token, debug);
    } else {
      RunQuiet(env, b0, p0, image, true, debug);
    }
  }

  /** Any image selector other than "all" builds nothing and leaves the descriptors as loaded. */
  lemma SingleImageNotBuilt(env: Environment, b0: Batch, p0: seq<string>, image: string, dryRun: bool, debug: bool)
    requires image != "all"
    ensures var out := ExecuteOutcome(env, b0, p0, image, dryRun, debug);
      && (forall e :: e in out.events ==> !IsBuildStep(e))
      && (Proceeds(env) ==> out.buildFiles.files == RunLoaded(env, p0).files)
  {
    if Proceeds(env) && BuildOrder(RunLoaded(env, p0)).Ok? {
      var read, sorted, checkout := RunShape(env, b0, p0, image, dryRun, debug);
      FinishSteps(read, sorted, checkout, RunIgnore(env, p0), image, dryRun, env.token, debug);
    } else {
      RunQuiet(env, b0, p0, image, dryRun, debug);
      if Proceeds(env) {
        var read, loaded := RunStage(env, b0, p0, image, dryRun, debug);
        AfterLoadErr(read, loaded, RunIgnore(env, p0), CheckoutDir(env), image, dryRun, env.token, debug);
      }
    }
  }

  /** The images `docker build` runs for: the build order of the loaded batch with "all" outside a dry run, none otherwise. */
  lemma RunBuilt(env: Environment, b0: Batch, p0: seq<string>, image: string, dryRun: bool, debug: bool)
    ensures var built := BuiltImages(ExecuteOutcome(env, b0, p0, image, dryRun, debug).events);
      built == if Proceeds(env) && BuildOrder(RunLoaded(env, p0)).Ok? && image == "all" && !dryRun
               then BuildOrder(RunLoaded(env, p0)).value.keys else []
  {
    if Proceeds(env) && BuildOrder(RunLoaded(env, p0)).Ok? {
      var read, sorted, checkout := RunShape(env, b0, p0, image, dryRun, debug);
      FinishBuilt(read, sorted, checkout, RunIgnore(env, p0), image, dryRun, env.token, debug);
    } else {
      RunQuiet(env, b0, p0, image, dryRun, debug);
      NoneBuilt(ExecuteOutcome(env, b0, p0, image, dryRun, debug).events);
    }
  }

  /**
   * Outside a dry run, with "all", every loaded image is built exactly once,
   * in the build order: after its parent image and after every image of its
   * dependency tree.
   */
  lemma ParentsBuiltFirst(env: Environment, b0: Batch, p0: seq<string>, debug: bool)
    requires Proceeds(env) && BuildOrder(RunLoaded(env, p0)).Ok?
    ensures var built, loaded := BuiltImages(ExecuteOutcome(env, b0, p0, "all", false, debug).events), RunLoaded(env, p0);
      && built == BuildOrder(loaded).value.keys
      && multiset(built) == multiset(loaded.keys) && Distinct(built)
      && ParentsFirst(loaded, built) && AncestorsFirst(loaded, built)
  {
    var loaded := RunLoaded(env, p0);
    RunBuilt(env, b0, p0, "all", false, debug);
    BuildOrderPermutation(loaded);
    BuildOrderParentsFirst(loaded);
  }

  /** Only loaded images are built. */
  lemma BuiltAreLoaded(env: Environment, b0: Batch, p0: seq<string>, image: string, dryRun: bool, debug: bool, k: string)
    requires DockerBuild(k) in ExecuteOutcome(env, b0, p0, image, dryRun, debug).events
    ensures Proceeds(env) && k in RunLoaded(env, p0).files
  {
    var out := ExecuteOutcome(env, b0, p0, image, dryRun, debug);
    RunBuilt(env, b0, p0, image, dryRun, debug);
    BuiltImagesMembers(out.events, k);
    if Proceeds(env) && BuildOrder(RunLoaded(env, p0)).Ok? {
      BuildOrderPermutation(RunLoaded(env, p0));
      BuildOrderShape(RunLoaded(env, p0));
    }
  }

  /** An image named in the skip list is never built. */
  lemma IgnoredNeverBuilt(env: Environment, b0: Batch, p0: seq<string>, image: string, dryRun: bool, debug: bool, k: string)
    requires k in RunIgnore(env, p0)
    ensures DockerBuild(k) !in ExecuteOutcome(env, b0, p0, image, dryRun, debug).events
  {
    var out := ExecuteOutcome(env, b0, p0, image, dryRun, debug);
    RunBuilt(env, b0, p0, image, dryRun, debug);
    BuiltImagesMembers(out.events, k);
    if Proceeds(env) && BuildOrder(RunLoaded(env, p0)).Ok? {
      BuildOrderPermutation(RunLoaded(env, p0));
      BuildOrderShape(RunLoaded(env, p0));
      LoadedSkipsIgnored(env.found, env.imagesDir, RunIgnore(env, p0));
    }
  }

  /**
   * With "all" every loaded descriptor ends up prepared, with the composer and
   * git instructions appended, in a dry run too; the keys are in build order.
   */
  lemma DescriptorsPrepared(env: Environment, b0: Batch, p0: seq<string>, dryRun: bool, debug: bool)
    requires Proceeds(env) && BuildOrder(RunLoaded(env, p0)).Ok?
    ensures var out, loaded := ExecuteOutcome(env, b0, p0, "all", dryRun, debug), RunLoaded(env, p0);
      && out.buildFiles.keys == BuildOrder(loaded).value.keys
      && out.buildFiles.files.Keys == loaded.files.Keys
      && forall k :: k in loaded.files ==> out.buildFiles.files[k] == Prepared(loaded.files[k], env.token, debug)
  {
    var read, sorted, checkout := RunShape(env, b0, p0, "all", dryRun, debug);
  }

  /** Every project step of a run comes before every build step. */
  lemma CheckoutBeforeBuild(env: Environment, b0: Batch, p0: seq<string>, image: string, dryRun: bool, debug: bool)
    ensures var events := ExecuteOutcome(env, b0, p0, image, dryRun, debug).events;
      forall i, j :: 0 <= i < j < |events| && IsBuildStep(events[i]) ==> !IsCheckoutStep(events[j])
  {
    if Proceeds(env) && BuildOrder(RunLoaded(env, p0)).Ok? {
      var read, sorted, checkout := RunShape(env, b0, p0, image, dryRun, debug);
      FinishOrder(read, sorted, checkout, RunIgnore(env, p0), image, dryRun, env.token, debug);
    } else {
      RunQuiet(env, b0, p0, image, dryRun, debug);
      var events := ExecuteOutcome(env, b0, p0, image, dryRun, debug).events;
      forall i | 0 <= i < |events|
        ensures !IsBuildStep(events[i])
      {
        assert events[i] in events;
      }
    }
  }
}
