/**
 * The instructions the docker-build command appends to every image
 * descriptor before it is built: the GitHub token, the composer installation
 * and clean-up (`addComposerInstallCommand`), and the git protocol rewrite
 * (`setDefaultGitProtocol`).
 */
module Injection {
  import opened Wrappers
  import opened PhpStrings
  import opened BuildFiles

  const ComposerPhar := "/usr/share/composer/composer.phar"

  /** The argument prefix of the run that stores the GitHub token in the git configuration. */
  const TokenPrefix := ["git", "config", "--global", "github.accesstoken"]

  /** Copies the OAuth file into the image. */
  const AuthAdd := Add("auth.json", "/root/.composer/auth.json")

  /** Copies the composer executable into the image. */
  const PharAdd := Add("composer.phar", ComposerPhar)

  /** Removes the composer executable and the credentials again. */
  const CleanupArgs := ["rm", "-rf", ComposerPhar, "/root/.composer", "/root/.gitconfig"]

  /** Makes git fetch GitHub repositories over https instead of the git protocol. */
  const GitProtocolArgs := ["git", "config", "--global", "url.https://github.com/.insteadOf", "git://github.com/"]

  /** A token is used when the auth file yields one that PHP considers true. */
  predicate HasToken(token: Option<string>)
  {
    token.Some? && Truthy(token.value)
  }

  /** The composer command line that installs the dependencies of one directory. */
  function InstallArgs(dir: string, debug: bool): seq<string>
  {
    ["php", ComposerPhar, "--no-interaction", "--no-dev", "--working-dir=" + dir]
      + (if debug then ["-vvv"] else []) + ["install"]
  }

  /** One install run per directory, in the order of the directories. */
  function InstallRuns(dirs: seq<string>, debug: bool): (r: seq<Instruction>)
    ensures |r| == |dirs|
    ensures forall i :: 0 <= i < |dirs| ==> r[i] == Run(InstallArgs(dirs[i], debug))
  {
    if dirs == [] then []
    else InstallRuns(dirs[..|dirs| - 1], debug) + [Run(InstallArgs(dirs[|dirs| - 1], debug))]
  }

  function TokenPart(token: Option<string>): seq<Instruction>
  {
    if HasToken(token) then [Run(TokenPrefix + [token.value])] else []
  }

  /** Everything `addComposerInstallCommand` appends for the given install directories. */
  function Injected(dirs: seq<string>, token: Option<string>, debug: bool): seq<Instruction>
  {
    TokenPart(token) + ComposerPart(dirs, debug)
  }

  /** `addComposerInstallCommand` followed by `setDefaultGitProtocol`, as `build` applies them. */
  function Prepared(d: Descriptor, token: Option<string>, debug: bool): (r: Descriptor)
    ensures r.from == d.from && r.assets == d.assets && r.projects == d.projects
    ensures r.composerInstallDirs == d.composerInstallDirs
    ensures |r.instructions| > |d.instructions|
    ensures r.instructions[..|d.instructions|] == d.instructions
  {
    d.(instructions := d.instructions + Injected(d.composerInstallDirs, token, debug) + [Run(GitProtocolArgs)])
  }

  // ---------------------------------------------------------------------------
  // Counting runs by their leading arguments

  predicate StartsWith(args: seq<string>, prefix: seq<string>)
  {
    |prefix| <= |args| && args[..|prefix|] == prefix
  }

  /** The number of runs in `s` whose arguments start with `prefix`. */
  function CountRuns(s: seq<Instruction>, prefix: seq<string>): (n: nat)
    ensures n <= |s|
  {
    if s == [] then 0
    else
      var last := s[|s| - 1];
      CountRuns(s[..|s| - 1], prefix) + (if last.Run? && StartsWith(last.args, prefix) then 1 else 0)
  }

  lemma {:induction false} CountRunsAppend(s: seq<Instruction>, t: seq<Instruction>, prefix: seq<string>)
    ensures CountRuns(s + t, prefix) == CountRuns(s, prefix) + CountRuns(t, prefix)
    decreases |t|
  {
    if t == [] {
      assert s + t == s;
    } else {
      var t' := t[..|t| - 1];
      assert (s + t)[..|s + t| - 1] == s + t';
      assert (s + t)[|s + t| - 1] == t[|t| - 1];
      CountRunsAppend(s, t', prefix);
    }
  }

  lemma CountRunsOne(x: Instruction, prefix: seq<string>)
    ensures CountRuns([x], prefix) == if x.Run? && StartsWith(x.args, prefix) then 1 else 0
  {
    assert [x][..0] == [];
  }

  /** Arguments that differ from `prefix` at some position inside it do not start with it. */
  lemma DiffersAt(args: seq<string>, prefix: seq<string>, j: nat)
    requires j < |prefix| && (j >= |args| || args[j] != prefix[j])
    ensures !StartsWith(args, prefix)
  {
    if |prefix| <= |args| {
      assert args[..|prefix|][j] == args[j];
    }
  }

  /** A sequence none of whose runs starts with `prefix` counts zero. */
  lemma {:induction false} CountRunsZero(s: seq<Instruction>, prefix: seq<string>)
    requires forall i :: 0 <= i < |s| && s[i].Run? ==> !StartsWith(s[i].args, prefix)
    ensures CountRuns(s, prefix) == 0
    decreases |s|
  {
    if s != [] {
      CountRunsZero(s[..|s| - 1], prefix);
    }
  }

  // ---------------------------------------------------------------------------
  // Properties of the injected sequence

  /** No install run starts with a prefix whose first argument is not "php". */
  lemma InstallRunsSkip(dirs: seq<string>, debug: bool, prefix: seq<string>)
    requires prefix != [] && prefix[0] != "php"
    ensures CountRuns(InstallRuns(dirs, debug), prefix) == 0
  {
    var runs := InstallRuns(dirs, debug);
    forall i | 0 <= i < |runs| && runs[i].Run?
      ensures !StartsWith(runs[i].args, prefix)
    {
      assert runs[i].args[0] == "php";
      DiffersAt(runs[i].args, prefix, 0);
    }
    CountRunsZero(runs, prefix);
  }

  /** The part after the token run: the copies, the install runs and the clean-up. */
  function ComposerPart(dirs: seq<string>, debug: bool): seq<Instruction>
  {
    if dirs == [] then [] else [AuthAdd, PharAdd] + InstallRuns(dirs, debug) + [Run(CleanupArgs)]
  }

  lemma ComposerPartCount(dirs: seq<string>, debug: bool, prefix: seq<string>)
    requires prefix != [] && prefix[0] != "php"
    ensures CountRuns(ComposerPart(dirs, debug), prefix)
         == if dirs != [] && StartsWith(CleanupArgs, prefix) then 1 else 0
  {
    if dirs != [] {
      var adds: seq<Instruction> := [AuthAdd, PharAdd];
      CountRunsZero(adds, prefix);
      InstallRunsSkip(dirs, debug, prefix);
      CountRunsOne(Run(CleanupArgs), prefix);
      CountRunsAppend(adds, InstallRuns(dirs, debug), prefix);
      CountRunsAppend(adds + InstallRuns(dirs, debug), [Run(CleanupArgs)], prefix);
    }
  }

  /** With a token, exactly one run stores it; without one, none does. */
  lemma TokenRunCount(dirs: seq<string>, token: Option<string>, debug: bool)
    ensures CountRuns(Injected(dirs, token, debug), TokenPrefix) == if HasToken(token) then 1 else 0
  {
    CountRunsAppend(TokenPart(token), ComposerPart(dirs, debug), TokenPrefix);
    ComposerPartCount(dirs, debug, TokenPrefix);
    DiffersAt(CleanupArgs, TokenPrefix, 0);
    if HasToken(token) {
      var x := Run(TokenPrefix + [token.value]);
      CountRunsOne(x, TokenPrefix);
      assert (TokenPrefix + [token.value])[..|TokenPrefix|] == TokenPrefix;
    }
  }

  /** Without install directories only the token run, if any, is appended. */
  lemma NoDirsOnlyToken(token: Option<string>, debug: bool)
    ensures Injected([], token, debug) == TokenPart(token)
    ensures |Injected([], token, debug)| <= 1
  {
  }

  /**
   * With install directories: after the token run come the two copies, then
   * one install run per directory in order, then the clean-up run last.
   */
  lemma InjectedLayout(dirs: seq<string>, token: Option<string>, debug: bool)
    requires dirs != []
    ensures var r, t := Injected(dirs, token, debug), |TokenPart(token)|;
      && |r| == t + |dirs| + 3
      && r[t] == AuthAdd && r[t + 1] == PharAdd
      && (forall i :: 0 <= i < |dirs| ==> r[t + 2 + i] == Run(InstallArgs(dirs[i], debug)))
      && r[|r| - 1] == Run(CleanupArgs)
  {
    var tp, runs := TokenPart(token), InstallRuns(dirs, debug);
    var r := Injected(dirs, token, debug);
    var t := |tp|;
    assert r == tp + ([AuthAdd, PharAdd] + runs + [Run(CleanupArgs)]);
    assert r[t] == AuthAdd && r[t + 1] == PharAdd;
    forall i | 0 <= i < |dirs|
      ensures r[t + 2 + i] == Run(InstallArgs(dirs[i], debug))
    {
      assert r[t + 2 + i] == runs[i];
    }
  }

  /** With install directories exactly one clean-up run is appended, and none without. */
  lemma CleanupRunCount(dirs: seq<string>, token: Option<string>, debug: bool)
    ensures CountRuns(Injected(dirs, token, debug), ["rm", "-rf"]) == if dirs == [] then 0 else 1
  {
    var rm := ["rm", "-rf"];
    CountRunsAppend(TokenPart(token), ComposerPart(dirs, debug), rm);
    ComposerPartCount(dirs, debug, rm);
    assert StartsWith(CleanupArgs, rm);
    if HasToken(token) {
      CountRunsOne(Run(TokenPrefix + [token.value]), rm);
      DiffersAt(TokenPrefix + [token.value], rm, 0);
    }
  }

  /** With install directories there is one install run per directory, and none without. */
  lemma InstallRunCount(dirs: seq<string>, token: Option<string>, debug: bool)
    ensures CountRuns(Injected(dirs, token, debug), ["php", ComposerPhar]) == |dirs|
  {
    var php := ["php", ComposerPhar];
    CountRunsAppend(TokenPart(token), ComposerPart(dirs, debug), php);
    if HasToken(token) {
      CountRunsOne(Run(TokenPrefix + [token.value]), php);
      DiffersAt(TokenPrefix + [token.value], php, 0);
    }
    if dirs != [] {
      var adds: seq<Instruction> := [AuthAdd, PharAdd];
      var runs := InstallRuns(dirs, debug);
      CountRunsZero(adds, php);
      InstallRunsCount(dirs, debug);
      CountRunsOne(Run(CleanupArgs), php);
      DiffersAt(CleanupArgs, php, 0);
      CountRunsAppend(adds, runs, php);
      CountRunsAppend(adds + runs, [Run(CleanupArgs)], php);
    }
  }

  lemma {:induction false} InstallRunsCount(dirs: seq<string>, debug: bool)
    ensures CountRuns(InstallRuns(dirs, debug), ["php", ComposerPhar]) == |dirs|
    decreases |dirs|
  {
    if dirs != [] {
      var init := dirs[..|dirs| - 1];
      InstallRunsCount(init, debug);
      var a := InstallArgs(dirs[|dirs| - 1], debug);
      assert a[..2] == ["php", ComposerPhar];
      CountRunsAppend(InstallRuns(init, debug), [Run(a)], ["php", ComposerPhar]);
      CountRunsOne(Run(a), ["php", ComposerPhar]);
    }
  }

  /**
   * Every install run names its directory, asks for verbose output exactly
   * in debug mode and ends with the `install` sub-command.
   */
  lemma InstallArgsShape(dir: string, debug: bool)
    ensures var a := InstallArgs(dir, debug);
      && a[..2] == ["php", ComposerPhar]
      && "--working-dir=" + dir in a
      && a[|a| - 1] == "install"
      && ("-vvv" in a <==> debug)
  {
    var a := InstallArgs(dir, debug);
    assert a[4] == "--working-dir=" + dir;
    if !debug {
      assert ("--working-dir=" + dir)[1] == '-';
      assert a == ["php", ComposerPhar, "--no-interaction", "--no-dev", "--working-dir=" + dir, "install"];
      assert "-vvv"[1] == 'v';
      assert "-vvv" != "--no-interaction" && "-vvv" != "--no-dev" && "-vvv" != "install";
      assert "-vvv" != ComposerPhar && "-vvv" != "php";
    }
  }

  /** `setDefaultGitProtocol` contributes exactly one git-protocol run after the composer part. */
  lemma PreparedLayout(d: Descriptor, token: Option<string>, debug: bool)
    ensures var r := Prepared(d, token, debug);
      CountRuns(r.instructions, GitProtocolArgs) == CountRuns(d.instructions, GitProtocolArgs) + 1
  {
    var dirs := d.composerInstallDirs;
    var inj := Injected(dirs, token, debug);
    CountRunsAppend(TokenPart(token), ComposerPart(dirs, debug), GitProtocolArgs);
    ComposerPartCount(dirs, debug, GitProtocolArgs);
    DiffersAt(CleanupArgs, GitProtocolArgs, 0);
    if HasToken(token) {
      CountRunsOne(Run(TokenPrefix + [token.value]), GitProtocolArgs);
      assert "github.accesstoken"[0] != "url.https://github.com/.insteadOf"[0];
      DiffersAt(TokenPrefix + [token.value], GitProtocolArgs, 3);
    }
    CountRunsOne(Run(GitProtocolArgs), GitProtocolArgs);
    assert StartsWith(GitProtocolArgs, GitProtocolArgs);
    CountRunsAppend(d.instructions, inj, GitProtocolArgs);
    CountRunsAppend(d.instructions + inj, [Run(GitProtocolArgs)], GitProtocolArgs);
  }
}
