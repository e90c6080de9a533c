/**
 * The run as a whole (`RepositoryMirror.__init__`, `run_mirroring` and
 * `main`): read the configuration, load the blacklist, choose the
 * repositories, mirror them one after the other and decide the exit code.
 */
module Run {
  import opened Wrappers
  import opened Blacklist
  import opened Repositories
  import opened Transfer

  /** The environment variables the script reads; `None` when unset. */
  datatype Environment = Environment(
    githubToken: Option<string>,       // GITHUB_TOKEN
    codebergToken: Option<string>,     // CODEBERG_TOKEN
    githubActor: Option<string>,       // GITHUB_ACTOR
    ghUsername: Option<string>,        // GH_USERNAME
    codebergUsername: Option<string>)  // CODEBERG_USERNAME

  /** Python truthiness of an environment value: set and not empty. */
  predicate Truthy(v: Option<string>) {
    v.Some? && v.value != ""
  }

  /** The configuration the rest of the run works with. */
  datatype Config = Config(githubToken: string, codebergToken: string,
                           githubUsername: string, codebergUsername: string)

  /**
   * Reads the four required values; the GitHub user name is `GITHUB_ACTOR`,
   * or `GH_USERNAME` when that one is unset or empty.  `None` when any of
   * them is missing, which ends the run with exit code 1.
   */
  function LoadConfig(env: Environment): (c: Option<Config>)
    ensures c.Some? <==> Truthy(env.githubToken) && Truthy(env.codebergToken)
                         && (Truthy(env.githubActor) || Truthy(env.ghUsername))
                         && Truthy(env.codebergUsername)
    ensures c.Some? && Truthy(env.githubActor) ==> c.value.githubUsername == env.githubActor.value
    ensures c.Some? && !Truthy(env.githubActor) ==> c.value.githubUsername == env.ghUsername.value
    ensures c.Some? ==> c.value.githubToken == env.githubToken.value
                        && c.value.codebergToken == env.codebergToken.value
                        && c.value.codebergUsername == env.codebergUsername.value
  {
    var user := if Truthy(env.githubActor) then env.githubActor else env.ghUsername;
    if Truthy(env.githubToken) && Truthy(env.codebergToken) && Truthy(user) && Truthy(env.codebergUsername) then
      Some(Config(env.githubToken.value, env.codebergToken.value, user.value, env.codebergUsername.value))
    else None
  }

  /** How mirroring `r` ends when the outside world answers as `world` says. */
  function MirrorWith(world: Repo -> Attempt): Repo -> Outcome {
    r => MirrorRepository(world(r)).outcome
  }

  /** The outcome of mirroring each of `repos` in turn. */
  function OutcomesOf(repos: seq<Repo>, mirror: Repo -> Outcome): (outs: seq<Outcome>)
    ensures |outs| == |repos|
  {
    seq(|repos|, i requires 0 <= i < |repos| => mirror(repos[i]))
  }

  /** The number of successful outcomes. */
  function Successes(outs: seq<Outcome>): (n: nat)
    ensures n <= |outs|
    decreases |outs|
  {
    if outs == [] then 0
    else Successes(outs[..|outs| - 1]) + (if outs[|outs| - 1] == Succeeded then 1 else 0)
  }

  /** No repository succeeds exactly when every one of them fails or raises. */
  lemma {:induction false} NoSuccessIffAllFail(outs: seq<Outcome>)
    ensures Successes(outs) == 0 <==> forall i :: 0 <= i < |outs| ==> outs[i] != Succeeded
    decreases |outs|
  {
    if outs != [] {
      var n := |outs| - 1;
      NoSuccessIffAllFail(outs[..n]);
      assert forall i :: 0 <= i < n ==> outs[..n][i] == outs[i];
    }
  }

  /** The exit code: 1 only when nothing succeeded and something failed. */
  function ExitCode(successful: nat, failed: nat): int {
    if successful == 0 && failed > 0 then 1 else 0
  }

  /**
   * `run_mirroring`: mirrors the repositories in order with `mirror` (which
   * stands for `_mirror_repository`), counting successes and failures (an
   * escaped exception counts as a failure), and exits with 1 only when every
   * attempted repository failed.  An empty list ends the run at once with
   * exit code 0.
   */
  method RunMirroring(repos: seq<Repo>, mirror: Repo -> Outcome)
    returns (successful: nat, failed: nat, exitCode: int)
    ensures successful == Successes(OutcomesOf(repos, mirror))
    ensures successful + failed == |repos|
    ensures exitCode == 1 <==> repos != [] && forall i :: 0 <= i < |repos| ==> mirror(repos[i]) != Succeeded
    ensures exitCode == 0 || exitCode == 1
  {
    successful, failed, exitCode := 0, 0, 0;
    if repos == [] {
      return;
    }
    ghost var outs := OutcomesOf(repos, mirror);
    var i := 0;
    while i < |repos|
      invariant 0 <= i <= |repos|
      invariant successful == Successes(outs[..i])
      invariant successful + failed == i
    {
      var outcome := mirror(repos[i]);
      if outcome == Succeeded {
        successful := successful + 1;
      } else {
        failed := failed + 1;
      }
      assert outs[..i + 1][..i] == outs[..i] && outs[i] == outcome;
      i := i + 1;
    }
    assert outs[..i] == outs;
    assert forall k :: 0 <= k < |repos| ==> outs[k] == mirror(repos[k]);
    NoSuccessIffAllFail(outs);
    exitCode := ExitCode(successful, failed);
  }

  /** The blacklist a readable (or missing) file yields. */
  function FileNames(file: BlacklistFile): set<string> {
    if file.Lines? then NamesOf(file.lines) else {}
  }

  /**
   * The whole run: configuration, blacklist, enumeration (`None` when it
   * raised), then mirroring.  Returns the exit code and the repositories
   * attempted, in order.  A missing variable or an unreadable blacklist
   * ends the run with exit code 1 before anything is attempted.
   */
  method MirrorProcess(env: Environment, file: BlacklistFile, listing: Option<seq<Repo>>, world: Repo -> Attempt)
    returns (exitCode: int, attempted: seq<Repo>)
    ensures LoadConfig(env).None? || file.Unreadable? ==> exitCode == 1 && attempted == []
    ensures LoadConfig(env).Some? && !file.Unreadable? ==>
              attempted == Candidates(listing.GetOr([]), LoadConfig(env).value.githubUsername, FileNames(file))
    ensures LoadConfig(env).Some? && !file.Unreadable? ==>
              (exitCode == 1 <==> attempted != [] && forall i :: 0 <= i < |attempted| ==> MirrorRepository(world(attempted[i])).outcome != Succeeded)
    ensures exitCode == 0 || exitCode == 1
    ensures forall r :: r in attempted ==>
              LoadConfig(env).Some? && r.ownerLogin == LoadConfig(env).value.githubUsername && r.name !in FileNames(file)
  {
    var config := LoadConfig(env);
    if config.None? {
      return 1, [];
    }
    var blacklist := LoadBlacklist(file);
    if blacklist.None? {
      return 1, [];
    }
    var orgSkipped;
    attempted, orgSkipped := GetRepositoriesToMirror(listing, config.value.githubUsername, blacklist.value);
    var successful, failed;
    successful, failed, exitCode := RunMirroring(attempted, MirrorWith(world));
  }

  /** Three repositories, two mirrored and one failing: counts 2 and 1, exit code 0. */
  lemma TwoOfThreeSucceed(outs: seq<Outcome>)
    requires outs == [Succeeded, Succeeded, Failed]
    ensures Successes(outs) == 2 && |outs| - Successes(outs) == 1
    ensures ExitCode(Successes(outs), |outs| - Successes(outs)) == 0
  {
    assert outs[..2] == [Succeeded, Succeeded];
    assert outs[..2][..1] == [Succeeded];
    assert outs[..2][..1][..0] == [];
  }

  /**
   * The exit code after mirroring: 1 exactly when something was attempted
   * and no repository was mirrored.
   */
  lemma ExitFromOutcomes(outs: seq<Outcome>)
    ensures ExitCode(Successes(outs), |outs| - Successes(outs)) == 1
            <==> outs != [] && forall i :: 0 <= i < |outs| ==> outs[i] != Succeeded
  {
    NoSuccessIffAllFail(outs);
  }
}
