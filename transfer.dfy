/**
 * Mirroring one repository (`_mirror_repository`): make sure the
 * destination repository exists, clone the source in mirror mode and push
 * it, falling back to separate branch and tag pushes when only pull-request
 * refs are refused, and deciding from the text of a git error whether the
 * transfer still counts as done.  What each external step returned is an
 * input; the model follows the order of the calls and the exception flow.
 */
module Transfer {
  import opened Wrappers
  import opened Text
  import opened Codeberg

  /** An HTTP request to the destination: it settled on a status, or it raised. */
  datatype HttpResult = Status(code: int) | RequestRaised

  /** A git step: it finished, raised a git command error with this text, or raised another exception. */
  datatype GitStep = Done | GitError(text: string) | OtherError

  /** Everything the outside world answers while one repository is mirrored. */
  datatype Attempt = Attempt(
    lookup: HttpResult,    // existence check
    creation: HttpResult,  // creation request, issued only when the check says absent
    clone: GitStep,        // mirror clone and adding the destination remote
    pushMirror: GitStep,   // `git push --mirror`
    pushAll: GitStep,      // `git push --all`, only in the fallback
    pushTags: GitStep)     // `git push --tags`, only in the fallback

  /** The external calls made, in order. */
  datatype Call = CheckExists | CreateRepository | Clone | PushMirror | PushAll | PushTags

  /** How mirroring one repository ended: done, failed (returned False), or an exception escaped. */
  datatype Outcome = Succeeded | Failed | Raised

  datatype Report = Report(outcome: Outcome, calls: seq<Call>)

  /**
   * A failed mirror push is retried as separate branch and tag pushes only
   * when a server hook declined pull-request refs.
   */
  predicate FallbackApplies(error: string) {
    Contains(error, "refs/pull/") && Contains(error, "hook declined")
  }

  /**
   * A caught git error still counts as a successful transfer when
   * pull-request refs were declined or rejected and the error shows that a
   * new branch or tag did arrive.
   */
  predicate ToleratedError(error: string) {
    && Contains(error, "refs/pull/")
    && (Contains(error, "hook declined") || Contains(error, "remote rejected"))
    && (Contains(error, "new branch") || Contains(error, "new tag"))
  }

  /** The handler for a git command error: tolerated or failed. */
  function CaughtGitError(error: string): Outcome {
    if ToleratedError(error) then Succeeded else Failed
  }

  /** The outcome of a git step that raised, once the handlers of the clone-and-push block have run. */
  function Handled(step: GitStep): Outcome
    requires !step.Done?
  {
    match step
    case GitError(text) => CaughtGitError(text)
    case OtherError => Failed
  }

  /** The clone-and-push block, after the destination is known to exist; `before` are the calls already made. */
  function CloneAndPush(a: Attempt, before: seq<Call>): (r: Report)
    ensures r.outcome != Raised
    ensures |r.calls| > |before| && r.calls[..|before|] == before && r.calls[|before|] == Clone
  {
    if !a.clone.Done? then Report(Handled(a.clone), before + [Clone])
    else if a.pushMirror.Done? then Report(Succeeded, before + [Clone, PushMirror])
    else if a.pushMirror.GitError? && FallbackApplies(a.pushMirror.text) then
      if !a.pushAll.Done? then Report(Handled(a.pushAll), before + [Clone, PushMirror, PushAll])
      else if !a.pushTags.Done? then Report(Handled(a.pushTags), before + [Clone, PushMirror, PushAll, PushTags])
      else Report(Succeeded, before + [Clone, PushMirror, PushAll, PushTags])
    else
      // any other push error is re-raised into the same handlers
      Report(Handled(a.pushMirror), before + [Clone, PushMirror])
  }

  /** `_mirror_repository`, with the answers of the outside world given by `a`. */
  function MirrorRepository(a: Attempt): (r: Report)
    ensures |r.calls| > 0 && r.calls[0] == CheckExists
    ensures r.outcome == Raised <==> a.lookup.RequestRaised? || (CreateRepository in r.calls && a.creation.RequestRaised?)
  {
    match a.lookup
    case RequestRaised => Report(Raised, [CheckExists])
    case Status(found) =>
      if RepositoryExists(found) then CloneAndPush(a, [CheckExists])
      else
        match a.creation
        case RequestRaised => Report(Raised, [CheckExists, CreateRepository])
        case Status(created) =>
          if CreateSucceeded(created) then CloneAndPush(a, [CheckExists, CreateRepository])
          else Report(Failed, [CheckExists, CreateRepository])
  }

  /**
   * When the existence check answers 200, no creation request is issued and
   * what the creation request would have answered makes no difference.
   */
  lemma ExistingRepositoryNotCreated(a: Attempt, creation: HttpResult)
    requires a.lookup == Status(200)
    ensures CreateRepository !in MirrorRepository(a).calls
    ensures MirrorRepository(a.(creation := creation)) == MirrorRepository(a)
  {
  }

  /**
   * When the repository is absent and the creation request answers 409, the
   * repository is treated as ready: the clone goes ahead.
   */
  lemma ConflictMeansReady(a: Attempt)
    requires a.lookup.Status? && a.lookup.code != 200
    requires a.creation == Status(409)
    ensures MirrorRepository(a).calls[..3] == [CheckExists, CreateRepository, Clone]
  {
  }

  /**
   * A creation request is issued exactly when the existence check settled on
   * a status other than 200.
   */
  lemma CreationRequestedIffAbsent(a: Attempt)
    ensures CreateRepository in MirrorRepository(a).calls <==> a.lookup.Status? && !RepositoryExists(a.lookup.code)
  {
  }

  /**
   * The clone happens exactly when the destination is ready: it exists
   * (200), or the creation request answered 201 or 409.
   */
  lemma CloneIffReady(a: Attempt)
    ensures Clone in MirrorRepository(a).calls <==>
              a.lookup.Status? && (RepositoryExists(a.lookup.code) || (a.creation.Status? && CreateSucceeded(a.creation.code)))
  {
  }

  /** A failed creation request ends the attempt as failed before anything is cloned. */
  lemma FailedCreationStops(a: Attempt)
    requires a.lookup.Status? && a.lookup.code != 200
    requires a.creation.Status? && !CreateSucceeded(a.creation.code)
    ensures MirrorRepository(a) == Report(Failed, [CheckExists, CreateRepository])
  {
  }

  /**
   * The branch and tag pushes happen exactly after a clone that went through
   * and a mirror push that failed with declined pull-request refs, and the
   * tag push only after the branch push went through.
   */
  lemma FallbackOnlyAfterDeclinedPullRefs(a: Attempt)
    ensures PushAll in MirrorRepository(a).calls <==>
              Clone in MirrorRepository(a).calls && a.clone.Done? && a.pushMirror.GitError? && FallbackApplies(a.pushMirror.text)
    ensures PushTags in MirrorRepository(a).calls ==> PushAll in MirrorRepository(a).calls && a.pushAll.Done?
  {
  }

  /**
   * A successful mirror is one where every call made went through, or where
   * the git error that ended it is tolerated.
   */
  lemma SucceededMeans(a: Attempt)
    ensures MirrorRepository(a).outcome == Succeeded <==>
      && a.lookup.Status?
      && (RepositoryExists(a.lookup.code) || (a.creation.Status? && CreateSucceeded(a.creation.code)))
      && (|| (a.clone.Done? && a.pushMirror.Done?)
          || (a.clone.Done? && a.pushMirror.GitError? && FallbackApplies(a.pushMirror.text)
              && a.pushAll.Done? && a.pushTags.Done?)
          || (LastGitError(a).Some? && ToleratedError(LastGitError(a).value)))
  {
  }

  /** The git error that ended the clone-and-push block, if one did. */
  function LastGitError(a: Attempt): Option<string> {
    if a.clone.GitError? then Some(a.clone.text)
    else if !a.clone.Done? || a.pushMirror.Done? || a.pushMirror.OtherError? then None
    else if !FallbackApplies(a.pushMirror.text) then Some(a.pushMirror.text)
    else if a.pushAll.GitError? then Some(a.pushAll.text)
    else if !a.pushAll.Done? || !a.pushTags.GitError? then None
    else Some(a.pushTags.text)
  }

  /**
   * Once the destination is ready, a git error that ends the clone-and-push
   * block (from the clone, a mirror push re-raised without fallback, or a
   * fallback push) reaches the outer handler: the repository counts as
   * mirrored exactly when that error is tolerated, and as failed otherwise.
   */
  lemma GitErrorHandled(a: Attempt, text: string)
    requires a.lookup.Status?
    requires RepositoryExists(a.lookup.code) || (a.creation.Status? && CreateSucceeded(a.creation.code))
    requires LastGitError(a) == Some(text)
    ensures ToleratedError(text) ==> MirrorRepository(a).outcome == Succeeded
    ensures !ToleratedError(text) ==> MirrorRepository(a).outcome == Failed
  {
  }

  /** An error that mentions pull-request refs and, after them, a declining hook triggers the fallback. */
  lemma FallbackOnDeclinedPullRefs(a: string, b: string, c: string)
    ensures FallbackApplies(a + "refs/pull/" + b + "hook declined" + c)
  {
    ContainsInfix(a, "refs/pull/", b);
    ContainsExtendRight(a + "refs/pull/" + b, "hook declined", "refs/pull/");
    ContainsExtendRight(a + "refs/pull/" + b + "hook declined", c, "refs/pull/");
    ContainsInfix(a + "refs/pull/" + b, "hook declined", c);
  }

  /** An error without the letter `w` names no new branch or tag, so it is never tolerated. */
  lemma ToleratedNeedsLetterW(error: string)
    requires 'w' !in error
    ensures !ToleratedError(error)
  {
    assert "new branch"[2] == 'w' && "new tag"[2] == 'w';
    MissingCharExcludes(error, "new branch", 'w');
    MissingCharExcludes(error, "new tag", 'w');
  }

  /** A push error where a pre-receive hook declined a pull-request ref, as git reports it. */
  const DeclinedPullRef := "! [remote rejected] " + "refs/pull/" + "1/head (pre-receive " + "hook declined" + ")"

  /**
   * A declined pull-request ref triggers the fallback, but the error alone is
   * not tolerated: it shows no new branch or tag.
   */
  lemma DeclinedPullRefClassified()
    ensures FallbackApplies(DeclinedPullRef)
    ensures !ToleratedError(DeclinedPullRef)
  {
    FallbackOnDeclinedPullRefs("! [remote rejected] ", "1/head (pre-receive ", ")");
    ToleratedNeedsLetterW(DeclinedPullRef);
  }

  /**
   * The mirror push fails on a declined pull-request ref, then the branch
   * and tag pushes go through: the repository is mirrored.
   */
  lemma FallbackPushesSucceed(creation: HttpResult)
    ensures MirrorRepository(Attempt(Status(200), creation, Done, GitError(DeclinedPullRef), Done, Done))
            == Report(Succeeded, [CheckExists, Clone, PushMirror, PushAll, PushTags])
  {
    DeclinedPullRefClassified();
  }

  /** An error naming a rejected ref, then pull-request refs, then a new branch is tolerated. */
  lemma ToleratedOnRejectedWithNewBranch(a: string, b: string, c: string, d: string)
    ensures ToleratedError(a + "remote rejected" + b + "refs/pull/" + c + "new branch" + d)
  {
    var x1 := a + "remote rejected" + b;
    var x2 := x1 + "refs/pull/" + c;
    ContainsInfix(a, "remote rejected", b);
    ContainsExtendRight(x1, "refs/pull/", "remote rejected");
    ContainsExtendRight(x1 + "refs/pull/", c, "remote rejected");
    ContainsExtendRight(x2, "new branch", "remote rejected");
    ContainsExtendRight(x2 + "new branch", d, "remote rejected");
    ContainsInfix(x1, "refs/pull/", c);
    ContainsExtendRight(x2, "new branch", "refs/pull/");
    ContainsExtendRight(x2 + "new branch", d, "refs/pull/");
    ContainsInfix(x2, "new branch", d);
  }

  /** An error without the letter `k` has no hook message, so it never triggers the fallback. */
  lemma FallbackNeedsLetterK(error: string)
    requires 'k' !in error
    ensures !FallbackApplies(error)
  {
    assert "hook declined"[3] == 'k';
    MissingCharExcludes(error, "hook declined", 'k');
  }

  /** A pull-request ref rejected without a hook message, while a new branch arrived. */
  const RejectedPullRefNewBranch := "! [" + "remote rejected" + "] " + "refs/pull/" + "7/head * [" + "new branch" + "] main"

  /** Such an error does not trigger the fallback, but it is tolerated: a new branch did arrive. */
  lemma RejectedPullRefNewBranchClassified()
    ensures !FallbackApplies(RejectedPullRefNewBranch)
    ensures ToleratedError(RejectedPullRefNewBranch)
  {
    ToleratedOnRejectedWithNewBranch("! [", "] ", "7/head * [", "] main");
    FallbackNeedsLetterK(RejectedPullRefNewBranch);
  }

  /**
   * The mirror push fails with that error: no fallback is tried, the error is
   * re-raised and then tolerated, and the repository counts as mirrored.
   */
  lemma RejectedPullRefReraisedAndTolerated(creation: HttpResult, pushAll: GitStep, pushTags: GitStep)
    ensures MirrorRepository(Attempt(Status(200), creation, Done, GitError(RejectedPullRefNewBranch), pushAll, pushTags))
            == Report(Succeeded, [CheckExists, Clone, PushMirror])
  {
    RejectedPullRefNewBranchClassified();
  }
}
