# GitHub-to-Codeberg mirroring, modelled in Dafny

`scripts/mirror.py` copies a user's personal GitHub repositories to Codeberg.
A run goes through these steps:

1. It reads four required values from the environment.
2. It loads a blacklist of repository names from `blacklist.txt`.
3. It enumerates the user's repositories and drops those owned by another login (organisation repositories) and those on the blacklist.
4. It mirrors each remaining repository in turn. Mirroring one repository works like this:
   - If the Codeberg repository does not exist, it is created.
   - The GitHub repository is cloned in mirror mode and pushed with `git push --mirror`.
   - When a server hook declines pull-request refs, it falls back to `git push --all` and `git push --tags`.
   - A git error that shows pull-request refs were refused while a new branch or tag still arrived counts as success.
5. After mirroring, it exits with code 1 only when at least one repository was attempted and every attempted repository failed. Otherwise it ends normally, with code 0.

It also exits with code 1 in two earlier cases: a required variable is missing, or an exception escapes the set-up (for instance, a blacklist file that exists but cannot be read).

The Codeberg API answers HTTP 429 when rate-limited. The script then sleeps for `Retry-After` seconds (60 when the header is absent) and repeats the request.

The model is split into these modules:

- `Text` models the Python string operations the script relies on: `str.strip()` with no argument, with the exact set of characters `str.isspace()` accepts; `str.startswith`; and the substring test `sub in s`.
- `Blacklist` models `_load_blacklist`. `LoadBlacklist` is a loop method proved against the set function `NamesOf`.
- `Repositories` models `get_repositories_to_mirror`. `GetRepositoriesToMirror` is a loop method proved against `Candidates` and `OrgSkipped`. Lemmas cover order, exact membership, no repeats and the partition of the enumeration.
- `Codeberg` models the following:
  - the 429 retry of `_make_codeberg_request`, over the responses the server would give;
  - the status rules of `_repository_exists_on_codeberg` and `_create_codeberg_repository`;
  - the creation payload, including its description fallback.
- `Transfer` models `_mirror_repository`. What each external call answers is an input (`Attempt`). The model returns the outcome and the sequence of calls made, and follows the `try`/`except` flow, including the re-raise into the outer `GitCommandError` handler. It also covers the two git-error text rules: the fallback rule and the tolerated-error rule.
- `Run` models the following:
  - `RepositoryMirror.__init__`, as the configuration from the environment;
  - `run_mirroring`, as a loop method counting successes and failures, proved against `Successes`, plus the exit-code rule;
  - `main`, as `MirrorProcess`, which chains all of the above.

`RepositoryMirror` sets its fields once in `__init__` and never updates them. It is therefore a `Config` datatype rather than a class.

Two details of the code shape the model:

- The code keeps no count of blacklisted repositories; it only logs them (`scripts/mirror.py:187`). `BlacklistSkipped` exists only to state that every enumerated repository is accounted for once.
- An empty description falls back too, because the code uses Python's `or` (`scripts/mirror.py:95`). `Description` follows this.

## Model

| member | source | states |
|---|---|---|
| Text.StripIsStripped | scripts/mirror.py:59 | the result of `strip()` neither starts nor ends with a white-space character |
| Text.StripIsTrimmedSlice | scripts/mirror.py:59 | `strip()` keeps one contiguous slice of the line, and everything it removes on either side is white space |
| Text.StripIdempotent | scripts/mirror.py:59 | stripping a stripped name changes nothing |
| Blacklist.LoadBlacklist | scripts/mirror.py:53-65 | a missing file gives the empty blacklist; another read error gives no blacklist (the error propagates); otherwise the loop's set equals `NamesOf` of the file's lines |
| Blacklist.NamesOfSound | scripts/mirror.py:58-61 | every blacklisted name is the stripped text of a line of the file that is non-empty after stripping and not a `#` comment |
| Blacklist.NamesOfComplete | scripts/mirror.py:58-61 | the stripped text of every such line is in the blacklist |
| Blacklist.NamesAreNames | scripts/mirror.py:59-61 | every blacklisted name is non-empty, does not start with `#` and has no surrounding white space |
| Blacklist.IgnoredLinesAddNothing | scripts/mirror.py:59-60 | appending blank, white-space-only or comment lines leaves the blacklist unchanged |
| Blacklist.SecretRepoListed | scripts/mirror.py:57-61 | a file with the single line `secret-repo` and its newline yields exactly `{"secret-repo"}` |
| Repositories.Candidates | scripts/mirror.py:177-187 | the kept repositories are at most as many as those enumerated; each one was enumerated, is owned by the user and is not blacklisted |
| Repositories.OrgSkipped | scripts/mirror.py:179-182 | the organisation-skip count never exceeds the number enumerated |
| Repositories.GetRepositoriesToMirror | scripts/mirror.py:168-194 | an enumeration that raised yields no repositories; otherwise the loop returns exactly `Candidates` and counts exactly `OrgSkipped` |
| Repositories.CandidatesKeepOrder | scripts/mirror.py:177-185 | the kept repositories are a subsequence of the enumeration, in enumeration order |
| Repositories.CandidatesExactly | scripts/mirror.py:179-187 | a repository is kept if and only if it is enumerated, owned by the user and not blacklisted |
| Repositories.EveryRepositoryAccounted | scripts/mirror.py:177-187 | organisation-skipped + blacklisted + kept = number enumerated |
| Repositories.CandidatesDistinct | scripts/mirror.py:177-185 | an enumeration without repeats yields a candidate list without repeats |
| Repositories.NoOrgSkippedIffAllOwned | scripts/mirror.py:179-182 | the organisation-skip count is zero if and only if every enumerated repository is owned by the user |
| Repositories.OnlyPublicRepoKept | scripts/mirror.py:184-187 | with `secret-repo` blacklisted, of the user's `secret-repo` and `public-repo` only `public-repo` is kept |
| Codeberg.MakeRequest | scripts/mirror.py:75-84 | a settled response is never a 429; no response settles if and only if every given response is a 429 |
| Codeberg.MakeRequestSettlesOnFirst | scripts/mirror.py:78-84 | the settled response is the first non-429 one, and the time slept is the sum of the `Retry-After` delays before it (60 when absent) |
| Codeberg.RetryAfterFiveThenFound | scripts/mirror.py:78-82 | one 429 with `Retry-After: 5`, then a 200, settles on the 200 after sleeping 5 seconds |
| Codeberg.Description | scripts/mirror.py:95 | the description is never empty: the repository's own if it has a non-empty one, otherwise `Mirror of` followed by the full name |
| Codeberg.CreateRequest | scripts/mirror.py:93-98 | the payload copies name and visibility, disables auto-initialisation, and carries `Description`'s value: the repository's own non-empty description, or else `Mirror of` followed by the full name; it is never empty |
| Transfer.GitErrorHandled | scripts/mirror.py:155-163 | once the destination is ready, a git error that ends the clone-and-push block is handled in place: the repository is mirrored when the error is tolerated and failed otherwise. This covers an error from the clone, a mirror-push error re-raised without fallback, and an error from a fallback push. Tolerated means the text contains `refs/pull/`, contains `hook declined` or `remote rejected`, and contains `new branch` or `new tag`, in any order |
| Transfer.CloneAndPush | scripts/mirror.py:124-166 | the clone-and-push block never lets an exception escape; it first clones, and it keeps the calls made before it |
| Transfer.MirrorRepository | scripts/mirror.py:112-166 | the existence check always comes first; an exception escapes if and only if the existence check raised, or a creation request was made and it raised |
| Transfer.ExistingRepositoryNotCreated | scripts/mirror.py:119-121 | when the check answers 200 no creation request is made, and the creation answer cannot change the result |
| Transfer.ConflictMeansReady | scripts/mirror.py:105-107 | an absent repository whose creation answers 409 is cloned right after the creation request |
| Transfer.CreationRequestedIffAbsent | scripts/mirror.py:119-121 | a creation request is made if and only if the existence check (`_repository_exists_on_codeberg`, lines 86-89) settled on a status other than 200 |
| Transfer.CloneIffReady | scripts/mirror.py:100-124 | the clone happens if and only if the existence check settled on 200, or the creation request settled on 201 or 409 |
| Transfer.FailedCreationStops | scripts/mirror.py:119-121 | a creation answer other than 201 or 409 fails the repository with no clone |
| Transfer.FallbackOnlyAfterDeclinedPullRefs | scripts/mirror.py:138-150 | `push --all` happens if and only if the clone was made and went through and the mirror push failed with a git error mentioning `refs/pull/` and `hook declined`; `push --tags` only after `push --all` went through |
| Transfer.SucceededMeans | scripts/mirror.py:112-166 | a repository counts as mirrored if and only if the destination exists or was created, and then the mirror push succeeded, or the fallback pushes both succeeded, or the git error that ended the block is tolerated |
| Transfer.FallbackOnDeclinedPullRefs | scripts/mirror.py:142 | any error text with `refs/pull/` followed later by `hook declined` triggers the fallback |
| Transfer.ToleratedNeedsLetterW | scripts/mirror.py:159 | an error text without the letter `w` (hence without `new branch` or `new tag`) is never tolerated |
| Transfer.FallbackNeedsLetterK | scripts/mirror.py:142 | an error text without the letter `k` (hence without `hook declined`) never triggers the fallback |
| Transfer.DeclinedPullRefClassified | scripts/mirror.py:142-159 | git's report of a pre-receive hook declining `refs/pull/1/head` triggers the fallback but on its own is not tolerated |
| Transfer.FallbackPushesSucceed | scripts/mirror.py:138-153 | that error on the mirror push, followed by successful branch and tag pushes, mirrors the repository, and the calls are check, clone, mirror push, branch push, tag push |
| Transfer.ToleratedOnRejectedWithNewBranch | scripts/mirror.py:157-159 | any error text with `remote rejected`, then `refs/pull/`, then `new branch` is tolerated |
| Transfer.RejectedPullRefNewBranchClassified | scripts/mirror.py:142-161 | a rejected `refs/pull/7/head` reported with a new branch does not trigger the fallback but is tolerated |
| Transfer.RejectedPullRefReraisedAndTolerated | scripts/mirror.py:148-161 | that error on the mirror push is re-raised, then tolerated: the repository is mirrored with no fallback push, whatever the fallback pushes would have done |
| Run.LoadConfig | scripts/mirror.py:36-47 | a configuration exists if and only if both tokens and the Codeberg user name are set and non-empty, and `GITHUB_ACTOR` or `GH_USERNAME` is; the user name is `GITHUB_ACTOR` when that is non-empty, else `GH_USERNAME`; the other values are copied |
| Run.NoSuccessIffAllFail | scripts/mirror.py:209-221 | the success count is zero if and only if every attempted repository failed or raised |
| Run.ExitFromOutcomes | scripts/mirror.py:225-230 | from the per-repository outcomes, the exit code is 1 if and only if at least one repository was attempted and none was mirrored |
| Run.RunMirroring | scripts/mirror.py:196-230 | the loop counts exactly the successful outcomes; successes + failures = repositories attempted; exit code 1 if and only if the list is non-empty and no repository succeeded; an empty list exits with 0 |
| Run.MirrorProcess | scripts/mirror.py:233-243 | a missing value or an unreadable blacklist exits with 1 and attempts nothing; otherwise the attempted repositories are exactly the candidates, each owned by the user and not blacklisted, and the exit code is 1 if and only if some were attempted and none was mirrored; in every case the exit code is 0 or 1 |
| Run.TwoOfThreeSucceed | scripts/mirror.py:206-230 | for the outcomes success, success, failure, the loop's counts are 2 successful and 1 failed, and the exit code computed from those counts is 0 |

## Left out

- Network, HTTP and git I/O are inputs, not modelled behaviour. The model takes the status each request settled on, or that it raised (`HttpResult`). It takes, for each git step, whether it finished, raised a `GitCommandError` with a given text, or raised another exception (`GitStep`).
- URLs, headers, tokens in clone URLs, and the JSON encoding of the creation payload are not modelled.
- `Codeberg.MakeRequest`: the source retries a 429 without bound. The model reads a finite sequence of server answers, and `None` means they ran out while the server still answered 429. Python's recursion limit under endless 429s is therefore not modelled.
- `Codeberg.MakeRequest`: `Retry-After` is taken as an already parsed number of seconds. A value `int()` rejects (an HTTP date, say) or a negative one raises in the source, and that is not modelled.
- The `Transfer` inputs are the already settled answers of the existence and creation requests. The chain from `MakeRequest` into `MirrorRepository` is not stated as a lemma.
- `Transfer`: the mirror clone and adding the `codeberg` remote are one step (`Clone`), because both raise into the same handlers.
- `time.sleep` is not modelled: neither the 2-second pause between repositories nor the rate-limit wait. The rate-limit wait is modelled only as the number of seconds slept.
- Logging is left out entirely. This includes the log file, the messages, the blacklist size and skip counts shown in the log, and the missing-variable report.
- Creating and cleaning up the temporary directory is left out, and so is an exception raised by that step.
- `KeyboardInterrupt` is left out; the source handles it by exiting with 1.
- The blacklist file is given as its lines, or as missing or unreadable. Decoding the file and splitting it into lines are not modelled.
- Constructing the GitHub client and authenticating are left out. The enumeration is an input: the list of repositories, or `None` when it raised.
- Status codes of the git processes, and text encodings of error messages, are not modelled. An error's text is the string `str(e)` yields.
