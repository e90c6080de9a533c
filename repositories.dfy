/**
 * Choosing the repositories to mirror from the list the source host
 * enumerates for the authenticated user: repositories owned by another
 * login (organisation repositories) are skipped and counted, then
 * blacklisted names are skipped.
 */
module Repositories {
  import opened Wrappers

  /** A repository as the source host describes it. */
  datatype Repo = Repo(name: string, fullName: string, ownerLogin: string,
                       description: Option<string>, private: bool)

  /** The repository belongs to the user rather than to an organisation. */
  predicate Owned(r: Repo, user: string) {
    r.ownerLogin == user
  }

  /** The repository passes both filters. */
  predicate Wanted(r: Repo, user: string, blacklist: set<string>) {
    Owned(r, user) && r.name !in blacklist
  }

  /** The repositories kept, in enumeration order. */
  function Candidates(repos: seq<Repo>, user: string, blacklist: set<string>): (kept: seq<Repo>)
    ensures |kept| <= |repos|
    ensures forall r :: r in kept ==> r in repos && Wanted(r, user, blacklist)
    decreases |repos|
  {
    if repos == [] then []
    else
      var last := repos[|repos| - 1];
      var earlier := Candidates(repos[..|repos| - 1], user, blacklist);
      if Wanted(last, user, blacklist) then earlier + [last] else earlier
  }

  /** How many enumerated repositories are owned by another login. */
  function OrgSkipped(repos: seq<Repo>, user: string): (n: nat)
    ensures n <= |repos|
    decreases |repos|
  {
    if repos == [] then 0
    else
      OrgSkipped(repos[..|repos| - 1], user) + (if Owned(repos[|repos| - 1], user) then 0 else 1)
  }

  /** How many enumerated repositories are the user's own but blacklisted. */
  function BlacklistSkipped(repos: seq<Repo>, user: string, blacklist: set<string>): nat
    decreases |repos|
  {
    if repos == [] then 0
    else
      var last := repos[|repos| - 1];
      BlacklistSkipped(repos[..|repos| - 1], user, blacklist)
        + (if Owned(last, user) && last.name in blacklist then 1 else 0)
  }

  /**
   * `idx` places every element of `xs` at a position of `ys`, at strictly
   * increasing positions: `xs` is a subsequence of `ys`.
   */
  predicate Embeds<T(==)>(idx: seq<nat>, xs: seq<T>, ys: seq<T>) {
    && |idx| == |xs|
    && (forall k :: 0 <= k < |idx| ==> idx[k] < |ys| && ys[idx[k]] == xs[k])
    && (forall k, l :: 0 <= k < l < |idx| ==> idx[k] < idx[l])
  }

  /** The candidates are a subsequence of the enumeration: order is kept. */
  lemma {:induction false} CandidatesKeepOrder(repos: seq<Repo>, user: string, blacklist: set<string>)
    ensures exists idx: seq<nat> :: Embeds(idx, Candidates(repos, user, blacklist), repos)
    decreases |repos|
  {
    var kept := Candidates(repos, user, blacklist);
    if repos == [] {
      assert Embeds([], kept, repos);
    } else {
      var n: nat := |repos| - 1;
      var earlier := Candidates(repos[..n], user, blacklist);
      CandidatesKeepOrder(repos[..n], user, blacklist);
      var idx: seq<nat> :| Embeds(idx, earlier, repos[..n]);
      assert forall k :: 0 <= k < |idx| ==> idx[k] < n;
      if Wanted(repos[n], user, blacklist) {
        assert Embeds(idx + [n], kept, repos);
      } else {
        assert Embeds(idx, kept, repos);
      }
    }
  }

  /**
   * A repository is kept exactly when it is enumerated, owned by the user
   * and not blacklisted; in particular one owned by any other login is
   * never kept, whatever the blacklist holds.
   */
  lemma {:induction false} CandidatesExactly(repos: seq<Repo>, user: string, blacklist: set<string>, r: Repo)
    ensures r in Candidates(repos, user, blacklist) <==> r in repos && Wanted(r, user, blacklist)
    decreases |repos|
  {
    if repos != [] {
      var n := |repos| - 1;
      CandidatesExactly(repos[..n], user, blacklist, r);
      assert repos == repos[..n] + [repos[n]];
    }
  }

  /**
   * Every enumerated repository is counted exactly once: as an organisation
   * repository, as a blacklisted one, or as a candidate.
   */
  lemma {:induction false} EveryRepositoryAccounted(repos: seq<Repo>, user: string, blacklist: set<string>)
    ensures OrgSkipped(repos, user) + BlacklistSkipped(repos, user, blacklist)
            + |Candidates(repos, user, blacklist)| == |repos|
    decreases |repos|
  {
    if repos != [] {
      EveryRepositoryAccounted(repos[..|repos| - 1], user, blacklist);
    }
  }

  /** A sequence in which no element occurs twice. */
  predicate Distinct<T(==)>(xs: seq<T>) {
    forall i, j :: 0 <= i < j < |xs| ==> xs[i] != xs[j]
  }

  /** An enumeration without repeats yields candidates without repeats: each is attempted once. */
  lemma {:induction false} CandidatesDistinct(repos: seq<Repo>, user: string, blacklist: set<string>)
    requires Distinct(repos)
    ensures Distinct(Candidates(repos, user, blacklist))
    decreases |repos|
  {
    if repos != [] {
      var n := |repos| - 1;
      assert Distinct(repos[..n]);
      CandidatesDistinct(repos[..n], user, blacklist);
      var earlier := Candidates(repos[..n], user, blacklist);
      assert repos[n] !in repos[..n];
      assert repos[n] !in earlier;
    }
  }

  /** No organisation repository is skipped exactly when every enumerated one is the user's. */
  lemma {:induction false} NoOrgSkippedIffAllOwned(repos: seq<Repo>, user: string)
    ensures OrgSkipped(repos, user) == 0 <==> forall i :: 0 <= i < |repos| ==> Owned(repos[i], user)
    decreases |repos|
  {
    if repos != [] {
      var n := |repos| - 1;
      NoOrgSkippedIffAllOwned(repos[..n], user);
      assert forall i :: 0 <= i < n ==> repos[..n][i] == repos[i];
    }
  }

  /**
   * `get_repositories_to_mirror`: one pass over the enumeration, appending
   * the repositories to keep and counting the organisation repositories.
   * `None` stands for an enumeration that raised; the source then returns
   * no repositories.
   */
  method GetRepositoriesToMirror(listing: Option<seq<Repo>>, user: string, blacklist: set<string>)
    returns (toMirror: seq<Repo>, orgSkipped: nat)
    ensures listing.None? ==> toMirror == [] && orgSkipped == 0
    ensures listing.Some? ==> toMirror == Candidates(listing.value, user, blacklist)
                              && orgSkipped == OrgSkipped(listing.value, user)
  {
    toMirror, orgSkipped := [], 0;
    if listing.None? {
      return;
    }
    var all := listing.value;
    var i := 0;
    while i < |all|
      invariant 0 <= i <= |all|
      invariant toMirror == Candidates(all[..i], user, blacklist)
      invariant orgSkipped == OrgSkipped(all[..i], user)
    {
      var repo := all[i];
      assert all[..i + 1][..i] == all[..i];
      i := i + 1;
      if repo.ownerLogin != user {
        orgSkipped := orgSkipped + 1;
        continue;
      }
      if repo.name !in blacklist {
        toMirror := toMirror + [repo];
      }
    }
    assert all[..i] == all;
  }

  /**
   * The user owns `secret-repo` and `public-repo` and blacklists the first:
   * only `public-repo` is kept.
   */
  lemma OnlyPublicRepoKept(user: string, secret: Repo, public: Repo)
    requires secret.name == "secret-repo" && public.name == "public-repo"
    requires Owned(secret, user) && Owned(public, user)
    ensures Candidates([secret, public], user, {"secret-repo"}) == [public]
  {
  }
}
