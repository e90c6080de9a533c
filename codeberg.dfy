/**
 * The destination host's API as the mirroring script uses it: the
 * rate-limit retry, the existence check and the creation request.  The
 * HTTP exchanges themselves are inputs: the responses the server gives.
 */
module Codeberg {
  import opened Wrappers
  import opened Repositories

  /** A response: its status and its `Retry-After` header, already read as seconds. */
  datatype Response = Response(status: int, retryAfter: Option<nat>)

  /** The outcome of a request once rate limiting is over: the response and the seconds slept. */
  datatype Settled = Settled(response: Response, waited: nat)

  const TooManyRequests := 429
  const DefaultRetryAfter: nat := 60

  /** The seconds slept after a rate-limited response. */
  function Delay(r: Response): nat {
    r.retryAfter.GetOr(DefaultRetryAfter)
  }

  /** The seconds slept over a run of rate-limited responses. */
  function TotalDelay(rs: seq<Response>): nat
    decreases |rs|
  {
    if rs == [] then 0 else Delay(rs[0]) + TotalDelay(rs[1..])
  }

  /**
   * `_make_codeberg_request`, given the responses the server would give to
   * successive attempts: a 429 response means sleep and repeat the request.
   * The source repeats without bound; here `None` means the given responses
   * ran out while the server still answered 429.
   */
  function MakeRequest(responses: seq<Response>): (r: Option<Settled>)
    ensures r.Some? ==> r.value.response.status != TooManyRequests
    ensures r.None? <==> forall i :: 0 <= i < |responses| ==> responses[i].status == TooManyRequests
    decreases |responses|
  {
    if responses == [] then None
    else if responses[0].status == TooManyRequests then
      match MakeRequest(responses[1..])
      case None => None
      case Some(s) => Some(Settled(s.response, Delay(responses[0]) + s.waited))
    else Some(Settled(responses[0], 0))
  }

  /**
   * The settled response is the first one that is not a 429, and the time
   * slept is the sum of the delays of the 429 responses before it.
   */
  lemma {:induction false} MakeRequestSettlesOnFirst(responses: seq<Response>, k: nat)
    requires k < |responses| && responses[k].status != TooManyRequests
    requires forall j :: 0 <= j < k ==> responses[j].status == TooManyRequests
    ensures MakeRequest(responses) == Some(Settled(responses[k], TotalDelay(responses[..k])))
    decreases k
  {
    if k > 0 {
      MakeRequestSettlesOnFirst(responses[1..], k - 1);
      assert responses[1..][..k - 1] == responses[..k][1..];
    }
  }

  /** `_repository_exists_on_codeberg`: the repository exists when the status is 200. */
  predicate RepositoryExists(status: int) {
    status == 200
  }

  /** `_create_codeberg_repository`: created (201) and already there (409) both succeed. */
  predicate CreateSucceeded(status: int) {
    status == 201 || status == 409
  }

  /** The JSON body of the creation request. */
  datatype CreatePayload = CreatePayload(name: string, description: string, private: bool, autoInit: bool)

  /** The description sent: the repository's own, or a generated one when it has none or an empty one. */
  function Description(repo: Repo): (d: string)
    ensures d != ""
    ensures repo.description.Some? && repo.description.value != "" ==> d == repo.description.value
    ensures repo.description.None? || repo.description.value == "" ==> d == "Mirror of " + repo.fullName
  {
    match repo.description
    case Some(text) => if text != "" then text else "Mirror of " + repo.fullName
    case None => "Mirror of " + repo.fullName
  }

  /** The creation request for a repository: same name and visibility, never auto-initialised. */
  function CreateRequest(repo: Repo): (p: CreatePayload)
    ensures p.name == repo.name && p.private == repo.private && !p.autoInit
    ensures p.description == Description(repo) && p.description != ""
  {
    CreatePayload(repo.name, Description(repo), repo.private, false)
  }

  /** A retried request settles on 200 after one rate-limited answer with `Retry-After: 5`. */
  lemma RetryAfterFiveThenFound()
    ensures MakeRequest([Response(429, Some(5)), Response(200, None)])
            == Some(Settled(Response(200, None), 5))
  {
  }
}
