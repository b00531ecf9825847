/** The transport gate (`isLocalHost`, `safePostLocal`): two policy checks, in
    a fixed order, in front of the one network call the scanner makes. The
    call itself is abstract: its outcome is an input. */
module Transport {
  import opened Util

  /** The only collector the scanner may post to. */
  const LocalCollector: string := "http://127.0.0.1:8088/collect"

  /** `isLocalHost()`: the page is served from the loopback host. */
  predicate IsLocalHost(hostname: string) {
    hostname == "localhost" || hostname == "127.0.0.1"
  }

  /** What the abstract `fetch` does: it answers with an HTTP status, or throws. */
  datatype FetchOutcome = Response(code: int) | Thrown

  /** The `status` field of the result. */
  datatype Status = BlockedHost | BadUrl | Http(code: int) | NetworkError

  /** `{ ok, status }`, and whether the gate let the request through to the
      network. */
  datatype PostResult = PostResult(ok: bool, status: Status, fetched: bool)

  /** `Response.ok`: a status in the 2xx range. */
  predicate IsOk(code: int) {
    200 <= code <= 299
  }

  /** `safePostLocal(url, envelope)` on a page served from `hostname`, where
      the fetch, if it happens, has outcome `outcome`. */
  function SafePostLocal(hostname: string, url: string, outcome: FetchOutcome): (r: PostResult)
    ensures r.fetched <==> IsLocalHost(hostname) && StartsWith(url, LocalCollector)
    ensures r.ok ==> r.fetched
  {
    if !IsLocalHost(hostname) then PostResult(false, BlockedHost, false)
    else if !StartsWith(url, LocalCollector) then PostResult(false, BadUrl, false)
    else
      match outcome
      case Thrown => PostResult(false, NetworkError, true)
      case Response(code) => PostResult(IsOk(code), Http(code), true)
  }

  /** The host check comes first: off the loopback host the answer is
      `blocked-host` whatever the URL, and `bad-url` only ever appears on the
      loopback host for a URL outside the collector. */
  lemma GateOrder(hostname: string, url: string, outcome: FetchOutcome)
    ensures SafePostLocal(hostname, url, outcome).status == BlockedHost <==> !IsLocalHost(hostname)
    ensures SafePostLocal(hostname, url, outcome).status == BadUrl <==>
              IsLocalHost(hostname) && !StartsWith(url, LocalCollector)
  {
  }

  /** Once through the gate: `ok` exactly for a 2xx answer, the answer's own
      status otherwise, and `network-error` exactly when the fetch throws. */
  lemma SendOutcome(hostname: string, url: string, outcome: FetchOutcome)
    requires IsLocalHost(hostname) && StartsWith(url, LocalCollector)
    ensures var r := SafePostLocal(hostname, url, outcome);
      && (r.ok <==> outcome.Response? && IsOk(outcome.code))
      && (r.status == NetworkError <==> outcome.Thrown?)
      && (outcome.Response? ==> r.status == Http(outcome.code))
  {
  }

  /** A rejected request never depends on the network. */
  lemma RejectionIgnoresNetwork(hostname: string, url: string, o1: FetchOutcome, o2: FetchOutcome)
    requires !SafePostLocal(hostname, url, o1).fetched
    ensures SafePostLocal(hostname, url, o1) == SafePostLocal(hostname, url, o2)
  {
  }

  /** The scanner always posts to the collector itself, so on the loopback host
      its requests always reach the network. */
  lemma CollectorPassesGate(hostname: string, outcome: FetchOutcome)
    requires IsLocalHost(hostname)
    ensures SafePostLocal(hostname, LocalCollector, outcome).fetched
  {
    assert LocalCollector[..|LocalCollector|] == LocalCollector;
  }

  /** The answers of the first `n` posts of a cycle to `url`, where `network(k)`
      is what the `k`-th fetch would do. */
  function Posts(hostname: string, url: string, network: nat -> FetchOutcome, n: nat): (r: seq<PostResult>)
    ensures |r| == n
  {
    if n == 0 then [] else Posts(hostname, url, network, n - 1) + [SafePostLocal(hostname, url, network(n - 1))]
  }

  /** The `k`-th answer is the gate's answer for the `k`-th fetch. */
  lemma {:induction false} PostsAt(hostname: string, url: string, network: nat -> FetchOutcome, n: nat, k: nat)
    requires k < n
    ensures Posts(hostname, url, network, n)[k] == SafePostLocal(hostname, url, network(k))
  {
    if k < n - 1 {
      PostsAt(hostname, url, network, n - 1, k);
    }
  }
}
