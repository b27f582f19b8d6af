/** The load-balanced reverse relay: a round-robin selector over a fixed pool
    of three backends, and the relay of one request to the selected backend
    (URL = backend + request path, method and body unchanged, every `host`
    header dropped) with the backend's response passed back as it is. */
module ReverseProxy {
  import opened JavaInt
  import opened Http

  const BackendServers: seq<string> := ["http://backend1:8080", "http://backend2:8080", "http://backend3:8080"]

  /** The pool is non-empty, holds three different endpoints, and starts with
      the first backend. */
  lemma PoolShape()
    ensures |BackendServers| == 3
    ensures forall i, j :: 0 <= i < j < |BackendServers| ==> BackendServers[i] != BackendServers[j]
    ensures BackendServers[0] == "http://backend1:8080"
  {
  }

  // ---------------------------------------------------------------------------
  // Selection

  /** What one selection returns for the counter value `c` read by
      `getAndIncrement`: `backendServers.get(c % size)` with Java's `%`, which
      throws once a wrapped, negative counter yields a negative index. */
  function Select(c: Int32): Result<string>
  {
    var index := Rem(c, |BackendServers|);
    if 0 <= index < |BackendServers| then Success(BackendServers[index])
    else Failure(IndexOutOfBounds(index))
  }

  /** While the counter has not wrapped, the index lies in the pool and is the
      counter modulo the pool size. */
  lemma SelectNonNegative(c: Int32)
    requires c >= 0
    ensures Select(c) == Success(BackendServers[c % 3])
  {
  }

  /** A selection fails exactly for a negative counter that is not a multiple
      of the pool size; the failing index is then negative. */
  lemma SelectFailure(c: Int32)
    ensures Select(c).Failure? <==> c < 0 && c % 3 != 0
    ensures Select(c).Failure? ==> Select(c).error.index < 0
  {
    var q := Div(c, 3);
    var r := Rem(c, 3);
    if c < 0 && r == 0 {
      assert c == 3 * q;
    }
  }

  /** The counter after `n` selections starting from `c`. */
  function Advance(c: Int32, n: nat): Int32
  {
    if n == 0 then c else Increment(Advance(c, n - 1))
  }

  /** The results of `n` successive selections starting from counter `c`, in
      call order. */
  function Selections(c: Int32, n: nat): (s: seq<Result<string>>)
    ensures |s| == n
  {
    if n == 0 then [] else Selections(c, n - 1) + [Select(Advance(c, n - 1))]
  }

  /** The k-th selection reads the counter left by the k selections before it. */
  lemma {:induction false} SelectionsAt(c: Int32, n: nat, k: nat)
    requires k < n
    ensures Selections(c, n)[k] == Select(Advance(c, k))
  {
    if k < n - 1 {
      SelectionsAt(c, n - 1, k);
    }
  }

  /** Until it wraps, the counter of a fresh handler counts the selections made. */
  lemma {:induction false} AdvanceFromZero(n: nat)
    requires n <= MAX_VALUE
    ensures Advance(0, n) == n
  {
    if n > 0 {
      AdvanceFromZero(n - 1);
    }
  }

  /** Starting from a fresh handler, the k-th selection (from 0) is backend
      `k % 3`, for the first 2^31 selections. */
  lemma FreshSelection(n: nat, k: nat)
    requires k < n <= MAX_VALUE + 1
    ensures Selections(0, n)[k] == Success(BackendServers[k % 3])
  {
    SelectionsAt(0, n, k);
    AdvanceFromZero(k);
  }

  /** Two consecutive selections never pick the same backend. */
  lemma ConsecutiveDiffer(n: nat, k: nat)
    requires k + 1 < n <= MAX_VALUE + 1
    ensures Selections(0, n)[k] != Selections(0, n)[k + 1]
  {
    FreshSelection(n, k);
    FreshSelection(n, k + 1);
  }

  /** Over the first `n` selections backend `i` is picked `n / 3` times, plus one
      if `i < n % 3`. */
  lemma {:induction false} Fairness(n: nat, i: nat)
    requires n <= MAX_VALUE + 1 && i < 3
    ensures multiset(Selections(0, n))[Success(BackendServers[i])] == n / 3 + if i < n % 3 then 1 else 0
  {
    if n > 0 {
      var m := n - 1;
      Fairness(m, i);
      FreshSelection(n, m);
      var last := Selections(0, n)[m];
      assert Selections(0, n) == Selections(0, m) + [last];
      assert multiset(Selections(0, n))[Success(BackendServers[i])] ==
             multiset(Selections(0, m))[Success(BackendServers[i])] + if m % 3 == i then 1 else 0;
      CountStep(m, i);
    }
  }

  lemma CountStep(m: nat, i: nat)
    requires i < 3
    ensures (m / 3 + if i < m % 3 then 1 else 0) + (if m % 3 == i then 1 else 0) ==
            (m + 1) / 3 + if i < (m + 1) % 3 then 1 else 0
  {
    var q, r := m / 3, m % 3;
    assert m == 3 * q + r;
    if r == 2 {
      assert m + 1 == 3 * (q + 1);
    } else {
      assert m + 1 == 3 * q + (r + 1);
    }
  }

  /** Hence every backend is picked floor(n/3) or ceil(n/3) times. */
  lemma FloorOrCeiling(n: nat, i: nat)
    requires n <= MAX_VALUE + 1 && i < 3
    ensures var count := multiset(Selections(0, n))[Success(BackendServers[i])];
      count == n / 3 || count == (n + 2) / 3
  {
    Fairness(n, i);
  }

  /** Once 2^31 selections have wrapped the counter to `Integer.MIN_VALUE`, the
      next selection computes index -2 and fails. */
  lemma SelectFailsAfterOverflow()
    ensures Selections(0, MAX_VALUE + 2)[MAX_VALUE + 1] == Failure(IndexOutOfBounds(-2))
  {
    SelectionsAt(0, MAX_VALUE + 2, MAX_VALUE + 1);
    CounterWraps();
    SelectMinValue();
  }

  lemma CounterWraps()
    ensures Advance(0, MAX_VALUE + 1) == MIN_VALUE
  {
    AdvanceFromZero(MAX_VALUE);
  }

  lemma SelectMinValue()
    ensures Select(MIN_VALUE) == Failure(IndexOutOfBounds(-2))
  {
    assert Rem(MIN_VALUE, 3) == -2;
  }

  // ---------------------------------------------------------------------------
  // A selector that keeps its counter in the pool's index range

  /** The corrected update: the counter advances modulo the pool size (as
      `getAndUpdate(i -> (i + 1) % size)` would), so it never overflows. */
  function FixedAdvance(n: nat): (c: nat)
    ensures c < |BackendServers|
  {
    if n == 0 then 0 else (FixedAdvance(n - 1) + 1) % |BackendServers|
  }

  /** The corrected selection: always a pool entry. */
  function FixedSelect(n: nat): string
  {
    BackendServers[FixedAdvance(n)]
  }

  /** With the corrected update the k-th selection is backend `k % 3` for every
      k, without bound; so consecutive picks always differ. */
  lemma {:induction false} FixedSelectorRoundRobin(k: nat)
    ensures FixedSelect(k) == BackendServers[k % 3]
    ensures FixedSelect(k) != FixedSelect(k + 1)
  {
    if k > 0 {
      FixedSelectorRoundRobin(k - 1);
    }
  }

  // ---------------------------------------------------------------------------
  // The relay

  /** The request sent to `backendUrl`: `webClient.method(request.method())`,
      `.uri(backendUrl + request.path())`, the inbound headers copied into the
      empty outbound set and `host` removed from it, the body passed on. */
  function OutboundRequest(backendUrl: string, request: InboundRequest): (out: Request)
    ensures out.httpMethod == request.httpMethod
    ensures out.uri == backendUrl + request.path
    ensures out.headers == Exclude(request.headers, HostHeader)
    ensures out.body == request.body
  {
    AddAllIntoEmpty(request.headers);
    RemoveIsExclude(request.headers, HostHeader);
    Request(request.httpMethod, backendUrl + request.path,
            Remove(AddAll([], request.headers), HostHeader), request.body)
  }

  /** The outbound headers carry no `host` header in any spelling, and every
      other header keeps its value list. */
  lemma OutboundHeaders(backendUrl: string, request: InboundRequest, n: string)
    ensures !HasName(OutboundRequest(backendUrl, request).headers, n) <==>
            EqualsIgnoreCase(n, HostHeader) || !HasName(request.headers, n)
    ensures !EqualsIgnoreCase(n, HostHeader) ==>
            Get(OutboundRequest(backendUrl, request).headers, n) == Get(request.headers, n)
  {
    ExcludeGet(request.headers, HostHeader, n);
  }

  /** The outbound URL is the backend's string followed by the path, with
      nothing inserted or removed between them. */
  lemma OutboundUri(backendUrl: string, request: InboundRequest)
    ensures var uri := OutboundRequest(backendUrl, request).uri;
      |uri| == |backendUrl| + |request.path| &&
      uri[..|backendUrl|] == backendUrl && uri[|backendUrl|..] == request.path
  {
  }

  /** `buildResponse`: the status and the backend's headers copied into an
      empty header set, and the body; the caller gets the backend's response
      unchanged, with no filtering on this side. */
  function BuildResponse(clientResponse: Response): (r: Response)
    ensures r == clientResponse
  {
    AddAllIntoEmpty(clientResponse.headers);
    Response(clientResponse.status, AddAll([], clientResponse.headers), clientResponse.body)
  }

  /** The reverse-proxy handler: the pool and the shared counter. */
  class ReverseProxyHandler {
    const backendServers: seq<string> := BackendServers
    var currentIndex: Int32

    constructor ()
      ensures currentIndex == 0
    {
      currentIndex := 0;
    }

    /** `getNextBackendServer`: reads and increments the counter, then looks
        the previous value up in the pool. */
    method GetNextBackendServer() returns (r: Result<string>)
      modifies this
      ensures currentIndex == Increment(old(currentIndex))
      ensures r == Select(old(currentIndex))
    {
      var previous := currentIndex;
      currentIndex := Increment(currentIndex);
      var index := Rem(previous, |backendServers|);
      if 0 <= index < |backendServers| {
        r := Success(backendServers[index]);
      } else {
        r := Failure(IndexOutOfBounds(index));
      }
    }

    /** `n` successive calls of `getNextBackendServer`: the picks are the
        run of selections from the current counter, which ends `n`
        increments further on. */
    method NextBackendServers(n: nat) returns (picks: seq<Result<string>>)
      modifies this
      ensures picks == Selections(old(currentIndex), n)
      ensures currentIndex == Advance(old(currentIndex), n)
    {
      picks := [];
      for k := 0 to n
        invariant picks == Selections(old(currentIndex), k)
        invariant currentIndex == Advance(old(currentIndex), k)
      {
        var pick := GetNextBackendServer();
        picks := picks + [pick];
      }
    }

    /** `handleRequest`: select a backend, relay the request to it through
        `backend` (the network call), and return its response. A failed
        selection ends the request before anything is sent. */
    method HandleRequest(request: InboundRequest, backend: Request -> Response) returns (r: Result<Response>)
      modifies this
      ensures currentIndex == Increment(old(currentIndex))
      ensures match Select(old(currentIndex))
              case Success(url) => r == Success(backend(OutboundRequest(url, request)))
              case Failure(e) => r == Failure(e)
    {
      var selected := GetNextBackendServer();
      match selected
      case Failure(e) =>
        r := Failure(e);
      case Success(backendUrl) =>
        var clientResponse := backend(OutboundRequest(backendUrl, request));
        r := Success(BuildResponse(clientResponse));
    }
  }

  /** A fresh handler sends its k-th request (from 0) to backend `k % 3`, for
      runs of up to 2^31 requests. */
  method FreshHandlerRoundRobin(n: nat) returns (picks: seq<Result<string>>)
    requires n <= MAX_VALUE + 1
    ensures |picks| == n
    ensures forall k :: 0 <= k < n ==> picks[k] == Success(BackendServers[k % 3])
  {
    var handler := new ReverseProxyHandler();
    picks := handler.NextBackendServers(n);
    forall k | 0 <= k < n ensures picks[k] == Success(BackendServers[k % 3]) {
      FreshSelection(n, k);
    }
  }

  /** A fresh handler sends its first four requests to backends 1, 2, 3 and 1. */
  method FirstFourSelections() returns (picks: seq<Result<string>>)
    ensures picks == [Success("http://backend1:8080"), Success("http://backend2:8080"),
                      Success("http://backend3:8080"), Success("http://backend1:8080")]
  {
    var handler := new ReverseProxyHandler();
    var a := handler.GetNextBackendServer();
    var b := handler.GetNextBackendServer();
    var c := handler.GetNextBackendServer();
    var d := handler.GetNextBackendServer();
    picks := [a, b, c, d];
  }
}
