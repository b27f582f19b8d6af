/** The ad-hoc forward relay of the basic controller: `GET /proxy/...` with a
    `target` parameter. The `/proxy` prefix is cut off the path, the rest is
    appended to `target`, every inbound header except `host` is copied, the
    outbound call is always a GET, and the backend's response is returned. */
module BasicProxy {
  import opened Http

  const ProxyPrefix: string := "/proxy"

  /** `path.substring("/proxy".length())`: the path without its first six
      characters. The `/proxy/...` mapping only hands over paths that start
      with `/proxy`, so the path is at least that long. */
  function StripPrefix(path: string): string
    requires |path| >= |ProxyPrefix|
  {
    path[|ProxyPrefix|..]
  }

  /** For a mapped path `/proxy` + s the forwarded path is exactly s. */
  lemma StripPrefixOfMappedPath(s: string)
    ensures StripPrefix(ProxyPrefix + s) == s
  {
  }

  /** The request the controller sends for `request` and `target`: what
      `ProxyRequest` builds, stated with the header filter. */
  function ForwardRequest(request: InboundRequest, target: string): Request
    requires |request.path| >= |ProxyPrefix|
  {
    ExcludeWellFormed(request.headers, HostHeader);
    Request(GET, target + StripPrefix(request.path), Exclude(request.headers, HostHeader), "")
  }

  /** The outbound URL is `target` followed by the stripped path, with no
      separator added or removed, and the method is GET whatever came in. */
  lemma ForwardRequestTarget(s: string, target: string, m: Method, h: HeaderMap, body: string)
    ensures var out := ForwardRequest(InboundRequest(m, ProxyPrefix + s, h, body), target);
      out.uri == target + s && out.httpMethod == GET && out.body == ""
  {
  }

  /** The outbound headers are the inbound ones without `host`: no header named
      `host` in any spelling remains, every other name keeps its full value
      list, and filtering again changes nothing. */
  lemma ForwardRequestHeaders(request: InboundRequest, target: string, n: string)
    requires |request.path| >= |ProxyPrefix|
    ensures var out := ForwardRequest(request, target).headers;
      (EqualsIgnoreCase(n, HostHeader) ==> !HasName(out, n)) &&
      (!EqualsIgnoreCase(n, HostHeader) ==> Get(out, n) == Get(request.headers, n)) &&
      Exclude(out, HostHeader) == out
  {
    ExcludeGet(request.headers, HostHeader, n);
    if EqualsIgnoreCase(n, HostHeader) {
      ExcludeHasNoName(request.headers, HostHeader, n);
    }
    ExcludeIdempotent(request.headers, HostHeader);
  }

  /** The header copy: `request.getHeaders().forEach(...)` adding every entry
      whose name is not `host` (ignoring case) to the empty outbound set. */
  method CopyHeaders(inbound: HeaderMap) returns (headers: HeaderMap)
    ensures headers == Exclude(inbound, HostHeader)
  {
    headers := [];
    for i := 0 to |inbound|
      invariant headers == Exclude(inbound[..i], HostHeader)
    {
      var entry := inbound[i];
      assert inbound[..i + 1] == inbound[..i] + [entry];
      if !EqualsIgnoreCase(entry.name, HostHeader) {
        ExcludeMembers(inbound[..i], HostHeader);
        NotYetCopied(inbound, i, headers);
        headers := AddValues(headers, entry.name, entry.values);
      }
    }
    assert inbound[..|inbound|] == inbound;
  }

  /** An entry about to be copied has no counterpart among those copied
      before it, so `addAll` appends it. */
  lemma NotYetCopied(inbound: HeaderMap, i: nat, headers: seq<Entry>)
    requires i < |inbound|
    requires forall e :: e in headers ==> e in inbound[..i]
    ensures !HasName(headers, inbound[i].name)
  {
    forall k | 0 <= k < |headers| ensures !EqualsIgnoreCase(headers[k].name, inbound[i].name) {
      assert headers[k] in headers;
      var j :| 0 <= j < i && inbound[..i][j] == headers[k];
      assert inbound[j] == headers[k];
    }
  }

  /** `proxyRequest`: forwards the request to `target` through `backend` (the
      network call) and returns what `retrieve().toEntity(...)` makes of the
      backend's response. */
  method ProxyRequest(request: InboundRequest, target: string, backend: Request -> Response)
    returns (r: Result<Response>)
    requires |request.path| >= |ProxyPrefix|
    ensures r == Retrieve(backend(ForwardRequest(request, target)))
    ensures var response := backend(ForwardRequest(request, target));
      (!IsErrorStatus(response.status) ==> r == Success(response)) &&
      (IsErrorStatus(response.status) ==> r == Failure(ErrorStatus(response.status)))
  {
    var path := StripPrefix(request.path);
    var targetUrl := target + path;
    var headers := CopyHeaders(request.headers);
    var response := backend(Request(GET, targetUrl, headers, ""));
    r := Retrieve(response);
  }

  /** A backend answering 200 with body "from backend" at `/proxy/test`: the
      caller gets 200 and that body. */
  method ProxyForwardsRequestAndReturnsBody(target: string, headers: HeaderMap) returns (r: Result<Response>)
    ensures r == Success(Response(200, [], "from backend"))
  {
    var request := InboundRequest(GET, "/proxy/test", headers, "");
    r := ProxyRequest(request, target, (out: Request) => Response(200, [], "from backend"));
  }

  /** A backend header `X-Test: value` reaches the caller unchanged. */
  method ProxyForwardsResponseHeaders(target: string, headers: HeaderMap) returns (r: Result<Response>)
    ensures r.Success? && r.value.status == 200 && r.value.body == "body"
    ensures r.Success? && Get(r.value.headers, "X-Test") == Some(["value"])
  {
    var request := InboundRequest(GET, "/proxy/hello", headers, "");
    r := ProxyRequest(request, target, (out: Request) => Response(200, [Entry("X-Test", ["value"])], "body"));
  }

  /** The paths the backend is asked for in those two exchanges: `target`
      followed by `/test` and by `/hello`. */
  lemma ForwardedTestPaths(target: string, headers: HeaderMap)
    ensures ForwardRequest(InboundRequest(GET, "/proxy/test", headers, ""), target).uri == target + "/test"
    ensures ForwardRequest(InboundRequest(GET, "/proxy/hello", headers, ""), target).uri == target + "/hello"
  {
    assert "/proxy/test" == ProxyPrefix + "/test";
    assert "/proxy/hello" == ProxyPrefix + "/hello";
  }
}
