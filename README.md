# learn_proxy: a Dafny model of the request relays

This project models the decision logic of the learn_proxy Spring WebFlux
proxy and proves properties of it.

- **Reverse relay** (`ReverseProxyHandler`). A round-robin selector picks one
  of three fixed backends. It keeps a shared counter that starts at 0. Each
  call reads the counter, increments it, and looks up
  `pool[counter % size]`. The request goes to `backend + path` with the
  inbound method, body and headers, except that any `host` header is
  removed. The backend's status and headers come back unchanged.
- **Ad-hoc forward relay** (`BasicProxyController.proxyRequest`). It handles
  `GET /proxy/**?target=…`. It cuts the six-character `/proxy` prefix off the
  path and appends the rest to `target`. It copies every inbound header not
  named `host`, always sends a GET, and returns the backend's response.

Modules (one per file):

- `JavaInt` (`java_int.dfy`): Java `int` arithmetic. It covers 32-bit
  wrap-around, which `AtomicInteger.getAndIncrement` has, and the `%`
  operator, which truncates toward zero.
- `Http` (`http.dfy`): requests, responses and the header multimap.
  `HeaderMap` is an ordered list of `(name, values)` entries. No two names in
  it are equal ignoring case, which is the invariant of Spring's
  case-insensitive `HttpHeaders`. The module models the map operations the
  relays call: `addAll(name, values)` as `AddValues`, `addAll(map)` as
  `AddAll`, `remove` as `Remove`, and the lookup as `Find` and `Get`. It also
  defines the header filter `Exclude`, the reference the relays are proved
  against, and `Retrieve`, the 4xx/5xx check of `WebClient.retrieve()`.
- `ReverseProxy` (`reverse_proxy.dfy`): the handler as a class with the
  counter field `currentIndex`, plus pure functions for the rewrite.
- `BasicProxy` (`basic_proxy.dfy`): prefix stripping, the header-copy loop
  and `proxyRequest`.

The network call is a function parameter `backend: Request -> Response`.
Bodies are strings, as in the source, which converts every body with
`bodyToMono(String.class)`. The basic controller's GET carries the empty body.

## Model

| member | source | states |
|---|---|---|
| JavaInt.Wrap | src/main/java/org/workshop/learn_proxy/proxy/reverse/ReverseProxyHandler.java:45 | the 32-bit result is the unique `int` congruent to the exact value modulo 2^32, and is the value itself when that is in range |
| JavaInt.Increment | src/main/java/org/workshop/learn_proxy/proxy/reverse/ReverseProxyHandler.java:45 | `getAndIncrement` adds one, and `Integer.MAX_VALUE` is followed by `Integer.MIN_VALUE` |
| JavaInt.Rem | src/main/java/org/workshop/learn_proxy/proxy/reverse/ReverseProxyHandler.java:45 | Java `%`: `(a / b) * b + a % b == a` with truncating `/`, and the remainder has the dividend's sign and lies strictly inside `(-b, b)` |
| Http.EqualsIgnoreCaseCharwise | src/main/java/org/workshop/learn_proxy/BasicProxyController.java:30 | name comparison holds exactly when the lengths agree and the names agree character by character after ASCII lower-casing |
| Http.Find | src/main/java/org/workshop/learn_proxy/proxy/reverse/ReverseProxyHandler.java:38 | the lookup returns a position whose name matches ignoring case, and finds nothing exactly when no entry matches |
| Http.FindUnique | src/main/java/org/workshop/learn_proxy/proxy/reverse/ReverseProxyHandler.java:38 | in a well-formed map the lookup finds the one matching entry |
| Http.AddValues | src/main/java/org/workshop/learn_proxy/BasicProxyController.java:31 | `addAll(name, values)` keeps the map well-formed, keeps every existing name in its place, and appends a new entry at the end when the name is absent |
| Http.AddValuesGet | src/main/java/org/workshop/learn_proxy/BasicProxyController.java:31 | after `addAll(name, values)` that name's list has `values` appended and every other name's list is unchanged |
| Http.AddAllIntoEmpty | src/main/java/org/workshop/learn_proxy/proxy/reverse/ReverseProxyHandler.java:37 | copying a header map into an empty set reproduces it: same entries, order and value lists |
| Http.RemoveIsExclude | src/main/java/org/workshop/learn_proxy/proxy/reverse/ReverseProxyHandler.java:38 | on a well-formed map, `remove(name)` equals the filter that drops every entry matching the name |
| Http.ExcludeMembers | src/main/java/org/workshop/learn_proxy/BasicProxyController.java:28-33 | the filter: an entry is in the result if and only if it is in the input and its name does not match ignoring case |
| Http.ExcludeWellFormed | src/main/java/org/workshop/learn_proxy/BasicProxyController.java:28-33 | filtering a well-formed header map yields a well-formed header map |
| Http.ExcludeHasNoName | src/main/java/org/workshop/learn_proxy/BasicProxyController.java:30 | the filtered map has no entry with the excluded name in any spelling |
| Http.ExcludeConcat | src/main/java/org/workshop/learn_proxy/BasicProxyController.java:29 | filtering distributes over concatenation, so the kept entries stay in inbound order |
| Http.ExcludeIdentity | src/main/java/org/workshop/learn_proxy/BasicProxyController.java:30 | the filter leaves a map unchanged if and only if no entry matches |
| Http.ExcludeIdempotent | src/main/java/org/workshop/learn_proxy/BasicProxyController.java:30 | filtering twice gives the same result as filtering once |
| Http.ExcludeGet | src/main/java/org/workshop/learn_proxy/proxy/reverse/ReverseProxyHandler.java:36-39 | after filtering, the excluded name has no values and every other name keeps its full value list |
| ReverseProxy.PoolShape | src/main/java/org/workshop/learn_proxy/proxy/reverse/ReverseProxyHandler.java:22-26 | the pool has exactly three distinct entries and starts with `http://backend1:8080` |
| ReverseProxy.SelectNonNegative | src/main/java/org/workshop/learn_proxy/proxy/reverse/ReverseProxyHandler.java:45-46 | with a non-negative counter the index is `counter % 3`, which lies in the pool, and selection succeeds |
| ReverseProxy.SelectFailure | src/main/java/org/workshop/learn_proxy/proxy/reverse/ReverseProxyHandler.java:45-46 | selection fails if and only if the counter is negative and not a multiple of 3, and then with a negative index |
| ReverseProxy.SelectionsAt | src/main/java/org/workshop/learn_proxy/proxy/reverse/ReverseProxyHandler.java:45-46 | the k-th of a run of selections reads the counter left by the k selections before it |
| ReverseProxy.AdvanceFromZero | src/main/java/org/workshop/learn_proxy/proxy/reverse/ReverseProxyHandler.java:18 | starting at 0, the counter equals the number of selections made until it reaches `Integer.MAX_VALUE` |
| ReverseProxy.FreshSelection | src/main/java/org/workshop/learn_proxy/proxy/reverse/ReverseProxyHandler.java:45-46 | from a fresh handler the k-th selection (0-based) is backend `k % 3`, for each of the first 2^31 selections |
| ReverseProxy.ConsecutiveDiffer | src/main/java/org/workshop/learn_proxy/proxy/reverse/ReverseProxyHandler.java:45-46 | two consecutive selections from a fresh handler never return the same backend |
| ReverseProxy.Fairness | src/main/java/org/workshop/learn_proxy/proxy/reverse/ReverseProxyHandler.java:45-46 | over the first n selections backend i is chosen `n / 3` times, plus one if `i < n % 3` |
| ReverseProxy.FloorOrCeiling | src/main/java/org/workshop/learn_proxy/proxy/reverse/ReverseProxyHandler.java:45-46 | over the first n selections each backend is chosen floor(n/3) or ceil(n/3) times |
| ReverseProxy.SelectFailsAfterOverflow | src/main/java/org/workshop/learn_proxy/proxy/reverse/ReverseProxyHandler.java:45-46 | the selection after 2^31 others sees the counter wrapped to `Integer.MIN_VALUE`, computes index -2 and fails |
| ReverseProxy.FixedAdvance | src/main/java/org/workshop/learn_proxy/proxy/reverse/ReverseProxyHandler.java:45 | the corrected counter always stays a valid pool index |
| ReverseProxy.FixedSelectorRoundRobin | src/main/java/org/workshop/learn_proxy/proxy/reverse/ReverseProxyHandler.java:45-46 | with the corrected counter the k-th selection is backend `k % 3` for every k without bound, and consecutive picks differ |
| ReverseProxy.OutboundRequest | src/main/java/org/workshop/learn_proxy/proxy/reverse/ReverseProxyHandler.java:31-40 | the outbound request keeps the method and body, targets `backend + path`, and its headers (copied then `remove("host")`) are exactly the inbound headers filtered of `host` |
| ReverseProxy.OutboundHeaders | src/main/java/org/workshop/learn_proxy/proxy/reverse/ReverseProxyHandler.java:36-39 | a name is absent from the outbound headers if and only if it is `host` in some spelling or was absent inbound; every other name keeps its value list |
| ReverseProxy.OutboundUri | src/main/java/org/workshop/learn_proxy/proxy/reverse/ReverseProxyHandler.java:31-32 | the outbound URL is the backend string followed by the path, with nothing inserted or removed |
| ReverseProxy.BuildResponse | src/main/java/org/workshop/learn_proxy/proxy/reverse/ReverseProxyHandler.java:49-53 | the response to the caller equals the backend's response: same status, all headers in order, same body |
| ReverseProxy.ReverseProxyHandler.constructor | src/main/java/org/workshop/learn_proxy/proxy/reverse/ReverseProxyHandler.java:18-28 | a new handler's counter is 0 (the pool is a constant field that nothing can change) |
| ReverseProxy.ReverseProxyHandler.GetNextBackendServer | src/main/java/org/workshop/learn_proxy/proxy/reverse/ReverseProxyHandler.java:44-47 | the counter is incremented by one (wrapping as a Java int) and nothing else changes; the result is the selection for the previous counter value |
| ReverseProxy.ReverseProxyHandler.HandleRequest | src/main/java/org/workshop/learn_proxy/proxy/reverse/ReverseProxyHandler.java:30-42 | one selection is made; if it fails the request fails with the same error, otherwise the caller gets the backend's response to the outbound request unchanged |
| ReverseProxy.FirstFourSelections | src/main/java/org/workshop/learn_proxy/proxy/reverse/ReverseProxyHandler.java:18-46 | a fresh handler's first four selections are backends 1, 2, 3, 1 |
| ReverseProxy.ReverseProxyHandler.NextBackendServers | src/main/java/org/workshop/learn_proxy/proxy/reverse/ReverseProxyHandler.java:44-47 | n calls of `getNextBackendServer` on one handler return the run of selections from its counter, and leave the counter n wrapping increments further on |
| ReverseProxy.FreshHandlerRoundRobin | src/main/java/org/workshop/learn_proxy/proxy/reverse/ReverseProxyHandler.java:18-47 | a fresh handler sends its k-th request to backend `k % 3`, for every k in runs of up to 2^31 requests |
| BasicProxy.StripPrefixOfMappedPath | src/main/java/org/workshop/learn_proxy/BasicProxyController.java:23 | `path.substring("/proxy".length())` removes exactly the mapped prefix: for a path `/proxy` + s the forwarded path is s |
| BasicProxy.ForwardRequestTarget | src/main/java/org/workshop/learn_proxy/BasicProxyController.java:23-26 | `.get().uri(target + path)` on a path `/proxy` + s: the outbound URL is `target + s` with no separator added or removed, the method is GET whatever the inbound method, and no body is sent |
| BasicProxy.ForwardRequestHeaders | src/main/java/org/workshop/learn_proxy/BasicProxyController.java:28-33 | the headers the `forEach` builds contain no `host` header in any spelling, every other inbound name keeps its full value list, and filtering again changes nothing |
| BasicProxy.NotYetCopied | src/main/java/org/workshop/learn_proxy/BasicProxyController.java:29-31 | in the `forEach`, an inbound entry about to be added matches no entry added before it, so `headers.addAll(key, values)` appends it as a new entry |
| BasicProxy.CopyHeaders | src/main/java/org/workshop/learn_proxy/BasicProxyController.java:28-33 | the `forEach` loop with its `equalsIgnoreCase("host")` test yields exactly the inbound headers without `host`, in inbound order and with their value lists |
| BasicProxy.ProxyRequest | src/main/java/org/workshop/learn_proxy/BasicProxyController.java:20-36 | `proxyRequest` asks the backend for a GET to `target` + the path minus `/proxy` with the host-filtered headers; the caller gets the backend's response unchanged for a non-4xx/5xx status and an error carrying the status otherwise |
| BasicProxy.ProxyForwardsRequestAndReturnsBody | src/test/java/org/workshop/learn_proxy/BasicProxyControllerTest.java:40-57 | the test's exchange: a backend answering 200 with body "from backend" for `/proxy/test` gives the caller 200 and "from backend" |
| BasicProxy.ProxyForwardsResponseHeaders | src/test/java/org/workshop/learn_proxy/BasicProxyControllerTest.java:59-79 | the test's exchange: a backend header `X-Test: value` for `/proxy/hello` reaches the caller, with status 200 and body "body" |
| BasicProxy.ForwardedTestPaths | src/test/java/org/workshop/learn_proxy/BasicProxyControllerTest.java:44-78 | in both tests the backend is asked for `target + "/test"` and `target + "/hello"`, for the inbound paths `/proxy/test` and `/proxy/hello` |

## Left out

- ForwardProxyHandler is not modelled. It passes the URI, method, headers and body through unchanged. Its only distinctive part is the Reactor Netty system-proxy configuration.
- ProxyRoutes (route registration) and the front-end script `assets/js/main.js` are not modelled.
- Transport and reactive plumbing are not modelled: `Mono`, streaming, and body conversion to `String`. The network call is the function parameter `backend`.
- Concurrency and the atomicity of `getAndIncrement` are not modelled. Selections are sequential method calls on one object.
- How Spring turns the 4xx/5xx error signal of `retrieve()` into a response to the caller is not modelled. The model stops at the `ErrorStatus` failure.
- The 400 response for a missing `target` parameter is framework behaviour and is not modelled.
- URI parsing and normalisation are not modelled. The URL is a literal concatenation, so a target ending in `/` gives `…//test`.
- Header names are compared after ASCII lower-casing only. Java's Unicode case mapping differs for a few non-ASCII characters. HTTP field names are ASCII tokens (RFC 9110, section 5.1).
- The outbound header set is assumed to start empty, as it does for a `WebClient` built without default headers.
- The inbound request headers and the backend response headers are assumed to hold each name once, ignoring case, as Spring's `HttpHeaders` does. The server's own header store may keep `X-A` and `x-a` as two entries. The model does not capture what the copy loops then send.
- Whether `request.path()` in the nested `/proxy/reverse` route still includes the mount prefix is not decided. The reverse path is an input string.
- BasicProxy.StripPrefix has a precondition: the path is at least as long as `/proxy`. This is the only demand `substring(6)` makes, and the `/proxy/**` mapping guarantees it, so the model leaves out the `StringIndexOutOfBoundsException` for shorter paths.
- BasicProxy.ProxyRequest and BasicProxy.ForwardRequest carry the same precondition on the request path, for the same reason.
- ReverseProxy.FreshSelection, ConsecutiveDiffer, Fairness and FloorOrCeiling cover the first 2^31 selections only. After that the counter wraps; SelectFailsAfterOverflow and SelectFailure state what happens then.

## Findings

| source | as written | input that shows it | evidently intended | confidence | as-written member | corrected member |
|---|---|---|---|---|---|---|
| src/main/java/org/workshop/learn_proxy/proxy/reverse/ReverseProxyHandler.java:45 | `currentIndex.getAndIncrement() % backendServers.size()` lets `getAndIncrement` wrap the `int` counter to negative values, and then Java's `%` gives a negative index, so `get` throws | the selection after 2^31 earlier ones reads counter -2147483648 and computes index -2; from then on two of every three selections fail (until the counter is non-negative again) | the counter wrapping is harmless: every selection succeeds and strict round robin continues indefinitely | medium; not executed | ReverseProxy.SelectFailsAfterOverflow | ReverseProxy.FixedSelectorRoundRobin |

The handler class models the code as written. `ReverseProxy.FixedAdvance` and
`ReverseProxy.FixedSelect` are the corrected selector. Their counter advances
modulo the pool size, so it never overflows, and
`ReverseProxy.FixedSelectorRoundRobin` proves that they select backend `k % 3`
for every k.
