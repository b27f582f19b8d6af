/** The HTTP values both relays work on: requests, responses, and the header
    multimap with the operations the relays call on it (Spring's `HttpHeaders`,
    backed by an insertion-ordered, case-insensitive map from a header name to
    its list of values). */
module Http {

  datatype Option<T> = None | Some(value: T)

  /** What the relays can fail with: an out-of-range list index (the reverse
      relay's selector), or a 4xx/5xx status turned into an error signal by
      `WebClient.retrieve()` (the basic controller). */
  datatype Error = IndexOutOfBounds(index: int) | ErrorStatus(status: int)

  datatype Result<T> = Success(value: T) | Failure(error: Error)

  // ---------------------------------------------------------------------------
  // Header names, compared ignoring ASCII case

  /** ASCII lower-casing of one character. */
  function ToLower(c: char): char
  {
    if 'A' <= c <= 'Z' then (c as int + 32) as char else c
  }

  function LowerCase(s: string): string
  {
    seq(|s|, i requires 0 <= i < |s| => ToLower(s[i]))
  }

  /** Header-name equality: `String.equalsIgnoreCase`, and the lookup of a
      case-insensitive map, restricted to ASCII names. */
  predicate EqualsIgnoreCase(a: string, b: string)
  {
    LowerCase(a) == LowerCase(b)
  }

  /** `equalsIgnoreCase` is defined character by character on strings of the
      same length; the lower-cased comparison above agrees with that reading. */
  lemma EqualsIgnoreCaseCharwise(a: string, b: string)
    ensures EqualsIgnoreCase(a, b) <==>
            |a| == |b| && forall i :: 0 <= i < |a| ==> ToLower(a[i]) == ToLower(b[i])
  {
    if |a| == |b| && forall i :: 0 <= i < |a| ==> ToLower(a[i]) == ToLower(b[i]) {
      assert forall i :: 0 <= i < |a| ==> LowerCase(a)[i] == LowerCase(b)[i];
    }
    if EqualsIgnoreCase(a, b) {
      assert |LowerCase(a)| == |a| && |LowerCase(b)| == |b|;
      forall i | 0 <= i < |a| ensures ToLower(a[i]) == ToLower(b[i]) {
        assert LowerCase(a)[i] == LowerCase(b)[i];
      }
    }
  }

  // ---------------------------------------------------------------------------
  // The header multimap

  /** The header both relays refuse to pass on. */
  const HostHeader: string := "host"

  /** One header: its name as first inserted and its ordered list of values. */
  datatype Entry = Entry(name: string, values: seq<string>)

  /** No two entries have names that are equal ignoring case: a
      case-insensitive map holds at most one entry per name. */
  predicate WellFormed(h: seq<Entry>)
  {
    forall i, j :: 0 <= i < j < |h| ==> !EqualsIgnoreCase(h[i].name, h[j].name)
  }

  /** `HttpHeaders`: entries in iteration (insertion) order. */
  type HeaderMap = h: seq<Entry> | WellFormed(h) witness []

  predicate HasName(h: seq<Entry>, name: string)
  {
    exists i :: 0 <= i < |h| && EqualsIgnoreCase(h[i].name, name)
  }

  /** The case-insensitive lookup of `name`: the position of the first entry
      whose name matches, if any. */
  function Find(h: seq<Entry>, name: string): (r: Option<nat>)
    ensures r.Some? ==> r.value < |h| && EqualsIgnoreCase(h[r.value].name, name)
    ensures r.None? <==> !HasName(h, name)
  {
    if h == [] then None
    else if EqualsIgnoreCase(h[0].name, name) then Some(0)
    else match Find(h[1..], name)
      case Some(i) => Some(i + 1)
      case None =>
        assert forall i :: 1 <= i < |h| ==> h[i] == h[1..][i - 1];
        None
  }

  /** In a well-formed map the lookup finds the one matching entry. */
  lemma FindUnique(h: HeaderMap, name: string, i: nat)
    requires i < |h| && EqualsIgnoreCase(h[i].name, name)
    ensures Find(h, name) == Some(i)
  {
    var r := Find(h, name);
    assert r.Some?;
    assert EqualsIgnoreCase(h[r.value].name, h[i].name);
  }

  /** `HttpHeaders.get(name)`: the value list stored under `name`. */
  function Get(h: seq<Entry>, name: string): Option<seq<string>>
  {
    match Find(h, name)
    case Some(i) => Some(h[i].values)
    case None => None
  }

  function ValuesOrEmpty(h: seq<Entry>, name: string): seq<string>
  {
    match Get(h, name)
    case Some(vs) => vs
    case None => []
  }

  /** `HttpHeaders.addAll(name, values)`: the values are appended to the list
      of the entry matching `name` (which keeps its spelling and place), or a
      new entry is added at the end. */
  function AddValues(h: HeaderMap, name: string, values: seq<string>): (r: HeaderMap)
    ensures |r| == if HasName(h, name) then |h| else |h| + 1
    ensures forall k :: 0 <= k < |h| ==> r[k].name == h[k].name
    ensures !HasName(h, name) ==> r == h + [Entry(name, values)]
  {
    match Find(h, name)
    case Some(i) =>
      var r := h[i := Entry(h[i].name, h[i].values + values)];
      assert forall k :: 0 <= k < |h| ==> r[k].name == h[k].name;
      r
    case None =>
      h + [Entry(name, values)]
  }

  /** After `addAll(name, values)` the name's list has gained `values` at its
      end and every other name's list is as before. */
  lemma AddValuesGet(h: HeaderMap, name: string, values: seq<string>, n: string)
    ensures Get(AddValues(h, name, values), n) ==
            if EqualsIgnoreCase(n, name) then Some(ValuesOrEmpty(h, n) + values) else Get(h, n)
  {
    var r := AddValues(h, name, values);
    match Find(h, name)
    case Some(i) =>
      if EqualsIgnoreCase(n, name) {
        FindUnique(h, n, i);
        FindUnique(r, n, i);
      } else {
        match Find(h, n)
        case Some(j) =>
          FindUnique(r, n, j);
        case None =>
          forall k | 0 <= k < |r| ensures !EqualsIgnoreCase(r[k].name, n) {
            assert r[k].name == h[k].name;
          }
      }
    case None =>
      if EqualsIgnoreCase(n, name) {
        forall k | 0 <= k < |h| ensures !EqualsIgnoreCase(h[k].name, n) {
          assert !EqualsIgnoreCase(h[k].name, name);
        }
        assert ValuesOrEmpty(h, n) + values == values;
        FindUnique(r, n, |h|);
      } else {
        match Find(h, n)
        case Some(j) =>
          FindUnique(r, n, j);
        case None =>
          forall k | 0 <= k < |r| ensures !EqualsIgnoreCase(r[k].name, n) {
            if k < |h| {
              assert r[k] == h[k];
            }
          }
      }
  }

  /** `HttpHeaders.addAll(other)`: `addAll(name, values)` for every entry of
      `other`, in its iteration order. */
  function AddAll(h: HeaderMap, other: HeaderMap): HeaderMap
    decreases |other|
  {
    if other == [] then h
    else
      var last := other[|other| - 1];
      AddValues(AddAll(h, other[..|other| - 1]), last.name, last.values)
  }

  /** Copying a map into an empty one reproduces it: same entries, same order,
      same value lists. */
  lemma {:induction false} AddAllIntoEmpty(m: HeaderMap)
    ensures AddAll([], m) == m
    decreases |m|
  {
    if m != [] {
      var init: HeaderMap, last := m[..|m| - 1], m[|m| - 1];
      AddAllIntoEmpty(init);
      forall k | 0 <= k < |init| ensures !EqualsIgnoreCase(init[k].name, last.name) {
        assert init[k] == m[k];
      }
      assert init + [last] == m;
    }
  }

  /** `HttpHeaders.remove(name)`: drops the entry matching `name`, if any. */
  function Remove(h: HeaderMap, name: string): HeaderMap
  {
    match Find(h, name)
    case Some(i) =>
      var r := h[..i] + h[i + 1..];
      assert forall p :: 0 <= p < |r| ==> r[p] == h[if p < i then p else p + 1];
      r
    case None => h
  }

  // ---------------------------------------------------------------------------
  // The header filter (the specification both relays are held to)

  /** Every entry whose name equals `name` ignoring case is dropped; every other
      entry is kept, with its value list, in the original order. */
  function Exclude(h: seq<Entry>, name: string): seq<Entry>
    decreases |h|
  {
    if h == [] then []
    else
      var init, last := h[..|h| - 1], h[|h| - 1];
      Exclude(init, name) + if EqualsIgnoreCase(last.name, name) then [] else [last]
  }

  /** An entry is kept if and only if it was there and its name does not
      match. */
  lemma {:induction false} ExcludeMembers(h: seq<Entry>, name: string)
    ensures forall e :: e in Exclude(h, name) <==> e in h && !EqualsIgnoreCase(e.name, name)
    decreases |h|
  {
    if h != [] {
      var init, last := h[..|h| - 1], h[|h| - 1];
      ExcludeMembers(init, name);
      assert h == init + [last];
    }
  }

  /** Filtering a well-formed map yields a well-formed map. */
  lemma {:induction false} ExcludeWellFormed(h: HeaderMap, name: string)
    ensures WellFormed(Exclude(h, name))
    decreases |h|
  {
    if h != [] {
      var init: HeaderMap, last := h[..|h| - 1], h[|h| - 1];
      ExcludeWellFormed(init, name);
      ExcludeMembers(init, name);
      var kept := Exclude(init, name);
      forall i | 0 <= i < |kept| ensures !EqualsIgnoreCase(kept[i].name, last.name) {
        assert kept[i] in kept;
        var k :| 0 <= k < |init| && init[k] == kept[i];
        assert h[k] == kept[i];
      }
    }
  }

  /** The filtered map has no entry named `name` in any spelling. */
  lemma ExcludeHasNoName(h: seq<Entry>, name: string, n: string)
    requires EqualsIgnoreCase(n, name)
    ensures !HasName(Exclude(h, name), n)
  {
    var r := Exclude(h, name);
    ExcludeMembers(h, name);
    forall k | 0 <= k < |r| ensures !EqualsIgnoreCase(r[k].name, n) {
      assert r[k] in r;
    }
  }

  /** The filter is a homomorphism for concatenation, so it keeps order. */
  lemma {:induction false} ExcludeConcat(a: seq<Entry>, b: seq<Entry>, name: string)
    ensures Exclude(a + b, name) == Exclude(a, name) + Exclude(b, name)
    decreases |b|
  {
    if b == [] {
      assert a + b == a;
    } else {
      var init := b[..|b| - 1];
      assert (a + b)[..|a + b| - 1] == a + init;
      ExcludeConcat(a, init, name);
    }
  }

  /** A map without a matching entry passes the filter unchanged. */
  lemma {:induction false} ExcludeUnchanged(h: seq<Entry>, name: string)
    requires !HasName(h, name)
    ensures Exclude(h, name) == h
    decreases |h|
  {
    if h != [] {
      var init, last := h[..|h| - 1], h[|h| - 1];
      forall k | 0 <= k < |init| ensures !EqualsIgnoreCase(init[k].name, name) {
        assert init[k] == h[k];
      }
      ExcludeUnchanged(init, name);
      assert init + [last] == h;
    }
  }

  /** The filter changes a map exactly when the map has a matching entry. */
  lemma ExcludeIdentity(h: seq<Entry>, name: string)
    ensures Exclude(h, name) == h <==> !HasName(h, name)
  {
    if HasName(h, name) {
      var k :| 0 <= k < |h| && EqualsIgnoreCase(h[k].name, name);
      ExcludeMembers(h, name);
      assert h[k] in h;
      assert h[k] !in Exclude(h, name);
    } else {
      ExcludeUnchanged(h, name);
    }
  }

  /** Filtering twice is filtering once. */
  lemma ExcludeIdempotent(h: seq<Entry>, name: string)
    ensures Exclude(Exclude(h, name), name) == Exclude(h, name)
  {
    ExcludeHasNoName(h, name, name);
    ExcludeIdentity(Exclude(h, name), name);
  }

  /** Every name other than the excluded one keeps its value list; the excluded
      one is gone. */
  lemma ExcludeGet(h: HeaderMap, name: string, n: string)
    ensures Get(Exclude(h, name), n) == if EqualsIgnoreCase(n, name) then None else Get(h, n)
  {
    ExcludeWellFormed(h, name);
    var r: HeaderMap := Exclude(h, name);
    ExcludeMembers(h, name);
    if EqualsIgnoreCase(n, name) {
      ExcludeHasNoName(h, name, n);
    } else {
      match Find(h, n)
      case Some(i) =>
        assert h[i] in r;
        var j :| 0 <= j < |r| && r[j] == h[i];
        FindUnique(r, n, j);
      case None =>
        forall k | 0 <= k < |r| ensures !EqualsIgnoreCase(r[k].name, n) {
          assert r[k] in r;
          var j :| 0 <= j < |h| && h[j] == r[k];
        }
    }
  }

  /** Filtering out the name of the one matching entry `e` cuts out exactly
      that entry. */
  lemma ExcludeOne(a: seq<Entry>, e: Entry, b: seq<Entry>, name: string)
    requires EqualsIgnoreCase(e.name, name)
    requires Exclude(a, name) == a && Exclude(b, name) == b
    ensures Exclude(a + [e] + b, name) == a + b
  {
    ExcludeConcat(a + [e], b, name);
    ExcludeConcat(a, [e], name);
    ExcludeSingle(e, name);
  }

  lemma ExcludeSingle(e: Entry, name: string)
    requires EqualsIgnoreCase(e.name, name)
    ensures Exclude([e], name) == []
  {
    assert [e][..0] == [];
  }

  /** In a well-formed map, no entry before or after a matching one matches. */
  lemma OnlyMatch(h: HeaderMap, i: nat, name: string)
    requires i < |h| && EqualsIgnoreCase(h[i].name, name)
    ensures !HasName(h[..i], name) && !HasName(h[i + 1..], name)
  {
    var a, b := h[..i], h[i + 1..];
    forall k | 0 <= k < |a| ensures !EqualsIgnoreCase(a[k].name, name) {
      assert a[k] == h[k];
      assert !EqualsIgnoreCase(h[k].name, h[i].name);
    }
    forall k | 0 <= k < |b| ensures !EqualsIgnoreCase(b[k].name, name) {
      assert b[k] == h[i + 1 + k];
      assert !EqualsIgnoreCase(h[i].name, h[i + 1 + k].name);
    }
  }

  /** On a well-formed map, `remove(name)` is the filter. */
  lemma RemoveIsExclude(h: HeaderMap, name: string)
    ensures Remove(h, name) == Exclude(h, name)
  {
    match Find(h, name)
    case Some(i) =>
      OnlyMatch(h, i, name);
      ExcludeAt(h, i, name);
    case None =>
      ExcludeUnchanged(h, name);
  }

  lemma ExcludeAt(h: seq<Entry>, i: nat, name: string)
    requires i < |h| && EqualsIgnoreCase(h[i].name, name)
    requires !HasName(h[..i], name) && !HasName(h[i + 1..], name)
    ensures Exclude(h, name) == h[..i] + h[i + 1..]
  {
    var a, b := h[..i], h[i + 1..];
    ExcludeUnchanged(a, name);
    ExcludeUnchanged(b, name);
    assert h == a + [h[i]] + b;
    ExcludeOne(a, h[i], b, name);
  }

  // ---------------------------------------------------------------------------
  // Requests and responses

  datatype Method = GET | HEAD | POST | PUT | PATCH | DELETE | OPTIONS | TRACE | Extension(token: string)

  /** A request as the proxy receives it: `path` is the request path without
      scheme, authority or query. */
  datatype InboundRequest = InboundRequest(httpMethod: Method, path: string, headers: HeaderMap, body: string)

  /** A request as the proxy sends it to a backend. */
  datatype Request = Request(httpMethod: Method, uri: string, headers: HeaderMap, body: string)

  datatype Response = Response(status: int, headers: HeaderMap, body: string)

  /** `HttpStatusCode.isError`: a 4xx or 5xx status. */
  predicate IsErrorStatus(status: int)
  {
    400 <= status < 600
  }

  /** `WebClient.retrieve().toEntity(...)`: the backend's response as an
      entity, except that a 4xx/5xx status becomes an error signal. */
  function Retrieve(response: Response): Result<Response>
  {
    if IsErrorStatus(response.status) then Failure(ErrorStatus(response.status)) else Success(response)
  }
}
