/**
 * What the two REST clients share: the values they send as JSON, the default headers
 * and their merge with the caller's, the request sent to the data service's REST
 * endpoint, the response it answers with, and what a call returns or throws.
 */
module Rest {
  import opened Wrappers
  import opened Pairs

  /** A JavaScript value handed to `JSON.stringify` (numbers as reals; NaN is not modelled). */
  datatype Json =
    | Undefined
    | Null
    | Bool(b: bool)
    | Number(n: real)
    | Str(s: string)
    | Array(items: seq<Json>)
    | Object(members: seq<(string, Json)>)

  /** ECMAScript ToBoolean: `undefined`, `null`, `false`, `0` and `''` are falsy. */
  predicate Truthy(v: Json)
  {
    match v
    case Undefined => false
    case Null => false
    case Bool(b) => b
    case Number(n) => n != 0.0
    case Str(s) => s != ""
    case Array(_) => true
    case Object(_) => true
  }

  /** The service's base URL and anonymous key, as read from the environment. */
  datatype Env = Env(url: string, anonKey: string)

  /**
   * An environment variable as a client reads it: its value when set, otherwise the
   * text the client's fallback produces (`None` is an unset variable).
   */
  function ReadVar(v: Option<string>, unset: string): (s: string)
    ensures v.Some? ==> s == v.value
    ensures v.None? ==> s == unset
  {
    if v.Some? then v.value else unset
  }

  function DefaultHeaders(anonKey: string): seq<Pair>
  {
    [ ("apikey", anonKey),
      ("Authorization", "Bearer " + anonKey),
      ("Content-Type", "application/json"),
      ("Prefer", "return=representation") ]
  }

  /** `{ ...defaults, ...options.headers }` */
  function Headers(anonKey: string, caller: seq<Pair>): seq<Pair>
  {
    Assign(DefaultHeaders(anonKey), caller)
  }

  /**
   * The merged headers name each header once, start with the four defaults in their
   * order, and carry the caller's value for a name the caller gives (compared exactly,
   * case included) and the default value for the others.
   */
  lemma HeadersSpec(anonKey: string, caller: seq<Pair>)
    requires DistinctKeys(caller)
    ensures DistinctKeys(Headers(anonKey, caller))
    ensures ["apikey", "Authorization", "Content-Type", "Prefer"] <= Keys(Headers(anonKey, caller))
    ensures forall k :: Lookup(Headers(anonKey, caller), k)
                       == if k in Keys(caller) then Lookup(caller, k)
                          else Lookup(DefaultHeaders(anonKey), k)
    ensures "apikey" !in Keys(caller) ==> Lookup(Headers(anonKey, caller), "apikey") == Some(anonKey)
    ensures "Authorization" !in Keys(caller) ==>
              Lookup(Headers(anonKey, caller), "Authorization") == Some("Bearer " + anonKey)
    ensures "Content-Type" !in Keys(caller) ==>
              Lookup(Headers(anonKey, caller), "Content-Type") == Some("application/json")
    ensures "Prefer" !in Keys(caller) ==>
              Lookup(Headers(anonKey, caller), "Prefer") == Some("return=representation")
  {
    var d := DefaultHeaders(anonKey);
    var h := Headers(anonKey, caller);
    DefaultHeadersFacts(anonKey);
    AssignLookup(d, caller);
    assert Lookup(h, "apikey") == if "apikey" in Keys(caller) then Lookup(caller, "apikey") else Lookup(d, "apikey");
    assert Lookup(h, "Authorization") == if "Authorization" in Keys(caller) then Lookup(caller, "Authorization") else Lookup(d, "Authorization");
    assert Lookup(h, "Content-Type") == if "Content-Type" in Keys(caller) then Lookup(caller, "Content-Type") else Lookup(d, "Content-Type");
    assert Lookup(h, "Prefer") == if "Prefer" in Keys(caller) then Lookup(caller, "Prefer") else Lookup(d, "Prefer");
  }

  lemma DefaultHeadersFacts(anonKey: string)
    ensures Keys(DefaultHeaders(anonKey)) == ["apikey", "Authorization", "Content-Type", "Prefer"]
    ensures DistinctKeys(DefaultHeaders(anonKey))
    ensures Lookup(DefaultHeaders(anonKey), "apikey") == Some(anonKey)
    ensures Lookup(DefaultHeaders(anonKey), "Authorization") == Some("Bearer " + anonKey)
    ensures Lookup(DefaultHeaders(anonKey), "Content-Type") == Some("application/json")
    ensures Lookup(DefaultHeaders(anonKey), "Prefer") == Some("return=representation")
  {
    var d := DefaultHeaders(anonKey);
    var d2 := d[1..][1..];
    assert d2 == [("Content-Type", "application/json"), ("Prefer", "return=representation")];
    assert Lookup(d2, "Content-Type") == Some("application/json");
    assert Lookup(d2[1..], "Prefer") == Some("return=representation");
    assert Lookup(d[1..], "Content-Type") == Lookup(d2, "Content-Type");
    assert Lookup(d[1..], "Prefer") == Lookup(d2, "Prefer") == Lookup(d2[1..], "Prefer");
  }

  /** `${SUPABASE_URL}/rest/v1/${endpoint}` */
  function RestUrl(base: string, endpoint: string): (url: string)
    ensures |url| == |base| + 9 + |endpoint|
    ensures url[..|base|] == base && url[|base|..|base| + 9] == "/rest/v1/"
    ensures url[|base| + 9..] == endpoint
  {
    base + "/rest/v1/" + endpoint
  }

  datatype Cache = DefaultCache | NoStore

  /** A request as `fetch` sends it; `body` is the value whose JSON text is sent, if any. */
  datatype Request = Request(
    url: string, httpMethod: string, headers: seq<Pair>, body: Option<Json>, cache: Cache)

  /** A response, reduced to what the clients read: `ok`, `status` and the body text. */
  datatype Response = Response(ok: bool, status: int, text: string)

  /** `fetch` sets `ok` exactly for the statuses 200 to 299. */
  predicate FetchConsistent(r: Response)
  {
    r.ok <==> 200 <= r.status <= 299
  }

  /** What a call ends in: a thrown `Error`, `null`, or the JSON parse of the body text. */
  datatype Outcome = Thrown(message: string) | NullResult | ParsedJson(text: string)

  /** Each filter `key: value` as the pair `(key, "eq." + value)`, in entry order. */
  function EqPairs(filters: seq<Pair>): (ps: seq<Pair>)
    ensures |ps| == |filters|
    ensures forall i :: 0 <= i < |filters| ==> ps[i] == (filters[i].0, "eq." + filters[i].1)
    decreases |filters|
  {
    if filters == [] then []
    else
      var n := |filters| - 1;
      EqPairs(filters[..n]) + [(filters[n].0, "eq." + filters[n].1)]
  }

  lemma EqPairsKeys(filters: seq<Pair>)
    ensures Keys(EqPairs(filters)) == Keys(filters)
    ensures DistinctKeys(filters) ==> DistinctKeys(EqPairs(filters))
    ensures forall k :: k in Keys(filters) ==> Lookup(EqPairs(filters), k) == Some("eq." + Lookup(filters, k).value)
  {
    var e := EqPairs(filters);
    forall k | k in Keys(filters)
      ensures Lookup(e, k) == Some("eq." + Lookup(filters, k).value)
    {
      EqPairsLookup(filters, k);
    }
  }

  lemma {:induction false} EqPairsLookup(filters: seq<Pair>, k: string)
    requires k in Keys(filters)
    ensures Lookup(EqPairs(filters), k) == Some("eq." + Lookup(filters, k).value)
    decreases |filters|
  {
    var e := EqPairs(filters);
    if filters[0].0 != k {
      assert Keys(filters) == [filters[0].0] + Keys(filters[1..]);
      assert e[1..] == EqPairs(filters[1..]);
      EqPairsLookup(filters[1..], k);
    }
  }
}
