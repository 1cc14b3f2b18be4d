/**
 * The `supabase` client of lib/supabase.ts: the same operations as the `db` client, but
 * every query is built by `set` on a `URLSearchParams`, bodies are `JSON.stringify(data)`
 * without array wrapping, no cache mode is given, and an ok 204 response yields `null`.
 * Also `auth.getUser`. Filters and the network are modelled as for `db`.
 */
module Supabase {
  import opened Wrappers
  import opened Pairs
  import opened FormUrlEncoded
  import opened SearchParams
  import opened Rest

  /** The options `supabaseFetch` accepts; `body` is the value already given to `JSON.stringify`. */
  datatype FetchOptions = FetchOptions(httpMethod: Option<string>, body: Option<Json>, headers: seq<Pair>)

  /** `JSON.stringify(data)` is `undefined` exactly for `undefined`; otherwise it is the data's JSON. */
  function Stringify(data: Json): (b: Option<Json>)
    ensures b.None? <==> data.Undefined?
    ensures b.Some? ==> b.value == data
  {
    if data.Undefined? then None else Some(data)
  }

  /**
   * The client's base URL and key, read from `NEXT_PUBLIC_SUPABASE_URL` and
   * `NEXT_PUBLIC_SUPABASE_ANON_KEY` with `!`. The non-null assertion only silences the
   * type checker, so an unset variable placed in the URL or a header is the text `undefined`.
   */
  function ReadEnv(url: Option<string>, anonKey: Option<string>): Env
  {
    Env(ReadVar(url, "undefined"), ReadVar(anonKey, "undefined"))
  }

  /**
   * The request `supabaseFetch` sends: the options spread into the `fetch` init with the
   * merged headers, so the method defaults to GET in `fetch`, and no cache mode is set.
   */
  function BuildRequest(env: Env, endpoint: string, options: FetchOptions): (r: Request)
    ensures r.url == RestUrl(env.url, endpoint)
    ensures options.httpMethod.None? ==> r.httpMethod == "GET"
    ensures options.httpMethod.Some? ==> r.httpMethod == options.httpMethod.value
    ensures r.cache == DefaultCache
    ensures r.body == options.body
    ensures r.headers == Headers(env.anonKey, options.headers)
  {
    Request(
      RestUrl(env.url, endpoint),
      if options.httpMethod.Some? then options.httpMethod.value else "GET",
      Headers(env.anonKey, options.headers),
      options.body,
      DefaultCache)
  }

  /**
   * Not ok throws "Supabase error: " and the body text; this test comes first, so an ok
   * 204 yields null without parsing, and any other ok response is parsed as JSON.
   */
  function Classify(resp: Response): (o: Outcome)
    ensures o.Thrown? <==> !resp.ok
    ensures !resp.ok ==> o.message == "Supabase error: " + resp.text
    ensures o.NullResult? <==> resp.ok && resp.status == 204
    ensures o.ParsedJson? <==> resp.ok && resp.status != 204
    ensures o.ParsedJson? ==> o.text == resp.text
  {
    if !resp.ok then Thrown("Supabase error: " + resp.text)
    else if resp.status == 204 then NullResult
    else ParsedJson(resp.text)
  }

  /** `supabaseFetch(endpoint, options)`: the request sent and what the call returns or throws. */
  function Call(env: Env, endpoint: string, options: FetchOptions, server: Request -> Response): (r: (Request, Outcome))
    ensures r.0 == BuildRequest(env, endpoint, options)
    ensures r.1 == Classify(server(r.0))
  {
    var req := BuildRequest(env, endpoint, options);
    (req, Classify(server(req)))
  }

  // ------------------------------------------------------------------ select

  /** The list `select` leaves in its `URLSearchParams`: `set('select', columns)`, then `set` per filter. */
  function SelectParams(columns: string, filters: seq<Pair>): seq<Pair>
  {
    SetAll([("select", columns)], EqPairs(filters))
  }

  /** The query string `select` builds. */
  method SelectQuery(columns: Option<string>, filters: seq<Pair>) returns (query: string)
    ensures query == Serialize(SelectParams(if columns.Some? then columns.value else "*", filters))
  {
    var cols := if columns.Some? then columns.value else "*";
    var params := new Params();
    params.Set("select", cols);
    assert params.list == [("select", cols)];
    for i := 0 to |filters|
      invariant params.list == SetAll([("select", cols)], EqPairs(filters[..i]))
    {
      assert filters[..i + 1][..i] == filters[..i];
      assert EqPairs(filters[..i + 1])[..i] == EqPairs(filters[..i]);
      params.Set(filters[i].0, "eq." + filters[i].1);
    }
    assert filters[..|filters|] == filters;
    query := params.ToString();
  }

  /**
   * Each name occurs at most once; `select` stays the first pair; a filter named `select`
   * replaces the column list in place; every other filter key carries `eq.<value>`.
   */
  lemma SelectParamsSpec(columns: string, filters: seq<Pair>)
    requires DistinctKeys(filters)
    ensures var ps := SelectParams(columns, filters);
      && DistinctKeys(ps)
      && |ps| > 0 && ps[0].0 == "select"
      && Lookup(ps, "select")
         == (if "select" in Keys(filters) then Some("eq." + Lookup(filters, "select").value)
             else Some(columns))
      && forall k :: k in Keys(filters) ==> Lookup(ps, k) == Some("eq." + Lookup(filters, k).value)
  {
    var ps := SelectParams(columns, filters);
    var e := EqPairs(filters);
    EqPairsKeys(filters);
    SetAllDistinct([("select", columns)], e);
    SetAllKeepsFirst([("select", columns)], e);
    SetAllLookup([("select", columns)], e, "select");
    forall k | k in Keys(filters) ensures Lookup(ps, k) == Some("eq." + Lookup(filters, k).value) {
      SetAllLookup([("select", columns)], e, k);
    }
  }

  /**
   * Without a filter named `select`, the list is `select=<columns>` followed by one
   * `key=eq.value` pair per filter, in entry order: N filters give N clauses.
   */
  lemma SelectParamsPlain(columns: string, filters: seq<Pair>)
    requires DistinctKeys(filters) && "select" !in Keys(filters)
    ensures SelectParams(columns, filters) == [("select", columns)] + EqPairs(filters)
    ensures |SelectParams(columns, filters)| == 1 + |filters|
  {
    var e := EqPairs(filters);
    var head := [("select", columns)];
    assert DistinctKeys(e) by {
      EqPairsKeys(filters);
    }
    assert forall i :: 0 <= i < |e| ==> e[i].0 !in Keys(head) by {
      forall i | 0 <= i < |e| ensures e[i].0 !in Keys(head) {
        assert e[i].0 == filters[i].0 == Keys(filters)[i];
      }
    }
    SetAllFresh(head, e);
  }

  /** `supabase.from(table).select(columns, filters)` */
  method Select(env: Env, table: string, columns: Option<string>, filters: seq<Pair>,
                server: Request -> Response)
    returns (sent: Request, result: Outcome)
    ensures sent.url == RestUrl(env.url, table + "?" +
              Serialize(SelectParams(if columns.Some? then columns.value else "*", filters)))
    ensures sent.httpMethod == "GET" && sent.body == None && sent.cache == DefaultCache
    ensures result == Classify(server(sent))
  {
    var query := SelectQuery(columns, filters);
    var r := Call(env, table + "?" + query, FetchOptions(None, None, []), server);
    sent, result := r.0, r.1;
  }

  // ------------------------------------------------------------------ insert

  /** `supabase.from(table).insert(data)`: a POST of `data` itself, never wrapped in an array. */
  method Insert(env: Env, table: string, data: Json, server: Request -> Response)
    returns (sent: Request, result: Outcome)
    ensures sent.url == RestUrl(env.url, table)
    ensures sent.httpMethod == "POST"
    ensures sent.body == Stringify(data)
    ensures result == Classify(server(sent))
  {
    var r := Call(env, table, FetchOptions(Some("POST"), Stringify(data), []), server);
    sent, result := r.0, r.1;
  }

  // ---------------------------------------------------------- update, delete

  /** The list `update` and `delete` leave in their `URLSearchParams`: `set` per filter. */
  function FilterParams(filters: seq<Pair>): seq<Pair>
  {
    SetAll([], EqPairs(filters))
  }

  method FilterQuery(filters: seq<Pair>) returns (query: string)
    ensures query == Serialize(FilterParams(filters))
    ensures Parse(query) == Some(FilterParams(filters))
  {
    var params := new Params();
    for i := 0 to |filters|
      invariant params.list == SetAll([], EqPairs(filters[..i]))
    {
      assert filters[..i + 1][..i] == filters[..i];
      assert EqPairs(filters[..i + 1])[..i] == EqPairs(filters[..i]);
      params.Set(filters[i].0, "eq." + filters[i].1);
    }
    assert filters[..|filters|] == filters;
    query := params.ToString();
  }

  /** For the entries of an object, `set` per filter gives one `key=eq.value` per filter, in order. */
  lemma FilterParamsPlain(filters: seq<Pair>)
    requires DistinctKeys(filters)
    ensures FilterParams(filters) == EqPairs(filters)
  {
    EqPairsKeys(filters);
    SetAllFresh([], EqPairs(filters));
  }

  /** `supabase.from(table).update(data, filters)`: a PATCH with the JSON of `data`. */
  method Update(env: Env, table: string, data: Json, filters: seq<Pair>, server: Request -> Response)
    returns (sent: Request, result: Outcome)
    ensures sent.url == RestUrl(env.url, table + "?" + Serialize(FilterParams(filters)))
    ensures sent.httpMethod == "PATCH"
    ensures sent.body == Stringify(data)
    ensures result == Classify(server(sent))
  {
    var query := FilterQuery(filters);
    var r := Call(env, table + "?" + query, FetchOptions(Some("PATCH"), Stringify(data), []), server);
    sent, result := r.0, r.1;
  }

  /** `supabase.from(table).delete(filters)`: a DELETE with no body. */
  method Delete(env: Env, table: string, filters: seq<Pair>, server: Request -> Response)
    returns (sent: Request, result: Outcome)
    ensures sent.url == RestUrl(env.url, table + "?" + Serialize(FilterParams(filters)))
    ensures sent.httpMethod == "DELETE" && sent.body == None
    ensures result == Classify(server(sent))
  {
    var query := FilterQuery(filters);
    var r := Call(env, table + "?" + query, FetchOptions(Some("DELETE"), None, []), server);
    sent, result := r.0, r.1;
  }

  // ------------------------------------------------------------------ auth

  /** The request `auth.getUser(token)` sends. */
  function GetUserRequest(env: Env, token: string): (r: Request)
    ensures r.url == env.url + "/auth/v1/user" && r.httpMethod == "GET" && r.body == None
    ensures Lookup(r.headers, "Authorization") == Some("Bearer " + token)
    ensures Lookup(r.headers, "apikey") == Some(env.anonKey)
  {
    var h := [("apikey", env.anonKey), ("Authorization", "Bearer " + token)];
    assert Lookup(h[1..], "Authorization") == Some("Bearer " + token);
    Request(env.url + "/auth/v1/user", "GET", h, None, DefaultCache)
  }

  /** `auth.getUser`: `null` whenever the response is not ok, never a thrown error. */
  function GetUserResult(resp: Response): (o: Outcome)
    ensures !o.Thrown?
    ensures o.NullResult? <==> !resp.ok
    ensures resp.ok ==> o == ParsedJson(resp.text)
  {
    if !resp.ok then NullResult else ParsedJson(resp.text)
  }
}
