/**
 * The `db` client of lib/db.ts: builds REST endpoints from a table name, a column list
 * and equality filters, sends them through `supabaseFetch`, and turns the response into
 * a result or a thrown error.
 *
 * Filters are the entries `Object.entries(filters)` yields, in that order, each value
 * already converted to its string form (`${value}`). The network is a parameter
 * `server` that answers each request with a response.
 */
module Db {
  import opened Wrappers
  import opened Strings
  import opened Pairs
  import opened FormUrlEncoded
  import opened SearchParams
  import opened Rest

  /** The options `supabaseFetch` accepts; absent fields are `None`/`Undefined`/empty. */
  datatype FetchOptions = FetchOptions(httpMethod: Option<string>, body: Json, headers: seq<Pair>)

  /**
   * The client's base URL and key, read from `NEXT_PUBLIC_SUPABASE_URL` and
   * `NEXT_PUBLIC_SUPABASE_ANON_KEY` with `|| ''`: an unset variable gives the empty string.
   */
  function ReadEnv(url: Option<string>, anonKey: Option<string>): Env
  {
    Env(ReadVar(url, ""), ReadVar(anonKey, ""))
  }

  /**
   * The request `supabaseFetch` sends: `GET` unless a non-empty method is given, the
   * cache always bypassed, a JSON body only for a truthy `options.body`.
   */
  function BuildRequest(env: Env, endpoint: string, options: FetchOptions): (r: Request)
    ensures r.url == RestUrl(env.url, endpoint)
    ensures r.httpMethod != ""
    ensures options.httpMethod.None? || options.httpMethod.value == "" ==> r.httpMethod == "GET"
    ensures options.httpMethod.Some? && options.httpMethod.value != "" ==> r.httpMethod == options.httpMethod.value
    ensures r.cache == NoStore
    ensures r.body.Some? <==> Truthy(options.body)
    ensures r.body.Some? ==> r.body.value == options.body
    ensures r.headers == Headers(env.anonKey, options.headers)
  {
    Request(
      RestUrl(env.url, endpoint),
      if options.httpMethod.Some? && options.httpMethod.value != "" then options.httpMethod.value else "GET",
      Headers(env.anonKey, options.headers),
      if Truthy(options.body) then Some(options.body) else None,
      NoStore)
  }

  /**
   * A response that is not ok always throws "Database error: " and its text, and is never
   * parsed; an ok response is always parsed as JSON, 204 included.
   */
  function Classify(resp: Response): (o: Outcome)
    ensures o.Thrown? <==> !resp.ok
    ensures !resp.ok ==> o.message == "Database error: " + resp.text
    ensures resp.ok ==> o == ParsedJson(resp.text)
    ensures !o.NullResult?
  {
    if !resp.ok then Thrown("Database error: " + resp.text) else ParsedJson(resp.text)
  }

  /** `supabaseFetch(endpoint, options)`: the request sent and what the call returns or throws. */
  function Call(env: Env, endpoint: string, options: FetchOptions, server: Request -> Response): (r: (Request, Outcome))
    ensures r.0 == BuildRequest(env, endpoint, options)
    ensures r.1 == Classify(server(r.0))
  {
    var req := BuildRequest(env, endpoint, options);
    (req, Classify(server(req)))
  }

  // ------------------------------------------------------------------ select

  /** `columns = '*'`: the default applies when the argument is omitted. */
  function ColumnsOrStar(columns: Option<string>): string
  {
    if columns.Some? then columns.value else "*"
  }

  /** The query `select` builds: `select=<columns>` then `&<key>=eq.<value>` per filter. */
  function SelectQuery(columns: string, filters: seq<Pair>): string
    decreases |filters|
  {
    if filters == [] then "select=" + columns
    else
      var n := |filters| - 1;
      SelectQuery(columns, filters[..n]) + "&" + filters[n].0 + "=eq." + filters[n].1
  }

  /** The endpoint `select` builds, by appending one clause per filter. */
  method SelectEndpoint(table: string, columns: Option<string>, filters: seq<Pair>)
    returns (endpoint: string)
    ensures endpoint == table + "?" + SelectQuery(ColumnsOrStar(columns), filters)
    ensures columns.None? && filters == [] ==> endpoint == table + "?select=*"
  {
    var cols := ColumnsOrStar(columns);
    endpoint := table + "?select=" + cols;
    for i := 0 to |filters|
      invariant endpoint == table + "?" + SelectQuery(cols, filters[..i])
    {
      assert filters[..i + 1][..i] == filters[..i];
      endpoint := endpoint + "&" + filters[i].0 + "=eq." + filters[i].1;
    }
    assert filters[..|filters|] == filters;
  }

  /** `db.from(table).select(columns, filters)` */
  method Select(env: Env, table: string, columns: Option<string>, filters: seq<Pair>,
                server: Request -> Response)
    returns (sent: Request, result: Outcome)
    ensures sent.url == RestUrl(env.url, table + "?" + SelectQuery(ColumnsOrStar(columns), filters))
    ensures sent.httpMethod == "GET" && sent.body == None && sent.cache == NoStore
    ensures sent.headers == Headers(env.anonKey, [])
    ensures result == Classify(server(sent))
  {
    var endpoint := SelectEndpoint(table, columns, filters);
    var r := Call(env, endpoint, FetchOptions(None, Undefined, []), server);
    sent, result := r.0, r.1;
  }

  /** The clause `<key>=eq.<value>` for each filter, unencoded. */
  function RawClauses(filters: seq<Pair>): (cs: seq<string>)
    ensures |cs| == |filters|
    ensures forall i :: 0 <= i < |filters| ==> cs[i] == filters[i].0 + "=eq." + filters[i].1
  {
    seq(|filters|, i requires 0 <= i < |filters| => filters[i].0 + "=eq." + filters[i].1)
  }

  /** Dropping the last filter drops the last clause. */
  lemma RawClausesSnoc(filters: seq<Pair>)
    requires filters != []
    ensures RawClauses(filters)
            == RawClauses(filters[..|filters| - 1]) + [filters[|filters| - 1].0 + "=eq." + filters[|filters| - 1].1]
  {
    var n := |filters| - 1;
    var lhs := RawClauses(filters);
    var rhs := RawClauses(filters[..n]) + [filters[n].0 + "=eq." + filters[n].1];
    assert |lhs| == |rhs|;
    forall i | 0 <= i < |lhs|
      ensures lhs[i] == rhs[i]
    {
      if i < n {
        assert filters[..n][i] == filters[i];
      }
    }
  }

  lemma {:induction false} SelectQueryJoin(columns: string, filters: seq<Pair>)
    ensures SelectQuery(columns, filters) == JoinWith(["select=" + columns] + RawClauses(filters), "&")
    decreases |filters|
  {
    if filters != [] {
      var n := |filters| - 1;
      var init := filters[..n];
      var clause := filters[n].0 + "=eq." + filters[n].1;
      var xs := ["select=" + columns] + RawClauses(init);
      calc {
        SelectQuery(columns, filters);
        SelectQuery(columns, init) + "&" + clause;
        { SelectQueryJoin(columns, init); }
        JoinWith(xs, "&") + "&" + clause;
        { JoinWithSnoc(xs, clause, "&"); }
        JoinWith(xs + [clause], "&");
        { RawClausesSnoc(filters); assert xs + [clause] == ["select=" + columns] + RawClauses(filters); }
        JoinWith(["select=" + columns] + RawClauses(filters), "&");
      }
    }
  }

  /** No `&` in the column list, a filter name or a filter value. */
  predicate NoAmpersand(columns: string, filters: seq<Pair>)
  {
    '&' !in columns && forall i :: 0 <= i < |filters| ==> '&' !in filters[i].0 && '&' !in filters[i].1
  }

  /**
   * When no column, name or value holds an `&`, the `&`-separated pieces of the select
   * query are `select=<columns>` and then exactly one `<key>=eq.<value>` per filter, in
   * entry order.
   */
  lemma SelectClauses(columns: string, filters: seq<Pair>)
    requires NoAmpersand(columns, filters)
    ensures SplitOn(SelectQuery(columns, filters), '&') == ["select=" + columns] + RawClauses(filters)
    ensures |SplitOn(SelectQuery(columns, filters), '&')| == 1 + |filters|
  {
    SelectQueryJoin(columns, filters);
    var parts := ["select=" + columns] + RawClauses(filters);
    forall i | 0 <= i < |parts| ensures '&' !in parts[i] {
      if i > 0 {
        var f := filters[i - 1];
        assert parts[i] == f.0 + "=eq." + f.1;
      }
    }
    SplitJoin(parts, '&');
  }

  /**
   * Values are not encoded: one filter whose value holds `&role=eq.admin` gives the same
   * endpoint as two filters, so a value can add a clause of its own.
   */
  lemma SelectInjection()
    ensures SelectQuery("*", [("name", "a&role=eq.admin")])
            == SelectQuery("*", [("name", "a"), ("role", "admin")])
    ensures |SplitOn(SelectQuery("*", [("name", "a&role=eq.admin")]), '&')| == 3
  {
    var two := [("name", "a"), ("role", "admin")];
    assert two[..1] == [("name", "a")];
    assert NoAmpersand("*", two);
    SelectClauses("*", two);
  }

  // ------------------------------------------------------------------ insert

  /** `Array.isArray(data) ? data : [data]` */
  function InsertBody(data: Json): (b: Json)
    ensures b.Array? && Truthy(b)
    ensures data.Array? ==> b == data
    ensures !data.Array? ==> b.items == [data]
  {
    if data.Array? then data else Array([data])
  }

  /** `db.from(table).insert(data)`: always a POST whose body is an array. */
  method Insert(env: Env, table: string, data: Json, server: Request -> Response)
    returns (sent: Request, result: Outcome)
    ensures sent.url == RestUrl(env.url, table)
    ensures sent.httpMethod == "POST" && sent.cache == NoStore
    ensures sent.body == Some(InsertBody(data))
    ensures result == Classify(server(sent))
  {
    var r := Call(env, table, FetchOptions(Some("POST"), InsertBody(data), []), server);
    sent, result := r.0, r.1;
  }

  // ---------------------------------------------------------- update, delete

  /** The encoded `key=eq.value` list `update` and `delete` append to a `URLSearchParams`. */
  method FilterQuery(filters: seq<Pair>) returns (query: string)
    ensures query == Serialize(EqPairs(filters))
    ensures Parse(query) == Some(EqPairs(filters))
  {
    var params := new Params();
    for i := 0 to |filters|
      invariant params.list == EqPairs(filters[..i])
    {
      assert filters[..i + 1][..i] == filters[..i];
      params.Append(filters[i].0, "eq." + filters[i].1);
    }
    assert filters[..|filters|] == filters;
    query := params.ToString();
  }

  /** `db.from(table).update(data, filters)`: a PATCH with a body only when `data` is truthy. */
  method Update(env: Env, table: string, data: Json, filters: seq<Pair>, server: Request -> Response)
    returns (sent: Request, result: Outcome)
    ensures sent.url == RestUrl(env.url, table + "?" + Serialize(EqPairs(filters)))
    ensures sent.httpMethod == "PATCH" && sent.cache == NoStore
    ensures sent.body == if Truthy(data) then Some(data) else None
    ensures result == Classify(server(sent))
  {
    var query := FilterQuery(filters);
    var endpoint := table + "?" + query;
    var r := Call(env, endpoint, FetchOptions(Some("PATCH"), data, []), server);
    sent, result := r.0, r.1;
  }

  /** `db.from(table).delete(filters)`: a DELETE with no body. */
  method Delete(env: Env, table: string, filters: seq<Pair>, server: Request -> Response)
    returns (sent: Request, result: Outcome)
    ensures sent.url == RestUrl(env.url, table + "?" + Serialize(EqPairs(filters)))
    ensures sent.httpMethod == "DELETE" && sent.body == None && sent.cache == NoStore
    ensures result == Classify(server(sent))
  {
    var query := FilterQuery(filters);
    var endpoint := table + "?" + query;
    var r := Call(env, endpoint, FetchOptions(Some("DELETE"), Undefined, []), server);
    sent, result := r.0, r.1;
  }
}
