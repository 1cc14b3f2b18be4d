/**
 * Where the two near-duplicate REST clients of lib/db.ts and lib/supabase.ts agree and
 * where they differ: response classification, update/delete queries, select queries,
 * and request bodies.
 */
module ClientDifferences {
  import opened Wrappers
  import opened Pairs
  import opened FormUrlEncoded
  import opened Rest
  import Db
  import Supabase

  /**
   * Both clients throw on a response that is not ok, with their own prefix, and parse an
   * ok response other than 204; on an ok 204 `db` parses the (empty) text where
   * `supabase` yields null.
   */
  lemma ClassifyDifference(resp: Response)
    ensures !resp.ok ==> (Db.Classify(resp) == Thrown("Database error: " + resp.text)
                          && Supabase.Classify(resp) == Thrown("Supabase error: " + resp.text))
    ensures resp.ok && resp.status != 204 ==> Db.Classify(resp) == Supabase.Classify(resp)
    ensures resp.ok && resp.status == 204 ==>
              (Db.Classify(resp) == ParsedJson(resp.text) && Supabase.Classify(resp) == NullResult)
    ensures FetchConsistent(resp) && resp.status == 204 ==> Supabase.Classify(resp) == NullResult
  {
  }

  /**
   * For the entries of an object, `set` (supabase) and `append` (db) build the same
   * filter list, so `update` and `delete` address the same endpoint in both clients.
   */
  lemma FilterQueriesAgree(filters: seq<Pair>)
    requires DistinctKeys(filters)
    ensures Supabase.FilterParams(filters) == EqPairs(filters)
    ensures Serialize(Supabase.FilterParams(filters)) == Serialize(EqPairs(filters))
  {
    Supabase.FilterParamsPlain(filters);
  }

  /** Every column, name and value consists of characters the serializer leaves alone. */
  predicate PlainInput(columns: string, filters: seq<Pair>)
  {
    Plain(columns) && forall i :: 0 <= i < |filters| ==> Plain(filters[i].0) && Plain(filters[i].1)
  }

  /**
   * On input that needs no encoding and holds no filter named `select`, the select
   * queries of both clients are the same string; they differ only by encoding and by
   * `set` replacing a `select` filter.
   */
  lemma SelectQueriesAgreeOnPlainInput(columns: string, filters: seq<Pair>)
    requires PlainInput(columns, filters)
    requires DistinctKeys(filters) && "select" !in Keys(filters)
    ensures Db.SelectQuery(columns, filters) == Serialize(Supabase.SelectParams(columns, filters))
  {
    var list := [("select", columns)] + EqPairs(filters);
    Supabase.SelectParamsPlain(columns, filters);
    PlainSelect();
    PlainSegments("select", columns, filters);
    assert "select" + "=" + columns == "select=" + columns;
    assert SerializeEach(list) == ["select=" + columns] + Db.RawClauses(filters);
    Db.SelectQueryJoin(columns, filters);
  }

  /** On plain input the serialized pairs `name=columns` and `key=eq.value` are the raw clauses. */
  lemma PlainSegments(name: string, columns: string, filters: seq<Pair>)
    requires Plain(name) && PlainInput(columns, filters)
    ensures SerializeEach([(name, columns)] + EqPairs(filters))
            == [name + "=" + columns] + Db.RawClauses(filters)
  {
    var list := [(name, columns)] + EqPairs(filters);
    var segs := SerializeEach(list);
    var raw := [name + "=" + columns] + Db.RawClauses(filters);
    assert |segs| == |raw|;
    SerializePlainPair(name, columns);
    forall i | 1 <= i < |segs| ensures segs[i] == raw[i] {
      PlainSegmentAt(name, columns, filters, i);
    }
  }

  lemma PlainSegmentAt(name: string, columns: string, filters: seq<Pair>, i: nat)
    requires 1 <= i <= |filters|
    requires Plain(filters[i - 1].0) && Plain(filters[i - 1].1)
    ensures SerializeEach([(name, columns)] + EqPairs(filters))[i]
            == ([name + "=" + columns] + Db.RawClauses(filters))[i]
  {
    var list := [(name, columns)] + EqPairs(filters);
    var f := filters[i - 1];
    PlainClause(f.0, f.1);
    assert list[i] == (f.0, "eq." + f.1);
  }

  lemma PlainSelect()
    ensures Plain("select")
  {
    var s := "select";
    forall i | 0 <= i < |s| ensures s[i] as int < 0x80 && Unreserved(s[i] as int) {
      assert 'a' <= s[i] <= 'z';
    }
  }

  lemma PlainClause(key: string, value: string)
    requires Plain(key) && Plain(value)
    ensures SerializePair((key, "eq." + value)) == key + "=eq." + value
  {
    assert Plain("eq.");
    PlainConcat("eq.", value);
    SerializePlainPair(key, "eq." + value);
  }

  /**
   * A `supabase` select parses back to exactly the pairs that were set, whatever the
   * values hold: a value with `&role=eq.admin` in it stays one value (compare
   * `Db.SelectInjection`, where it adds a clause).
   */
  lemma SupabaseSelectKeepsValuesWhole(columns: string, filters: seq<Pair>)
    requires DistinctKeys(filters) && "select" !in Keys(filters)
    ensures Parse(Serialize(Supabase.SelectParams(columns, filters)))
            == Some([("select", columns)] + EqPairs(filters))
  {
    Supabase.SelectParamsPlain(columns, filters);
    ParseSerialize([("select", columns)] + EqPairs(filters));
  }

  /**
   * A single record (anything but an array or `undefined`) goes out wrapped in a
   * one-element array from `db` and unchanged from `supabase`.
   */
  lemma InsertBodiesDiffer(data: Json)
    requires !data.Array? && !data.Undefined?
    ensures Db.InsertBody(data) == Array([data])
    ensures Supabase.Stringify(data) == Some(data)
  {
  }

  /**
   * `db` sends an update body only for truthy data, `supabase` for anything but
   * `undefined`: an update with `null` has no body in `db` and the body `null` in
   * `supabase`.
   */
  lemma UpdateBodiesDiffer(data: Json)
    ensures Truthy(data) ==> Supabase.Stringify(data) == Some(data)
    ensures data == Null ==> !Truthy(data) && Supabase.Stringify(data) == Some(Null)
  {
  }

  /** The clients read the same URL and key exactly when both variables are set. */
  lemma ReadEnvAgrees(url: Option<string>, anonKey: Option<string>)
    ensures Db.ReadEnv(url, anonKey) == Supabase.ReadEnv(url, anonKey) <==> url.Some? && anonKey.Some?
  {
    assert "" != "undefined";
  }

  /**
   * With both variables unset, `db` sends its requests to `/rest/v1/…` with an empty key
   * and `Bearer `, unless the caller's headers override them.
   */
  lemma DbUnsetVariables(endpoint: string, options: Db.FetchOptions)
    requires DistinctKeys(options.headers)
    requires "apikey" !in Keys(options.headers) && "Authorization" !in Keys(options.headers)
    ensures var r := Db.BuildRequest(Db.ReadEnv(None, None), endpoint, options);
      && r.url == "/rest/v1/" + endpoint
      && Lookup(r.headers, "apikey") == Some("")
      && Lookup(r.headers, "Authorization") == Some("Bearer ")
  {
    var env := Db.ReadEnv(None, None);
    assert env == Env("", "");
    var r := Db.BuildRequest(env, endpoint, options);
    assert r.url == "" + "/rest/v1/" + endpoint;
    assert r.headers == Headers("", options.headers);
    assert "Bearer " + "" == "Bearer ";
    HeadersSpec("", options.headers);
  }

  /**
   * With both variables unset, `supabase` sends its requests to `undefined/rest/v1/…`
   * with the key `undefined` and `Bearer undefined`, unless the caller's headers
   * override them.
   */
  lemma SupabaseUnsetVariables(endpoint: string, options: Supabase.FetchOptions)
    requires DistinctKeys(options.headers)
    requires "apikey" !in Keys(options.headers) && "Authorization" !in Keys(options.headers)
    ensures var r := Supabase.BuildRequest(Supabase.ReadEnv(None, None), endpoint, options);
      && r.url == "undefined/rest/v1/" + endpoint
      && Lookup(r.headers, "apikey") == Some("undefined")
      && Lookup(r.headers, "Authorization") == Some("Bearer undefined")
  {
    var env := Supabase.ReadEnv(None, None);
    assert env == Env("undefined", "undefined");
    var r := Supabase.BuildRequest(env, endpoint, options);
    assert r.url == "undefined" + "/rest/v1/" + endpoint;
    assert r.headers == Headers("undefined", options.headers);
    UndefinedBase();
    assert "Bearer " + "undefined" == "Bearer undefined";
    HeadersSpec("undefined", options.headers);
  }

  lemma UndefinedBase()
    ensures "undefined" + "/rest/v1/" == "undefined/rest/v1/"
  {
  }
}
