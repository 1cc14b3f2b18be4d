/**
 * Name–value entry lists: the entries of a plain JavaScript object (`Object.entries`,
 * property assignment, object spread) and the lists the clients build from them.
 */
module Pairs {
  import opened Wrappers

  type Pair = (string, string)

  /** The names of the entries, in order. */
  function Keys(ps: seq<Pair>): (ks: seq<string>)
    ensures |ks| == |ps|
    ensures forall i :: 0 <= i < |ps| ==> ks[i] == ps[i].0
    decreases |ps|
  {
    if ps == [] then [] else [ps[0].0] + Keys(ps[1..])
  }

  /** No name occurs twice, as in the entries of an object. */
  predicate DistinctKeys(ps: seq<Pair>)
  {
    forall i, j :: 0 <= i < j < |ps| ==> ps[i].0 != ps[j].0
  }

  /** The value of the first entry named `k`. */
  function Lookup(ps: seq<Pair>, k: string): (r: Option<string>)
    ensures r.None? <==> k !in Keys(ps)
    decreases |ps|
  {
    if ps == [] then None
    else if ps[0].0 == k then Some(ps[0].1)
    else Lookup(ps[1..], k)
  }

  /** Index of the first entry named `k`. */
  function IndexOf(ps: seq<Pair>, k: string): (i: nat)
    requires k in Keys(ps)
    ensures i < |ps| && ps[i].0 == k
    ensures forall j :: 0 <= j < i ==> ps[j].0 != k
    decreases |ps|
  {
    if ps[0].0 == k then 0 else 1 + IndexOf(ps[1..], k)
  }

  lemma KeysAppend(a: seq<Pair>, b: seq<Pair>)
    ensures Keys(a + b) == Keys(a) + Keys(b)
  {
  }

  /** Number of entries named `k`. */
  function Count(ps: seq<Pair>, k: string): nat
    decreases |ps|
  {
    if ps == [] then 0 else (if ps[0].0 == k then 1 else 0) + Count(ps[1..], k)
  }

  /** The entries whose name is not `k`, in order. */
  function Without(ps: seq<Pair>, k: string): seq<Pair>
    decreases |ps|
  {
    if ps == [] then []
    else if ps[0].0 == k then Without(ps[1..], k)
    else [ps[0]] + Without(ps[1..], k)
  }

  /**
   * `obj[k] = v` on a plain object: an existing property keeps its place and takes
   * the new value, a new one is added at the end.
   */
  function Put(obj: seq<Pair>, k: string, v: string): (r: seq<Pair>)
    ensures Lookup(r, k) == Some(v)
    ensures forall j :: j != k ==> Lookup(r, j) == Lookup(obj, j)
    ensures Keys(r) == if Lookup(obj, k).Some? then Keys(obj) else Keys(obj) + [k]
    decreases |obj|
  {
    if obj == [] then [(k, v)]
    else if obj[0].0 == k then
      PutFirst(obj, k, v);
      [(k, v)] + obj[1..]
    else
      var rest := Put(obj[1..], k, v);
      PutConsLookup(obj, rest, k, v);
      PutConsKeys(obj, rest, k);
      [obj[0]] + rest
  }

  lemma PutFirst(obj: seq<Pair>, k: string, v: string)
    requires obj != [] && obj[0].0 == k
    ensures var r := [(k, v)] + obj[1..];
      && Lookup(r, k) == Some(v)
      && (forall j :: j != k ==> Lookup(r, j) == Lookup(obj, j))
      && Keys(r) == Keys(obj) && k in Keys(obj)
  {
    var r := [(k, v)] + obj[1..];
    assert r[1..] == obj[1..];
    assert Keys(r) == [k] + Keys(obj[1..]);
  }

  lemma PutConsLookup(obj: seq<Pair>, rest: seq<Pair>, k: string, v: string)
    requires obj != [] && obj[0].0 != k
    requires Lookup(rest, k) == Some(v)
    requires forall j :: j != k ==> Lookup(rest, j) == Lookup(obj[1..], j)
    ensures Lookup([obj[0]] + rest, k) == Some(v)
    ensures forall j :: j != k ==> Lookup([obj[0]] + rest, j) == Lookup(obj, j)
  {
    LookupCons(obj[0], rest, k);
    forall j | j != k ensures Lookup([obj[0]] + rest, j) == Lookup(obj, j) {
      LookupCons(obj[0], rest, j);
    }
  }

  lemma PutConsKeys(obj: seq<Pair>, rest: seq<Pair>, k: string)
    requires obj != [] && obj[0].0 != k
    requires Keys(rest) == if Lookup(obj[1..], k).Some? then Keys(obj[1..]) else Keys(obj[1..]) + [k]
    ensures Keys([obj[0]] + rest) == if Lookup(obj, k).Some? then Keys(obj) else Keys(obj) + [k]
  {
    KeysCons(obj[0], rest);
    if Lookup(obj[1..], k).None? {
      assert [obj[0].0] + (Keys(obj[1..]) + [k]) == ([obj[0].0] + Keys(obj[1..])) + [k];
    }
  }

  lemma LookupCons(x: Pair, ps: seq<Pair>, k: string)
    ensures Lookup([x] + ps, k) == if x.0 == k then Some(x.1) else Lookup(ps, k)
  {
    assert ([x] + ps)[1..] == ps;
  }

  lemma KeysCons(x: Pair, ps: seq<Pair>)
    ensures Keys([x] + ps) == [x.0] + Keys(ps)
  {
    assert ([x] + ps)[1..] == ps;
  }

  /** `{...target, ...source}`: the entries of `source` assigned, in order, onto `target`. */
  function Assign(target: seq<Pair>, source: seq<Pair>): seq<Pair>
    decreases |source|
  {
    if source == [] then target
    else Assign(Put(target, source[0].0, source[0].1), source[1..])
  }

  /** Assigning a property keeps the names distinct. */
  lemma {:induction false} PutDistinct(obj: seq<Pair>, k: string, v: string)
    requires DistinctKeys(obj)
    ensures DistinctKeys(Put(obj, k, v))
    decreases |obj|
  {
    if obj != [] {
      DistinctTail(obj);
      if obj[0].0 != k {
        PutDistinct(obj[1..], k, v);
        var r' := Put(obj[1..], k, v);
        assert Lookup(r', obj[0].0) == Lookup(obj[1..], obj[0].0);
        DistinctCons(obj[0], r');
      } else {
        DistinctCons((k, v), obj[1..]);
      }
    }
  }

  lemma DistinctTail(ps: seq<Pair>)
    requires DistinctKeys(ps) && ps != []
    ensures DistinctKeys(ps[1..]) && ps[0].0 !in Keys(ps[1..])
  {
    var t := ps[1..];
    forall j | 0 <= j < |t| ensures Keys(t)[j] != ps[0].0 {
      assert t[j] == ps[j + 1];
    }
  }

  lemma DistinctCons(x: Pair, ps: seq<Pair>)
    requires DistinctKeys(ps) && x.0 !in Keys(ps)
    ensures DistinctKeys([x] + ps)
  {
    var r := [x] + ps;
    forall i, j | 0 <= i < j < |r| ensures r[i].0 != r[j].0 {
      assert r[j] == ps[j - 1];
      assert Keys(ps)[j - 1] == ps[j - 1].0;
      if i > 0 {
        assert r[i] == ps[i - 1];
      }
    }
  }

  /**
   * Spreading the entries of an object (distinct names) over another: a name the source
   * has takes the source's value, every other name keeps the target's; the target's
   * names come first, in their order, and no name is duplicated.
   */
  lemma {:induction false} AssignLookup(target: seq<Pair>, source: seq<Pair>)
    requires DistinctKeys(target) && DistinctKeys(source)
    ensures DistinctKeys(Assign(target, source))
    ensures forall k :: Lookup(Assign(target, source), k)
                       == if k in Keys(source) then Lookup(source, k) else Lookup(target, k)
    ensures Keys(target) <= Keys(Assign(target, source))
    decreases |source|
  {
    if source != [] {
      var t' := Put(target, source[0].0, source[0].1);
      PutDistinct(target, source[0].0, source[0].1);
      var rest := source[1..];
      assert DistinctKeys(rest);
      AssignLookup(t', rest);
      forall k
        ensures Lookup(Assign(target, source), k)
                == if k in Keys(source) then Lookup(source, k) else Lookup(target, k)
      {
        assert Keys(source) == [source[0].0] + Keys(rest);
        if k == source[0].0 {
          forall i | 0 <= i < |rest| ensures Keys(rest)[i] != k {
            assert rest[i] == source[i + 1];
          }
        }
      }
    }
  }
}
