/**
 * `URLSearchParams` (section 6.2 of the WHATWG URL Standard) as the clients use it:
 * an object holding a list of name–value pairs, changed by `append` and `set` and
 * serialized by `toString`.
 */
module SearchParams {
  import opened Wrappers
  import opened Pairs
  import opened FormUrlEncoded

  /**
   * `set(name, value)` on a list: when the list holds pairs named `name`, the first of
   * them takes `value` in its place and the others are removed; otherwise the pair is
   * appended.
   */
  function SetParam(list: seq<Pair>, name: string, value: string): seq<Pair>
  {
    if name in Keys(list) then ReplaceFirst(list, name, value) else list + [(name, value)]
  }

  function ReplaceFirst(list: seq<Pair>, name: string, value: string): seq<Pair>
    decreases |list|
  {
    if list == [] then []
    else if list[0].0 == name then [(name, value)] + Without(list[1..], name)
    else [list[0]] + ReplaceFirst(list[1..], name, value)
  }

  /** `set` applied for each entry in order; the builders' loops compute this. */
  function SetAll(list: seq<Pair>, entries: seq<Pair>): seq<Pair>
    decreases |entries|
  {
    if entries == [] then list
    else
      var n := |entries| - 1;
      SetParam(SetAll(list, entries[..n]), entries[n].0, entries[n].1)
  }

  lemma {:induction false} WithoutNone(ps: seq<Pair>, k: string)
    ensures k !in Keys(Without(ps, k))
    ensures Count(Without(ps, k), k) == 0
    ensures Without(Without(ps, k), k) == Without(ps, k)
    decreases |ps|
  {
    if ps != [] {
      WithoutNone(ps[1..], k);
    }
  }

  lemma {:induction false} WithoutAbsent(ps: seq<Pair>, k: string)
    requires k !in Keys(ps)
    ensures Without(ps, k) == ps
    decreases |ps|
  {
    if ps != [] {
      assert Keys(ps) == [ps[0].0] + Keys(ps[1..]);
      WithoutAbsent(ps[1..], k);
    }
  }

  lemma {:induction false} ReplaceFirstSpec(list: seq<Pair>, name: string, value: string)
    requires name in Keys(list)
    ensures var r := ReplaceFirst(list, name, value);
      && Count(r, name) == 1
      && Lookup(r, name) == Some(value)
      && Without(r, name) == Without(list, name)
      && name in Keys(r) && IndexOf(r, name) == IndexOf(list, name)
    decreases |list|
  {
    var r := ReplaceFirst(list, name, value);
    if list[0].0 == name {
      WithoutNone(list[1..], name);
      assert r[1..] == Without(list[1..], name);
    } else {
      assert Keys(list) == [list[0].0] + Keys(list[1..]);
      ReplaceFirstSpec(list[1..], name, value);
      assert r[1..] == ReplaceFirst(list[1..], name, value);
    }
  }

  /**
   * What `set` promises: exactly one pair carries the name, with the new value; the
   * pairs with other names keep their order; an existing name keeps its position, a
   * new one goes at the end.
   */
  lemma SetParamSpec(list: seq<Pair>, name: string, value: string)
    ensures var r := SetParam(list, name, value);
      && Count(r, name) == 1
      && Lookup(r, name) == Some(value)
      && Without(r, name) == Without(list, name)
      && name in Keys(r)
      && (name in Keys(list) ==> IndexOf(r, name) == IndexOf(list, name))
      && (name !in Keys(list) ==> r == list + [(name, value)])
  {
    if name in Keys(list) {
      ReplaceFirstSpec(list, name, value);
    } else {
      var r := list + [(name, value)];
      KeysAppend(list, [(name, value)]);
      CountAppend(list, [(name, value)], name);
      WithoutAppend(list, [(name, value)], name);
      WithoutAbsent(list, name);
      CountAbsent(list, name);
      LookupAppend(list, [(name, value)], name);
    }
  }

  lemma {:induction false} CountAppend(a: seq<Pair>, b: seq<Pair>, k: string)
    ensures Count(a + b, k) == Count(a, k) + Count(b, k)
    decreases |a|
  {
    if a == [] {
      assert a + b == b;
    }
    if a != [] {
      assert (a + b)[1..] == a[1..] + b;
      CountAppend(a[1..], b, k);
    }
  }

  lemma {:induction false} CountAbsent(a: seq<Pair>, k: string)
    requires k !in Keys(a)
    ensures Count(a, k) == 0
    decreases |a|
  {
    if a != [] {
      assert Keys(a) == [a[0].0] + Keys(a[1..]);
      CountAbsent(a[1..], k);
    }
  }

  lemma {:induction false} WithoutAppend(a: seq<Pair>, b: seq<Pair>, k: string)
    ensures Without(a + b, k) == Without(a, k) + Without(b, k)
    decreases |a|
  {
    if a == [] {
      assert a + b == b;
    }
    if a != [] {
      assert (a + b)[1..] == a[1..] + b;
      WithoutAppend(a[1..], b, k);
    }
  }

  lemma {:induction false} LookupAppend(a: seq<Pair>, b: seq<Pair>, k: string)
    requires k !in Keys(a)
    ensures Lookup(a + b, k) == Lookup(b, k)
    decreases |a|
  {
    if a == [] {
      assert a + b == b;
    }
    if a != [] {
      assert (a + b)[1..] == a[1..] + b;
      assert Keys(a) == [a[0].0] + Keys(a[1..]);
      LookupAppend(a[1..], b, k);
    }
  }

  /** On a list with distinct names, `set` overwrites the pair in place or appends. */
  lemma {:induction false} SetParamDistinct(list: seq<Pair>, name: string, value: string)
    requires DistinctKeys(list)
    ensures name in Keys(list) ==>
      SetParam(list, name, value) == list[IndexOf(list, name) := (name, value)]
    ensures name !in Keys(list) ==> SetParam(list, name, value) == list + [(name, value)]
    ensures DistinctKeys(SetParam(list, name, value))
    decreases |list|
  {
    if name in Keys(list) {
      ReplaceFirstDistinct(list, name, value);
    } else {
      var r := list + [(name, value)];
      forall i, j | 0 <= i < j < |r| ensures r[i].0 != r[j].0 {
        if j == |list| {
          assert Keys(list)[i] == r[i].0;
        }
      }
    }
  }

  lemma {:induction false} ReplaceFirstDistinct(list: seq<Pair>, name: string, value: string)
    requires DistinctKeys(list) && name in Keys(list)
    ensures ReplaceFirst(list, name, value) == list[IndexOf(list, name) := (name, value)]
    decreases |list|
  {
    if list[0].0 == name {
      ReplaceFirstAtHead(list, name, value);
    } else {
      var rest := list[1..];
      DistinctTail(list);
      KeysCons(list[0], rest);
      assert list == [list[0]] + rest;
      ReplaceFirstDistinct(rest, name, value);
      ReplaceFirstPastHead(list, name, value);
    }
  }

  /** The first pair carries the name, and no other pair does: it alone changes. */
  lemma ReplaceFirstAtHead(list: seq<Pair>, name: string, value: string)
    requires DistinctKeys(list) && list != [] && list[0].0 == name
    ensures name in Keys(list) && IndexOf(list, name) == 0
    ensures ReplaceFirst(list, name, value) == list[0 := (name, value)]
  {
    DistinctTail(list);
    WithoutAbsent(list[1..], name);
    assert ReplaceFirst(list, name, value) == [(name, value)] + list[1..];
  }

  /** Past a first pair with another name, the replacement happens one place further on. */
  lemma ReplaceFirstPastHead(list: seq<Pair>, name: string, value: string)
    requires list != [] && list[0].0 != name && name in Keys(list[1..])
    requires ReplaceFirst(list[1..], name, value) == list[1..][IndexOf(list[1..], name) := (name, value)]
    ensures name in Keys(list)
    ensures ReplaceFirst(list, name, value) == list[IndexOf(list, name) := (name, value)]
  {
    var rest := list[1..];
    var i := IndexOf(rest, name);
    assert list == [list[0]] + rest;
    assert Keys(list)[i + 1] == name;
    assert IndexOf(list, name) == i + 1;
    assert ReplaceFirst(list, name, value) == [list[0]] + rest[i := (name, value)];
    ConsUpdate(list[0], rest, i, (name, value));
  }

  lemma ConsUpdate(x: Pair, rest: seq<Pair>, i: nat, p: Pair)
    requires i < |rest|
    ensures [x] + rest[i := p] == ([x] + rest)[i + 1 := p]
  {
  }

  /** Setting entries one after another keeps the names distinct: each name at most once. */
  lemma {:induction false} SetAllDistinct(list: seq<Pair>, entries: seq<Pair>)
    requires DistinctKeys(list)
    ensures DistinctKeys(SetAll(list, entries))
    decreases |entries|
  {
    if entries != [] {
      var n := |entries| - 1;
      SetAllDistinct(list, entries[..n]);
      SetParamDistinct(SetAll(list, entries[..n]), entries[n].0, entries[n].1);
    }
  }

  /** Dropping the last pair of a list with distinct names: the rest is distinct and lacks its name. */
  lemma DistinctInit(ps: seq<Pair>)
    requires DistinctKeys(ps) && ps != []
    ensures DistinctKeys(ps[..|ps| - 1]) && ps[|ps| - 1].0 !in Keys(ps[..|ps| - 1])
  {
    var n := |ps| - 1;
    var init := ps[..n];
    forall i | 0 <= i < n ensures Keys(init)[i] != ps[n].0 {
      assert init[i] == ps[i];
    }
  }

  /** Looking up in a list extended by a pair whose name it lacks. */
  lemma LookupSnoc(init: seq<Pair>, last: Pair, k: string)
    requires last.0 !in Keys(init)
    ensures k in Keys(init + [last]) <==> k in Keys(init) || k == last.0
    ensures Lookup(init + [last], k) == if k == last.0 then Some(last.1) else Lookup(init, k)
  {
    KeysAppend(init, [last]);
    if k == last.0 {
      LookupAppend(init, [last], k);
    } else if k in Keys(init) {
      LookupPrefix(init, [last], k);
    } else {
      LookupAppend(init, [last], k);
    }
  }

  /**
   * Setting entries with distinct names, none of them already in a list with distinct
   * names, appends them in order.
   */
  lemma {:induction false} SetAllFresh(list: seq<Pair>, entries: seq<Pair>)
    requires DistinctKeys(list) && DistinctKeys(entries)
    requires forall i :: 0 <= i < |entries| ==> entries[i].0 !in Keys(list)
    ensures SetAll(list, entries) == list + entries
    decreases |entries|
  {
    if entries != [] {
      var n := |entries| - 1;
      var prefix := entries[..n];
      var last := entries[n];
      var before := list + prefix;
      assert SetAll(list, prefix) == before && DistinctKeys(before) by {
        DistinctInit(entries);
        forall i | 0 <= i < |prefix| ensures prefix[i].0 !in Keys(list) {
          assert prefix[i] == entries[i];
        }
        SetAllFresh(list, prefix);
        SetAllDistinct(list, prefix);
      }
      assert SetParam(before, last.0, last.1) == before + [last] by {
        DistinctInit(entries);
        AppendFresh(list, prefix, last);
      }
      assert before + [last] == list + entries by {
        assert prefix + [last] == entries;
      }
    }
  }

  /** `set` of a name that neither part of a list carries appends it, keeping the names distinct. */
  lemma AppendFresh(list: seq<Pair>, prefix: seq<Pair>, last: Pair)
    requires DistinctKeys(list + prefix)
    requires last.0 !in Keys(list) && last.0 !in Keys(prefix)
    ensures SetParam(list + prefix, last.0, last.1) == (list + prefix) + [last]
  {
    KeysAppend(list, prefix);
    SetParamDistinct(list + prefix, last.0, last.1);
  }

  /**
   * After setting entries with distinct names, a name the entries carry has the entry's
   * value; any other name keeps the value it had.
   */
  lemma {:induction false} SetAllLookup(list: seq<Pair>, entries: seq<Pair>, k: string)
    requires DistinctKeys(entries)
    ensures Lookup(SetAll(list, entries), k)
            == if k in Keys(entries) then Lookup(entries, k) else Lookup(list, k)
    decreases |entries|
  {
    if entries != [] {
      var n := |entries| - 1;
      var prefix := entries[..n];
      var last := entries[n];
      DistinctInit(entries);
      SetAllLookup(list, prefix, k);
      var before := SetAll(list, prefix);
      assert SetAll(list, entries) == SetParam(before, last.0, last.1);
      assert prefix + [last] == entries;
      LookupSnoc(prefix, last, k);
      if k == last.0 {
        SetParamSpec(before, last.0, last.1);
      } else {
        SetParamLookupOther(before, last.0, last.1, k);
      }
    }
  }

  lemma {:induction false} LookupPrefix(a: seq<Pair>, b: seq<Pair>, k: string)
    requires k in Keys(a)
    ensures Lookup(a + b, k) == Lookup(a, k)
    decreases |a|
  {
    assert (a + b)[1..] == a[1..] + b;
    if a[0].0 != k {
      assert Keys(a) == [a[0].0] + Keys(a[1..]);
      LookupPrefix(a[1..], b, k);
    }
  }

  lemma {:induction false} SetParamLookupOther(list: seq<Pair>, name: string, value: string, k: string)
    requires k != name
    ensures Lookup(SetParam(list, name, value), k) == Lookup(list, k)
  {
    if name in Keys(list) {
      ReplaceFirstLookupOther(list, name, value, k);
    } else if k in Keys(list) {
      LookupPrefix(list, [(name, value)], k);
    } else {
      LookupAppend(list, [(name, value)], k);
    }
  }

  lemma {:induction false} ReplaceFirstLookupOther(list: seq<Pair>, name: string, value: string, k: string)
    requires k != name
    ensures Lookup(ReplaceFirst(list, name, value), k) == Lookup(list, k)
    decreases |list|
  {
    if list != [] {
      if list[0].0 == name {
        WithoutLookup(list[1..], name, k);
      } else {
        ReplaceFirstLookupOther(list[1..], name, value, k);
      }
    }
  }

  lemma {:induction false} WithoutLookup(ps: seq<Pair>, name: string, k: string)
    requires k != name
    ensures Lookup(Without(ps, name), k) == Lookup(ps, k)
    decreases |ps|
  {
    if ps != [] {
      WithoutLookup(ps[1..], name, k);
    }
  }

  /** Setting entries never moves a pair of a list with distinct names: the first pair stays first. */
  lemma {:induction false} SetAllKeepsFirst(list: seq<Pair>, entries: seq<Pair>)
    requires DistinctKeys(list) && |list| > 0
    ensures |SetAll(list, entries)| > 0 && SetAll(list, entries)[0].0 == list[0].0
    decreases |entries|
  {
    if entries != [] {
      var n := |entries| - 1;
      SetAllKeepsFirst(list, entries[..n]);
      SetAllDistinct(list, entries[..n]);
      SetParamDistinct(SetAll(list, entries[..n]), entries[n].0, entries[n].1);
    }
  }

  /** A `URLSearchParams` object; `list` is its list of name–value pairs. */
  class Params {
    var list: seq<Pair>

    /** `new URLSearchParams()` */
    constructor ()
      ensures list == []
    {
      list := [];
    }

    /** `append(name, value)` */
    method Append(name: string, value: string)
      modifies this
      ensures list == old(list) + [(name, value)]
    {
      list := list + [(name, value)];
    }

    /** `set(name, value)` */
    method Set(name: string, value: string)
      modifies this
      ensures list == SetParam(old(list), name, value)
    {
      list := SetParam(list, name, value);
    }

    /** `toString()`: the serialized list, from which the parser recovers the list exactly. */
    function ToString(): (s: string)
      reads this
      ensures Parse(s) == Some(list)
    {
      ParseSerialize(list);
      Serialize(list)
    }
  }
}
