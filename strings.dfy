/**
 * `String.prototype.split` with a one-character separator and `Array.prototype.join`,
 * as the parsers and the number formatter use them, and the decimal digits.
 */
module Strings {

  /** An ASCII decimal digit: what `\d` matches in a regular expression without the `u` flag. */
  predicate IsDigit(c: char)
  {
    '0' <= c <= '9'
  }

  /** `s.split(d)`: the pieces between the occurrences of `d`, always at least one. */
  function SplitOn(s: string, d: char): (parts: seq<string>)
    ensures |parts| >= 1
    ensures forall i :: 0 <= i < |parts| ==> d !in parts[i]
    decreases |s|
  {
    if s == [] then [""]
    else
      var rest := SplitOn(s[1..], d);
      if s[0] == d then [""] + rest
      else [[s[0]] + rest[0]] + rest[1..]
  }

  /** `parts.join(sep)` */
  function JoinWith(parts: seq<string>, sep: string): string
    decreases |parts|
  {
    if |parts| == 0 then ""
    else if |parts| == 1 then parts[0]
    else parts[0] + sep + JoinWith(parts[1..], sep)
  }

  /** Concatenation of all pieces (`parts.join('')`). */
  function Concat(parts: seq<string>): string
    decreases |parts|
  {
    if parts == [] then "" else parts[0] + Concat(parts[1..])
  }

  lemma JoinWithCons(x: string, y: string, ys: seq<string>, sep: string)
    ensures JoinWith([x + y] + ys, sep) == x + JoinWith([y] + ys, sep)
  {
    if ys != [] {
      assert ([x + y] + ys)[1..] == ys;
      assert ([y] + ys)[1..] == ys;
    }
  }

  lemma JoinWithSnoc(xs: seq<string>, y: string, sep: string)
    requires |xs| >= 1
    ensures JoinWith(xs + [y], sep) == JoinWith(xs, sep) + sep + y
    decreases |xs|
  {
    if |xs| > 1 {
      assert (xs + [y])[1..] == xs[1..] + [y];
      JoinWithSnoc(xs[1..], y, sep);
    }
  }

  /** Joining the pieces of a split with the same separator gives the string back. */
  lemma {:induction false} JoinSplit(s: string, d: char)
    ensures JoinWith(SplitOn(s, d), [d]) == s
    decreases |s|
  {
    if s != [] {
      var rest := SplitOn(s[1..], d);
      JoinSplit(s[1..], d);
      if s[0] == d {
        assert SplitOn(s, d) == [""] + rest;
        assert ([""] + rest)[1..] == rest;
      } else {
        assert SplitOn(s, d) == [[s[0]] + rest[0]] + rest[1..];
        JoinWithCons([s[0]], rest[0], rest[1..], [d]);
        assert [rest[0]] + rest[1..] == rest;
      }
    }
  }

  /** Splitting `x + tail` where `x` holds no separator extends the first piece of `tail`. */
  lemma {:induction false} SplitPrefix(x: string, tail: string, d: char)
    requires d !in x
    ensures SplitOn(x + tail, d) == [x + SplitOn(tail, d)[0]] + SplitOn(tail, d)[1..]
    decreases |x|
  {
    if x == [] {
      assert x + tail == tail;
      assert x + SplitOn(tail, d)[0] == SplitOn(tail, d)[0];
      assert [SplitOn(tail, d)[0]] + SplitOn(tail, d)[1..] == SplitOn(tail, d);
    } else {
      assert (x + tail)[1..] == x[1..] + tail;
      SplitPrefix(x[1..], tail, d);
      assert [x[0]] + (x[1..] + SplitOn(tail, d)[0]) == x + SplitOn(tail, d)[0];
    }
  }

  /** Splitting a join of separator-free pieces gives the pieces back. */
  lemma {:induction false} SplitJoin(parts: seq<string>, d: char)
    requires |parts| >= 1
    requires forall i :: 0 <= i < |parts| ==> d !in parts[i]
    ensures SplitOn(JoinWith(parts, [d]), d) == parts
    decreases |parts|
  {
    if |parts| == 1 {
      SplitPrefix(parts[0], "", d);
      assert parts[0] + "" == parts[0];
    } else {
      var tail := JoinWith(parts[1..], [d]);
      SplitJoin(parts[1..], d);
      assert JoinWith(parts, [d]) == parts[0] + ([d] + tail);
      SplitPrefix(parts[0], [d] + tail, d);
      assert ([d] + tail)[1..] == tail;
      assert SplitOn([d] + tail, d) == [""] + parts[1..];
      assert parts[0] + "" == parts[0];
      assert [parts[0]] + parts[1..] == parts;
    }
  }
}
