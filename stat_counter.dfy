/**
 * `formatNumber` of the animated statistic (components/ui/StatCounter.tsx): the text of
 * the rounded number is split at `.`, the integer part gets a separator before every
 * digit that is followed by a positive multiple of three digits (the global replace of
 * `/\B(?=(\d{3})+(?!\d))/`), and the parts are joined again; the display wraps the
 * result in the prefix and the suffix.
 */
module StatCounter {
  import opened Strings

  // ---------------------------------------------------------------------------------
  // The regular expression /\B(?=(\d{3})+(?!\d))/
  // ---------------------------------------------------------------------------------

  /** `\w`: ASCII letters, digits and `_`. */
  predicate IsWordChar(c: char)
  {
    'a' <= c <= 'z' || 'A' <= c <= 'Z' || IsDigit(c) || c == '_'
  }

  /** The character before position `p` is a word character (false at the start). */
  predicate WordBefore(s: string, p: nat)
    requires p <= |s|
  {
    p > 0 && IsWordChar(s[p - 1])
  }

  /** The character at position `p` is a word character (false at the end). */
  predicate WordAt(s: string, p: nat)
    requires p <= |s|
  {
    p < |s| && IsWordChar(s[p])
  }

  /** `\B` at `p`: both sides are word characters, or neither is. */
  predicate NonBoundary(s: string, p: nat)
    requires p <= |s|
  {
    WordBefore(s, p) == WordAt(s, p)
  }

  /** `(?!\d)` at `p`: the end of the string or a character that is not a digit. */
  predicate NoDigitAt(s: string, p: nat)
    requires p <= |s|
  {
    p == |s| || !IsDigit(s[p])
  }

  /**
   * `(\d{3})+(?!\d)` matches at `p`: three digits, and then either no digit follows
   * or the group matches again (backtracking tries every repetition count).
   */
  predicate ThreesThenNonDigit(s: string, p: nat)
    requires p <= |s|
    decreases |s| - p
  {
    && p + 3 <= |s|
    && IsDigit(s[p]) && IsDigit(s[p + 1]) && IsDigit(s[p + 2])
    && (NoDigitAt(s, p + 3) || ThreesThenNonDigit(s, p + 3))
  }

  /** The empty match of the whole pattern at `p`, where a separator goes. */
  predicate SeparatorAt(s: string, p: nat)
    requires p <= |s|
  {
    NonBoundary(s, p) && ThreesThenNonDigit(s, p)
  }

  /** Number of consecutive digits from position `p`. */
  function DigitRun(s: string, p: nat): (n: nat)
    requires p <= |s|
    ensures p + n <= |s|
    ensures forall k :: p <= k < p + n ==> IsDigit(s[k])
    ensures NoDigitAt(s, p + n)
    decreases |s| - p
  {
    if p < |s| && IsDigit(s[p]) then 1 + DigitRun(s, p + 1) else 0
  }

  /** The lookahead holds exactly where the run of digits ahead is a positive multiple of three. */
  lemma {:induction false} ThreesThenNonDigitRun(s: string, p: nat)
    requires p <= |s|
    ensures ThreesThenNonDigit(s, p) <==> DigitRun(s, p) > 0 && DigitRun(s, p) % 3 == 0
    decreases |s| - p
  {
    if p + 3 <= |s| && IsDigit(s[p]) && IsDigit(s[p + 1]) && IsDigit(s[p + 2]) {
      ThreesThenNonDigitRun(s, p + 3);
      assert DigitRun(s, p) == 3 + DigitRun(s, p + 3);
    } else if p < |s| && IsDigit(s[p]) {
      if p + 1 < |s| && IsDigit(s[p + 1]) {
        assert DigitRun(s, p) == 2 + DigitRun(s, p + 2);
      } else {
        assert DigitRun(s, p) == 1 + DigitRun(s, p + 1);
      }
    }
  }

  /** The positions `0..|s|` where the pattern matches. */
  function Matches(s: string): (m: seq<bool>)
    ensures |m| == |s| + 1
    ensures forall p :: 0 <= p <= |s| ==> (m[p] <==> SeparatorAt(s, p))
  {
    seq(|s| + 1, p requires 0 <= p <= |s| => SeparatorAt(s, p))
  }

  /**
   * A global replace of empty matches, from position `p` on: each character is copied
   * and `sep` goes before every position marked in `m`.
   */
  function InsertFrom(s: string, sep: string, m: seq<bool>, p: nat): string
    requires |m| == |s| + 1 && p <= |s|
    decreases |s| - p
  {
    var ins := if m[p] then sep else "";
    if p == |s| then ins else ins + ([s[p]] + InsertFrom(s, sep, m, p + 1))
  }

  /** One step of the replace at an unmarked position. */
  lemma InsertCopy(s: string, sep: string, m: seq<bool>, p: nat)
    requires |m| == |s| + 1 && p < |s| && !m[p]
    ensures InsertFrom(s, sep, m, p) == [s[p]] + InsertFrom(s, sep, m, p + 1)
  {
    var x := [s[p]] + InsertFrom(s, sep, m, p + 1);
    assert "" + x == x;
  }

  /** `s.replace(/\B(?=(\d{3})+(?!\d))/g, sep)`: the integer part with its separators. */
  function Grouped(s: string, sep: string): string
  {
    InsertFrom(s, sep, Matches(s), 0)
  }

  // ---------------------------------------------------------------------------------
  // formatNumber and the displayed text
  // ---------------------------------------------------------------------------------

  /**
   * `formatNumber` given the text of the rounded number: group the part before the
   * first `.` when the separator is not empty and that part is longer than three
   * characters, then join the parts with `.` again.
   */
  function FormatNumber(text: string, sep: string): string
  {
    var parts := SplitOn(text, '.');
    if sep != "" && |parts[0]| > 3 then JoinWith([Grouped(parts[0], sep)] + parts[1..], ".")
    else JoinWith(parts, ".")
  }

  /** `{prefix}{formatNumber(displayValue)}{suffix}` */
  function DisplayText(prefix: string, text: string, sep: string, suffix: string): (d: string)
    ensures |d| >= |prefix| + |suffix|
    ensures d[..|prefix|] == prefix && d[|d| - |suffix|..] == suffix
    ensures d[|prefix|..|d| - |suffix|] == FormatNumber(text, sep)
  {
    prefix + FormatNumber(text, sep) + suffix
  }

  /** The part of `text` before its first `.` (all of it when there is none). */
  function IntegerPart(text: string): string
  {
    SplitOn(text, '.')[0]
  }

  /**
   * Only the integer part changes: the text after it (the `.` and the fraction) is
   * passed through, and with an empty separator or an integer part of at most three
   * characters the text is returned as it is.
   */
  lemma FormatNumberShape(text: string, sep: string)
    ensures var ip := IntegerPart(text);
      && |ip| <= |text| && text == ip + text[|ip|..]
      && FormatNumber(text, sep) == (if sep != "" && |ip| > 3 then Grouped(ip, sep) else ip) + text[|ip|..]
      && (sep == "" || |ip| <= 3 ==> FormatNumber(text, sep) == text)
  {
    var parts := SplitOn(text, '.');
    var ip := parts[0];
    var tail := JoinWith([""] + parts[1..], ".");
    JoinSplit(text, '.');
    assert ip + "" == ip;
    assert parts == [ip + ""] + parts[1..];
    JoinWithCons(ip, "", parts[1..], ".");
    assert text == ip + tail;
    assert text[|ip|..] == tail;
    var g := Grouped(ip, sep);
    JoinWithCons(g, "", parts[1..], ".");
    assert g + "" == g;
    assert [g + ""] + parts[1..] == [g] + parts[1..];
  }

  // ---------------------------------------------------------------------------------
  // Where the separators go
  // ---------------------------------------------------------------------------------

  /** Never a separator at the start, right after a leading `-`, or at the end. */
  lemma NoSeparatorAtEdges(s: string)
    ensures !SeparatorAt(s, 0) && !SeparatorAt(s, |s|)
    ensures |s| >= 1 && s[0] == '-' ==> !SeparatorAt(s, 1)
  {
  }

  /** A separator goes before `s[p]` exactly when `\B` holds there and a positive multiple of three digits follows to the next non-digit. */
  lemma SeparatorAtRun(s: string, p: nat)
    requires p <= |s|
    ensures SeparatorAt(s, p) <==> NonBoundary(s, p) && DigitRun(s, p) > 0 && DigitRun(s, p) % 3 == 0
  {
    ThreesThenNonDigitRun(s, p);
  }

  /** The pieces of `s[p..]` between the marked positions after `p`. */
  function PiecesFrom(s: string, m: seq<bool>, p: nat): (pieces: seq<string>)
    requires |m| == |s| + 1 && p <= |s|
    ensures |pieces| >= 1
    ensures p < |s| && !m[|s|] ==> forall i :: 0 <= i < |pieces| ==> pieces[i] != ""
    decreases |s| - p
  {
    if p == |s| then [""]
    else
      var rest := PiecesFrom(s, m, p + 1);
      if m[p + 1] then [[s[p]]] + rest
      else [[s[p]] + rest[0]] + rest[1..]
  }

  lemma {:induction false} ConcatPieces(s: string, m: seq<bool>, p: nat)
    requires |m| == |s| + 1 && p <= |s|
    ensures Concat(PiecesFrom(s, m, p)) == s[p..]
    decreases |s| - p
  {
    if p < |s| {
      ConcatPieces(s, m, p + 1);
      var rest := PiecesFrom(s, m, p + 1);
      if !m[p + 1] {
        ConcatCons([s[p]], rest);
      }
      assert s[p..] == [s[p]] + s[p + 1..];
    }
  }

  lemma ConcatCons(x: string, ys: seq<string>)
    requires |ys| >= 1
    ensures Concat([x + ys[0]] + ys[1..]) == x + Concat(ys)
  {
    assert ([x + ys[0]] + ys[1..])[1..] == ys[1..];
  }

  lemma {:induction false} InsertPieces(s: string, sep: string, m: seq<bool>, p: nat)
    requires |m| == |s| + 1 && p <= |s|
    ensures InsertFrom(s, sep, m, p) == (if m[p] then sep else "") + JoinWith(PiecesFrom(s, m, p), sep)
    decreases |s| - p
  {
    var ins := if m[p] then sep else "";
    if p < |s| {
      InsertPieces(s, sep, m, p + 1);
      JoinPiecesStep(s, sep, m, p);
      var tail := JoinWith(PiecesFrom(s, m, p + 1), sep);
      assert InsertFrom(s, sep, m, p) == ins + ([s[p]] + (if m[p + 1] then sep else "") + tail);
    } else {
      assert JoinWith(PiecesFrom(s, m, p), sep) == "";
      assert ins + "" == ins;
    }
  }

  /** The joined pieces from `p` are `s[p]`, a separator when `p + 1` is marked, and the joined pieces from `p + 1`. */
  lemma JoinPiecesStep(s: string, sep: string, m: seq<bool>, p: nat)
    requires |m| == |s| + 1 && p < |s|
    ensures JoinWith(PiecesFrom(s, m, p), sep)
            == [s[p]] + (if m[p + 1] then sep else "") + JoinWith(PiecesFrom(s, m, p + 1), sep)
  {
    var rest := PiecesFrom(s, m, p + 1);
    if m[p + 1] {
      assert ([[s[p]]] + rest)[1..] == rest;
    } else {
      assert rest == [rest[0]] + rest[1..];
      JoinWithCons([s[p]], rest[0], rest[1..], sep);
      assert [s[p]] + "" == [s[p]];
    }
  }

  /**
   * The replace only inserts: the grouped text is the pieces of `s` joined by the
   * separator, no piece is empty, and the pieces put together again are `s`.
   */
  lemma GroupedPieces(s: string, sep: string)
    ensures Grouped(s, sep) == JoinWith(PiecesFrom(s, Matches(s), 0), sep)
    ensures Concat(PiecesFrom(s, Matches(s), 0)) == s
    ensures s != "" ==> forall i :: 0 <= i < |PiecesFrom(s, Matches(s), 0)| ==> PiecesFrom(s, Matches(s), 0)[i] != ""
  {
    NoSeparatorAtEdges(s);
    InsertPieces(s, sep, Matches(s), 0);
    assert "" + JoinWith(PiecesFrom(s, Matches(s), 0), sep) == JoinWith(PiecesFrom(s, Matches(s), 0), sep);
    ConcatPieces(s, Matches(s), 0);
  }

  // ---------------------------------------------------------------------------------
  // Grouping a run of digits
  // ---------------------------------------------------------------------------------

  predicate AllDigits(d: string)
  {
    forall k :: 0 <= k < |d| ==> IsDigit(d[k])
  }

  /** `sep` before each group of three: the shape of the grouped digits after the first group. */
  function SepChunks(t: string, sep: string): (r: string)
    requires |t| % 3 == 0
    ensures |r| == |t| + |t| / 3 * |sep|
    decreases |t|
  {
    if t == [] then "" else sep + t[..3] + SepChunks(t[3..], sep)
  }

  /** Length of the first group: `|d| % 3`, or 3 when that is 0. */
  function FirstGroup(n: nat): (r: nat)
    requires n >= 1
    ensures 1 <= r <= 3 && r <= n && (n - r) % 3 == 0
  {
    if n % 3 == 0 then 3 else n % 3
  }

  /** In a string of digits a separator goes exactly before the positions a multiple of three from the end, except the start. */
  lemma DigitSeparators(d: string, p: nat)
    requires AllDigits(d) && p <= |d|
    ensures SeparatorAt(d, p) <==> 0 < p < |d| && (|d| - p) % 3 == 0
  {
    var n := DigitRun(d, p);
    assert p + n == |d|;
    SeparatorAtRun(d, p);
  }

  /** The marks of a digit string: every position a multiple of three from the end, except both ends. */
  predicate ThousandsMarks(m: seq<bool>, n: nat)
    requires |m| == n + 1
  {
    forall q :: 0 <= q <= n ==> (m[q] <==> 0 < q < n && (n - q) % 3 == 0)
  }

  lemma DigitMarks(d: string)
    requires AllDigits(d)
    ensures ThousandsMarks(Matches(d), |d|)
  {
    forall q | 0 <= q <= |d| {
      DigitSeparators(d, q);
    }
  }

  /** Unmarked positions are copied as they are. */
  lemma {:induction false} InsertUnmarked(s: string, sep: string, m: seq<bool>, p: nat, r: nat)
    requires |m| == |s| + 1 && p <= r <= |s|
    requires forall q :: p <= q < r ==> !m[q]
    ensures InsertFrom(s, sep, m, p) == s[p..r] + InsertFrom(s, sep, m, r)
    decreases r - p
  {
    if p < r {
      var rest := InsertFrom(s, sep, m, r);
      calc {
        InsertFrom(s, sep, m, p);
        { InsertCopy(s, sep, m, p); }
        [s[p]] + InsertFrom(s, sep, m, p + 1);
        { InsertUnmarked(s, sep, m, p + 1, r); }
        [s[p]] + (s[p + 1..r] + rest);
        { assert s[p..r] == [s[p]] + s[p + 1..r]; }
        s[p..r] + rest;
      }
    } else {
      assert s[p..r] == [];
    }
  }

  lemma {:induction false} InsertThousands(s: string, sep: string, m: seq<bool>, p: nat)
    requires |m| == |s| + 1 && ThousandsMarks(m, |s|)
    requires 1 <= p <= |s| && (|s| - p) % 3 == 0
    ensures InsertFrom(s, sep, m, p) == SepChunks(s[p..], sep)
    decreases |s| - p
  {
    if p < |s| {
      InsertUnmarked(s, sep, m, p + 1, p + 3);
      InsertThousands(s, sep, m, p + 3);
      var t := s[p..];
      assert t[..3] == [s[p]] + s[p + 1..p + 3];
      assert t[3..] == s[p + 3..];
      assert InsertFrom(s, sep, m, p) == sep + ([s[p]] + InsertFrom(s, sep, m, p + 1));
    }
  }

  /**
   * A string of digits is grouped as a first group of one to three digits followed by
   * `sep` and exactly three digits, as often as needed.
   */
  lemma GroupedDigits(d: string, sep: string)
    requires AllDigits(d) && |d| >= 1
    ensures var r := FirstGroup(|d|); Grouped(d, sep) == d[..r] + SepChunks(d[r..], sep)
  {
    var r := FirstGroup(|d|);
    var m := Matches(d);
    DigitMarks(d);
    InsertUnmarked(d, sep, m, 0, r);
    InsertThousands(d, sep, m, r);
  }

  /** Shifting the string and its marks by one leading character shifts the output. */
  lemma {:induction false} InsertShift(c: char, s: string, sep: string, m: seq<bool>, m': seq<bool>, p: nat)
    requires |m| == |s| + 1 && |m'| == |s| + 2 && p <= |s|
    requires forall q :: 0 <= q <= |s| ==> m'[q + 1] == m[q]
    ensures InsertFrom([c] + s, sep, m', p + 1) == InsertFrom(s, sep, m, p)
    decreases |s| - p
  {
    var t := [c] + s;
    var ins := if m[p] then sep else "";
    if p < |s| {
      assert t[p + 1] == s[p];
      InsertShift(c, s, sep, m, m', p + 1);
      assert InsertFrom(t, sep, m', p + 1) == ins + ([t[p + 1]] + InsertFrom(t, sep, m', p + 2));
      assert InsertFrom(s, sep, m, p) == ins + ([s[p]] + InsertFrom(s, sep, m, p + 1));
    } else {
      assert InsertFrom(t, sep, m', p + 1) == ins;
    }
  }

  lemma {:induction false} ShiftThrees(c: char, s: string, p: nat)
    requires p <= |s|
    ensures ThreesThenNonDigit([c] + s, p + 1) == ThreesThenNonDigit(s, p)
    decreases |s| - p
  {
    if p + 3 <= |s| {
      ShiftThrees(c, s, p + 3);
    }
  }

  /** After a character that is not a word character the pattern matches where it matches in the rest. */
  lemma ShiftMatches(c: char, s: string)
    requires !IsWordChar(c)
    ensures forall q :: 0 <= q <= |s| ==> Matches([c] + s)[q + 1] == Matches(s)[q]
  {
    forall q | 0 <= q <= |s| ensures SeparatorAt([c] + s, q + 1) == SeparatorAt(s, q) {
      ShiftThrees(c, s, q);
    }
  }

  /** A leading `-` is kept and the digits after it are grouped on their own. */
  lemma GroupedNegative(d: string, sep: string)
    ensures Grouped("-" + d, sep) == "-" + Grouped(d, sep)
  {
    var t := "-" + d;
    ShiftMatches('-', d);
    InsertShift('-', d, sep, Matches(d), Matches(t), 0);
    NoSeparatorAtEdges(t);
    assert Grouped(t, sep) == "" + [t[0]] + InsertFrom(t, sep, Matches(t), 1);
  }

  /**
   * The text of a number, an optional `-`, the digits of the integer part and an
   * optional `.` fraction, formats as the sign, the grouped digits and the untouched
   * fraction when the separator is not empty and the integer part is longer than three.
   */
  lemma FormatDecimal(negative: bool, d: string, fraction: string, sep: string)
    requires AllDigits(d) && |d| >= 1
    requires fraction == "" || fraction[0] == '.'
    requires sep != "" && |d| + (if negative then 1 else 0) > 3
    ensures var sign := if negative then "-" else "";
            var r := FirstGroup(|d|);
            FormatNumber(sign + d + fraction, sep) == sign + d[..r] + SepChunks(d[r..], sep) + fraction
  {
    var sign := if negative then "-" else "";
    var ip := sign + d;
    var r := FirstGroup(|d|);
    IntegerPartBeforeFraction(negative, d, fraction);
    FormatNumberShape(ip + fraction, sep);
    assert (ip + fraction)[|ip|..] == fraction;
    GroupedSigned(negative, d, sep);
    assert sign + d + fraction == ip + fraction;
  }

  lemma IntegerPartBeforeFraction(negative: bool, d: string, fraction: string)
    requires AllDigits(d)
    requires fraction == "" || fraction[0] == '.'
    ensures IntegerPart((if negative then "-" else "") + d + fraction) == (if negative then "-" else "") + d
  {
    var sign := if negative then "-" else "";
    var ip := sign + d;
    assert '.' !in ip by {
      forall k | 0 <= k < |ip| ensures ip[k] != '.' {
        if !(negative && k == 0) {
          assert ip[k] == d[k - |sign|];
        }
      }
    }
    SplitPrefix(ip, fraction, '.');
    assert sign + d + fraction == ip + fraction;
  }

  lemma GroupedSigned(negative: bool, d: string, sep: string)
    requires AllDigits(d) && |d| >= 1
    ensures var sign := if negative then "-" else "";
            var r := FirstGroup(|d|);
            Grouped(sign + d, sep) == sign + d[..r] + SepChunks(d[r..], sep)
  {
    GroupedDigits(d, sep);
    if negative {
      GroupedNegative(d, sep);
    } else {
      assert "" + d == d;
    }
  }
}
