/**
 * The application/x-www-form-urlencoded serializer and parser of section 5 of the
 * WHATWG URL Standard, which `URLSearchParams.toString()` uses: names and values are
 * UTF-8 encoded, a space becomes `+`, the bytes outside `*-._`, ASCII digits and ASCII
 * letters are percent-encoded with upper-case hex digits, and the pairs are joined as
 * `name=value` with `&`.
 */
module FormUrlEncoded {
  import opened Wrappers
  import opened Strings
  import opened Pairs

  type Byte = b: int | 0 <= b < 0x100

  // ---------------------------------------------------------------- UTF-8

  predicate IsScalarValue(n: int)
  {
    0 <= n < 0xD800 || 0xE000 <= n < 0x11_0000
  }

  /** The UTF-8 encoding of one scalar value. */
  function EncodeChar(c: char): (bs: seq<Byte>)
    ensures 1 <= |bs| <= 4
    ensures (|bs| == 1) <==> (c as int < 0x80)
  {
    var n := c as int;
    if n < 0x80 then [n]
    else if n < 0x800 then [0xC0 + n / 64, 0x80 + n % 64]
    else if n < 0x1_0000 then [0xE0 + n / 4096, 0x80 + (n / 64) % 64, 0x80 + n % 64]
    else [0xF0 + n / 262144, 0x80 + (n / 4096) % 64, 0x80 + (n / 64) % 64, 0x80 + n % 64]
  }

  function Utf8(s: string): seq<Byte>
    decreases |s|
  {
    if s == [] then [] else EncodeChar(s[0]) + Utf8(s[1..])
  }

  /** Length of the sequence a lead byte announces; 0 for a byte that cannot lead. */
  function LeadLength(b: Byte): nat
  {
    if b < 0x80 then 1
    else if 0xC2 <= b < 0xE0 then 2
    else if 0xE0 <= b < 0xF0 then 3
    else if 0xF0 <= b < 0xF5 then 4
    else 0
  }

  predicate IsContinuation(b: Byte)
  {
    0x80 <= b < 0xC0
  }

  function CodePoint(bs: seq<Byte>): int
    requires 1 <= |bs| <= 4
  {
    if |bs| == 1 then bs[0]
    else if |bs| == 2 then (bs[0] as int - 0xC0) * 64 + (bs[1] as int - 0x80)
    else if |bs| == 3 then
      (bs[0] as int - 0xE0) * 4096 + (bs[1] as int - 0x80) * 64 + (bs[2] as int - 0x80)
    else
      (bs[0] as int - 0xF0) * 262144 + (bs[1] as int - 0x80) * 4096
      + (bs[2] as int - 0x80) * 64 + (bs[3] as int - 0x80)
  }

  /** The shortest encoding of `cp` has `n` bytes (no overlong forms). */
  predicate Shortest(cp: int, n: nat)
  {
    (n == 1 && cp < 0x80) || (n == 2 && 0x80 <= cp < 0x800)
    || (n == 3 && 0x800 <= cp < 0x1_0000) || (n == 4 && 0x1_0000 <= cp)
  }

  /** UTF-8 decoding; None on a malformed sequence. */
  function DecodeUtf8(bs: seq<Byte>): Option<string>
    decreases |bs|
  {
    if bs == [] then Some([])
    else
      var n := LeadLength(bs[0]);
      if n == 0 || |bs| < n || exists i :: 1 <= i < n && !IsContinuation(bs[i]) then None
      else
        var cp := CodePoint(bs[..n]);
        if !IsScalarValue(cp) || !Shortest(cp, n) then None
        else match DecodeUtf8(bs[n..])
          case None => None
          case Some(rest) => Some([cp as char] + rest)
  }

  /** The encoding of one scalar value is a well-formed, shortest sequence that decodes to it. */
  predicate WellFormedEncoding(c: char)
  {
    var bs := EncodeChar(c);
    && LeadLength(bs[0]) == |bs|
    && (forall i :: 1 <= i < |bs| ==> IsContinuation(bs[i]))
    && CodePoint(bs) == c as int
    && IsScalarValue(c as int) && Shortest(c as int, |bs|)
  }

  lemma EncodeTwoBytes(c: char)
    requires 0x80 <= c as int < 0x800
    ensures WellFormedEncoding(c)
  {
    var n := c as int;
    assert n == (n / 64) * 64 + n % 64;
  }

  lemma EncodeThreeBytes(c: char)
    requires 0x800 <= c as int < 0x1_0000
    ensures WellFormedEncoding(c)
  {
    var n := c as int;
    assert n == (n / 4096) * 4096 + ((n / 64) % 64) * 64 + n % 64;
  }

  lemma EncodeFourBytes(c: char)
    requires 0x1_0000 <= c as int
    ensures WellFormedEncoding(c)
  {
    var n := c as int;
    assert n < 0x11_0000;
    assert n == (n / 262144) * 262144 + ((n / 4096) % 64) * 4096 + ((n / 64) % 64) * 64 + n % 64;
  }

  lemma EncodeCharWellFormed(c: char)
    ensures WellFormedEncoding(c)
  {
    var n := c as int;
    if n < 0x80 {
    } else if n < 0x800 {
      EncodeTwoBytes(c);
    } else if n < 0x1_0000 {
      EncodeThreeBytes(c);
    } else {
      EncodeFourBytes(c);
    }
  }

  lemma DecodeEncodeChar(c: char, tail: seq<Byte>)
    ensures DecodeUtf8(EncodeChar(c) + tail)
            == match DecodeUtf8(tail) case None => None case Some(t) => Some([c] + t)
  {
    var enc := EncodeChar(c);
    var bs := enc + tail;
    var k := |enc|;
    EncodeCharWellFormed(c);
    assert bs[..k] == enc;
    assert bs[k..] == tail;
    assert bs[0] == enc[0];
    assert forall i :: 1 <= i < k ==> bs[i] == enc[i];
    assert (c as int as char) == c;
  }

  /** UTF-8 decoding undoes UTF-8 encoding. */
  lemma {:induction false} DecodeUtf8Encode(s: string)
    ensures DecodeUtf8(Utf8(s)) == Some(s)
    decreases |s|
  {
    if s != [] {
      DecodeUtf8Encode(s[1..]);
      DecodeEncodeChar(s[0], Utf8(s[1..]));
      assert [s[0]] + s[1..] == s;
    }
  }

  // ------------------------------------------------------- percent-encoding

  /** The bytes the urlencoded percent-encode set leaves alone. */
  predicate Unreserved(b: Byte)
  {
    b == 0x2A || b == 0x2D || b == 0x2E || 0x30 <= b <= 0x39
    || 0x41 <= b <= 0x5A || b == 0x5F || 0x61 <= b <= 0x7A
  }

  predicate IsHexDigit(c: char)
  {
    '0' <= c <= '9' || 'A' <= c <= 'F' || 'a' <= c <= 'f'
  }

  function HexValue(c: char): (d: nat)
    requires IsHexDigit(c)
    ensures d < 16
  {
    if c <= '9' then c as int - '0' as int
    else if c <= 'F' then c as int - 'A' as int + 10
    else c as int - 'a' as int + 10
  }

  /** Upper-case hex digit, as the URL Standard's percent-encode writes it. */
  function HexDigit(d: nat): (c: char)
    requires d < 16
    ensures IsHexDigit(c) && HexValue(c) == d
  {
    if d < 10 then ('0' as int + d) as char else ('A' as int + d - 10) as char
  }

  function EscapeByte(b: Byte): (s: string)
    ensures '&' !in s && '=' !in s && s != []
  {
    if b == 0x20 then "+"
    else if Unreserved(b) then [b as char]
    else ['%', HexDigit(b / 16), HexDigit(b % 16)]
  }

  function Escape(bs: seq<Byte>): (s: string)
    ensures '&' !in s && '=' !in s
    decreases |bs|
  {
    if bs == [] then "" else EscapeByte(bs[0]) + Escape(bs[1..])
  }

  /** The serialized form of one name or value. */
  function Encode(s: string): (e: string)
    ensures '&' !in e && '=' !in e
  {
    Escape(Utf8(s))
  }

  /**
   * `+` to a space and percent-decoding, to bytes: a `%` followed by two hex digits is
   * one byte, any other character stands for its own UTF-8 bytes.
   */
  function Unescape(s: string): seq<Byte>
    decreases |s|
  {
    if s == [] then []
    else if s[0] == '%' && |s| >= 3 && IsHexDigit(s[1]) && IsHexDigit(s[2]) then
      [HexValue(s[1]) * 16 + HexValue(s[2])] + Unescape(s[3..])
    else if s[0] == '+' then [0x20] + Unescape(s[1..])
    else EncodeChar(s[0]) + Unescape(s[1..])
  }

  function Decode(s: string): Option<string>
  {
    DecodeUtf8(Unescape(s))
  }

  lemma UnescapeEscapeByte(b: Byte, tail: string)
    ensures Unescape(EscapeByte(b) + tail) == [b] + Unescape(tail)
  {
    var s := EscapeByte(b) + tail;
    if b == 0x20 {
      assert s[1..] == tail;
    } else if Unreserved(b) {
      assert s[1..] == tail;
      assert s[0] != '%' && s[0] != '+';
    } else {
      assert s[3..] == tail;
      assert b == (b / 16) * 16 + b % 16;
    }
  }

  lemma {:induction false} UnescapeEscape(bs: seq<Byte>)
    ensures Unescape(Escape(bs)) == bs
    decreases |bs|
  {
    if bs != [] {
      UnescapeEscape(bs[1..]);
      UnescapeEscapeByte(bs[0], Escape(bs[1..]));
      assert [bs[0]] + bs[1..] == bs;
    }
  }

  /** Encoding is injective: decoding gives every string back. */
  lemma DecodeEncode(s: string)
    ensures Decode(Encode(s)) == Some(s)
  {
    UnescapeEscape(Utf8(s));
    DecodeUtf8Encode(s);
  }

  // ------------------------------------------------------- serializer, parser

  function SerializePair(p: Pair): (s: string)
    ensures '&' !in s && '=' in s
  {
    assert (Encode(p.0) + "=" + Encode(p.1))[|Encode(p.0)|] == '=';
    Encode(p.0) + "=" + Encode(p.1)
  }

  function SerializeEach(list: seq<Pair>): (segs: seq<string>)
    ensures |segs| == |list|
    ensures forall i :: 0 <= i < |list| ==> segs[i] == SerializePair(list[i])
    decreases |list|
  {
    if list == [] then [] else [SerializePair(list[0])] + SerializeEach(list[1..])
  }

  /** The application/x-www-form-urlencoded serializer (URL Standard section 5.2). */
  function Serialize(list: seq<Pair>): string
  {
    JoinWith(SerializeEach(list), "&")
  }

  /** Index of the first `d` in `s`, or `|s|` when there is none. */
  function FirstIndex(s: string, d: char): (i: nat)
    ensures i <= |s|
    ensures d !in s[..i]
    ensures i < |s| ==> s[i] == d
    decreases |s|
  {
    if s == [] then 0
    else if s[0] == d then 0
    else
      assert s[..1 + FirstIndex(s[1..], d)] == [s[0]] + s[1..][..FirstIndex(s[1..], d)];
      1 + FirstIndex(s[1..], d)
  }

  /** Name before the first `=` and value after it (empty when there is no `=`). */
  function SplitAtFirst(seg: string, d: char): (string, string)
  {
    var i := FirstIndex(seg, d);
    (seg[..i], if i < |seg| then seg[i + 1..] else "")
  }

  lemma {:induction false} FirstIndexOfJoin(x: string, y: string, d: char)
    requires d !in x
    ensures FirstIndex(x + [d] + y, d) == |x|
    decreases |x|
  {
    if x != [] {
      assert (x + [d] + y)[1..] == x[1..] + [d] + y;
      FirstIndexOfJoin(x[1..], y, d);
    }
  }

  lemma SplitAtFirstJoin(x: string, y: string, d: char)
    requires d !in x
    ensures SplitAtFirst(x + [d] + y, d) == (x, y)
  {
    var seg := x + [d] + y;
    FirstIndexOfJoin(x, y, d);
    assert seg[..|x|] == x;
    assert seg[|x| + 1..] == y;
  }

  function DecodePair(name: string, value: string): Option<Pair>
  {
    match (Decode(name), Decode(value))
    case (Some(n), Some(v)) => Some((n, v))
    case _ => None
  }

  /** One `&`-separated sequence: name before the first `=`, value after it, both decoded. */
  function ParseSegment(seg: string): Option<Pair>
  {
    var parts := SplitAtFirst(seg, '=');
    DecodePair(parts.0, parts.1)
  }

  function ParseSegments(segs: seq<string>): Option<seq<Pair>>
    decreases |segs|
  {
    if segs == [] then Some([])
    else if segs[0] == "" then ParseSegments(segs[1..])
    else match (ParseSegment(segs[0]), ParseSegments(segs[1..]))
      case (Some(p), Some(ps)) => Some([p] + ps)
      case _ => None
  }

  /**
   * The application/x-www-form-urlencoded parser (URL Standard section 5.1), except that
   * a malformed UTF-8 sequence makes it fail instead of becoming U+FFFD.
   */
  function Parse(input: string): Option<seq<Pair>>
  {
    ParseSegments(SplitOn(input, '&'))
  }

  lemma ParseSerializedPair(p: Pair)
    ensures ParseSegment(SerializePair(p)) == Some(p)
  {
    SplitAtFirstJoin(Encode(p.0), Encode(p.1), '=');
    DecodeEncode(p.0);
    DecodeEncode(p.1);
  }

  /** A serialized pair in front of parsable segments parses to that pair in front. */
  lemma ParseSegmentsCons(p: Pair, segs: seq<string>, ps: seq<Pair>)
    requires ParseSegments(segs) == Some(ps)
    ensures ParseSegments([SerializePair(p)] + segs) == Some([p] + ps)
  {
    ParseSerializedPair(p);
    assert ([SerializePair(p)] + segs)[1..] == segs;
  }

  lemma {:induction false} ParseSerializedSegments(list: seq<Pair>)
    ensures ParseSegments(SerializeEach(list)) == Some(list)
    decreases |list|
  {
    if list != [] {
      ParseSerializedSegments(list[1..]);
      ParseSegmentsCons(list[0], SerializeEach(list[1..]), list[1..]);
      assert SerializeEach(list) == [SerializePair(list[0])] + SerializeEach(list[1..]);
      assert [list[0]] + list[1..] == list;
    }
  }

  /** Parsing a serialized list gives the list back: the query string determines it. */
  lemma ParseSerialize(list: seq<Pair>)
    ensures Parse(Serialize(list)) == Some(list)
  {
    var segs := SerializeEach(list);
    if list == [] {
      assert Serialize(list) == "";
    } else {
      SplitJoin(segs, '&');
      ParseSerializedSegments(list);
    }
  }

  /** A string that is already in serialized form: only characters that encode to themselves. */
  predicate Plain(s: string)
  {
    forall i :: 0 <= i < |s| ==> s[i] as int < 0x80 && Unreserved(s[i] as int)
  }

  /** A plain string is its own encoding. */
  lemma {:induction false} EncodePlain(s: string)
    requires Plain(s)
    ensures Encode(s) == s
    decreases |s|
  {
    if s != [] {
      EncodePlain(s[1..]);
      assert EncodeChar(s[0]) == [s[0] as int];
      assert [s[0]] + s[1..] == s;
    }
  }

  lemma PlainConcat(a: string, b: string)
    requires Plain(a) && Plain(b)
    ensures Plain(a + b)
  {
    forall j | 0 <= j < |a + b| ensures (a + b)[j] as int < 0x80 && Unreserved((a + b)[j] as int) {
      if j >= |a| {
        assert (a + b)[j] == b[j - |a|];
      }
    }
  }

  /** A pair of plain strings serializes as `name=value`, verbatim. */
  lemma SerializePlainPair(name: string, value: string)
    requires Plain(name) && Plain(value)
    ensures SerializePair((name, value)) == name + "=" + value
  {
    EncodePlain(name);
    EncodePlain(value);
  }
}
