/**
 * The configuration side of the HubSpot form embed (components/HubSpotEmbed.tsx): the
 * three regular-expression validators, the trimming and lower-casing of the props, the
 * defaults taken from the environment, and the order in which the values are checked.
 */
module HubSpotConfig {
  import opened Wrappers
  import opened Strings

  // ---------------------------------------------------------------------------------
  // Regular expressions of the form /^[class]{min,}$/ with and without the `i` flag
  // ---------------------------------------------------------------------------------

  /** A class range `lo-hi`; a single character `c` is the range `c-c`. */
  datatype Range = Range(lo: char, hi: char)

  /** `^[cls]{min,}$`, case-insensitive when `ignoreCase` (the `i` flag, no `u` flag). */
  datatype Pattern = Pattern(cls: seq<Range>, min: nat, ignoreCase: bool)

  predicate InRange(r: Range, c: char)
  {
    r.lo <= c <= r.hi
  }

  /**
   * Canonicalize of a case-insensitive match without the `u` flag: the upper-case
   * form of the character, except that a character outside ASCII is never mapped into
   * ASCII. The rule also upper-cases letters outside ASCII (`é` to `É`); this model maps
   * only the ASCII letters and keeps every other character. The two agree on what the
   * ASCII-only classes below match, because under both an ASCII character stays ASCII
   * and a character outside ASCII stays outside it.
   */
  function Canonicalize(c: char): (u: char)
    ensures ('a' <= c <= 'z') == ('A' <= u <= 'Z' && u != c)
    ensures !('a' <= c <= 'z') ==> u == c
    ensures (u < '\U{80}') <==> (c < '\U{80}')
  {
    if 'a' <= c <= 'z' then (c as int - 32) as char else c
  }

  /** The class matches `c`: some member of a range is `c`, up to canonicalization under `i`. */
  predicate ClassHas(cls: seq<Range>, c: char, ignoreCase: bool)
  {
    if ignoreCase then
      exists i, a :: 0 <= i < |cls| && InRange(cls[i], a) && Canonicalize(a) == Canonicalize(c)
    else
      exists i :: 0 <= i < |cls| && InRange(cls[i], c)
  }

  /** `pattern.test(v)`: the whole of `v` is at least `min` characters of the class. */
  predicate Test(p: Pattern, v: string)
  {
    |v| >= p.min && forall i :: 0 <= i < |v| ==> ClassHas(p.cls, v[i], p.ignoreCase)
  }

  /** `/^\d+$/` */
  const PortalIdPattern := Pattern([Range('0', '9')], 1, false)
  /** `/^[a-f0-9-]{24,}$/i` */
  const FormIdPattern := Pattern([Range('a', 'f'), Range('0', '9'), Range('-', '-')], 24, true)
  /** `/^[a-z0-9-]{2,}$/i` */
  const RegionPattern := Pattern([Range('a', 'z'), Range('0', '9'), Range('-', '-')], 2, true)

  predicate IsValidPortalId(v: string) { Test(PortalIdPattern, v) }
  predicate IsValidFormId(v: string) { Test(FormIdPattern, v) }
  predicate IsValidRegion(v: string) { Test(RegionPattern, v) }

  // The alphabets the validators accept, written out independently of the patterns.

  predicate IsHexOrDash(c: char) { '0' <= c <= '9' || 'a' <= c <= 'f' || 'A' <= c <= 'F' || c == '-' }
  predicate IsRegionChar(c: char) { '0' <= c <= '9' || 'a' <= c <= 'z' || 'A' <= c <= 'Z' || c == '-' }

  lemma DigitClassHas(c: char)
    ensures ClassHas(PortalIdPattern.cls, c, false) <==> IsDigit(c)
  {
    if IsDigit(c) {
      assert InRange(PortalIdPattern.cls[0], c);
    }
  }

  lemma FormIdClassHas(c: char)
    ensures ClassHas(FormIdPattern.cls, c, true) <==> IsHexOrDash(c)
  {
    var cls := FormIdPattern.cls;
    if ClassHas(cls, c, true) {
      var i, a :| 0 <= i < |cls| && InRange(cls[i], a) && Canonicalize(a) == Canonicalize(c);
      assert IsHexOrDash(c);
    }
    if 'a' <= c <= 'f' || c == '-' || '0' <= c <= '9' {
      var i := if 'a' <= c <= 'f' then 0 else if c == '-' then 2 else 1;
      assert InRange(cls[i], c);
    } else if 'A' <= c <= 'F' {
      var a := (c as int + 32) as char;
      assert InRange(cls[0], a) && Canonicalize(a) == c;
    }
  }

  lemma RegionClassHas(c: char)
    ensures ClassHas(RegionPattern.cls, c, true) <==> IsRegionChar(c)
  {
    var cls := RegionPattern.cls;
    if ClassHas(cls, c, true) {
      var i, a :| 0 <= i < |cls| && InRange(cls[i], a) && Canonicalize(a) == Canonicalize(c);
      assert IsRegionChar(c);
    }
    if 'a' <= c <= 'z' || c == '-' || '0' <= c <= '9' {
      var i := if 'a' <= c <= 'z' then 0 else if c == '-' then 2 else 1;
      assert InRange(cls[i], c);
    } else if 'A' <= c <= 'Z' {
      var a := (c as int + 32) as char;
      assert InRange(cls[0], a) && Canonicalize(a) == c;
    }
  }

  /** `isValidPortalId` accepts exactly the non-empty strings of decimal digits. */
  lemma PortalIdAlphabet(v: string)
    ensures IsValidPortalId(v) <==> |v| >= 1 && forall i :: 0 <= i < |v| ==> IsDigit(v[i])
  {
    forall i | 0 <= i < |v| {
      DigitClassHas(v[i]);
    }
  }

  /** `isValidFormId` accepts exactly the strings of 24 or more hex digits (either case) and `-`. */
  lemma FormIdAlphabet(v: string)
    ensures IsValidFormId(v) <==> |v| >= 24 && forall i :: 0 <= i < |v| ==> IsHexOrDash(v[i])
  {
    forall i | 0 <= i < |v| {
      FormIdClassHas(v[i]);
    }
  }

  /** `isValidRegion` accepts exactly the strings of 2 or more ASCII letters, digits and `-`. */
  lemma RegionAlphabet(v: string)
    ensures IsValidRegion(v) <==> |v| >= 2 && forall i :: 0 <= i < |v| ==> IsRegionChar(v[i])
  {
    forall i | 0 <= i < |v| {
      RegionClassHas(v[i]);
    }
  }

  // ---------------------------------------------------------------------------------
  // String.prototype.trim and String.prototype.toLowerCase
  // ---------------------------------------------------------------------------------

  /** ECMAScript WhiteSpace and LineTerminator code points, which `trim` removes. */
  predicate IsTrimmable(c: char)
  {
    c == '\U{9}' || c == '\U{B}' || c == '\U{C}' || c == ' ' || c == '\U{A0}'
    || c == '\U{1680}' || '\U{2000}' <= c <= '\U{200A}' || c == '\U{202F}' || c == '\U{205F}'
    || c == '\U{3000}' || c == '\U{FEFF}'
    || c == '\U{A}' || c == '\U{D}' || c == '\U{2028}' || c == '\U{2029}'
  }

  /** Index of the first character that is not trimmable (or `|s|`). */
  function TrimStartIndex(s: string): (i: nat)
    ensures i <= |s|
    ensures forall k :: 0 <= k < i ==> IsTrimmable(s[k])
    ensures i < |s| ==> !IsTrimmable(s[i])
    decreases |s|
  {
    if s == [] || !IsTrimmable(s[0]) then 0 else 1 + TrimStartIndex(s[1..])
  }

  /** One past the last character that is not trimmable (or `0`). */
  function TrimEndIndex(s: string): (j: nat)
    ensures j <= |s|
    ensures forall k :: j <= k < |s| ==> IsTrimmable(s[k])
    ensures j > 0 ==> !IsTrimmable(s[j - 1])
    decreases |s|
  {
    if s == [] || !IsTrimmable(s[|s| - 1]) then |s| else TrimEndIndex(s[..|s| - 1])
  }

  /** Where the trimmed slice starts and ends. */
  function TrimBounds(s: string): (b: (nat, nat))
    ensures b.0 <= b.1 <= |s|
    ensures forall k :: 0 <= k < b.0 ==> IsTrimmable(s[k])
    ensures forall k :: b.1 <= k < |s| ==> IsTrimmable(s[k])
    ensures b.0 < b.1 ==> !IsTrimmable(s[b.0]) && !IsTrimmable(s[b.1 - 1])
  {
    var i := TrimStartIndex(s);
    if i == |s| then (i, i) else (i, TrimEndIndex(s))
  }

  /**
   * `s.trim()`: the slice of `s` left after removing the leading and trailing white
   * space; it neither starts nor ends with white space, and all that was removed was
   * white space.
   */
  function Trim(s: string): (t: string)
    ensures exists i, j ::
              (&& 0 <= i <= j <= |s| && t == s[i..j]
               && (forall k :: 0 <= k < i ==> IsTrimmable(s[k]))
               && (forall k :: j <= k < |s| ==> IsTrimmable(s[k])))
    ensures t != [] ==> !IsTrimmable(t[0]) && !IsTrimmable(t[|t| - 1])
  {
    var b := TrimBounds(s);
    s[b.0..b.1]
  }

  /** Trimming twice is trimming once. */
  lemma TrimIdempotent(s: string)
    ensures Trim(Trim(s)) == Trim(s)
  {
    var t := Trim(s);
    if t != [] {
      assert TrimStartIndex(t) == 0;
      assert TrimEndIndex(t) == |t|;
    }
  }

  /** A string made only of white space trims to the empty string. */
  lemma TrimBlank(s: string)
    requires forall k :: 0 <= k < |s| ==> IsTrimmable(s[k])
    ensures Trim(s) == ""
  {
  }

  /**
   * `toLowerCase` of one character: ASCII upper-case letters, KELVIN SIGN (to `k`) and
   * LATIN CAPITAL LETTER I WITH DOT ABOVE (to `i` and a combining dot) are mapped; every
   * other character is kept.
   */
  function LowerChar(c: char): (s: string)
    ensures |s| >= 1
    ensures 'A' <= c <= 'Z' ==> s == [(c as int + 32) as char]
  {
    if 'A' <= c <= 'Z' then [(c as int + 32) as char]
    else if c == '\U{212A}' then "k"
    else if c == '\U{130}' then "i\U{307}"
    else [c]
  }

  /** `s.toLowerCase()` */
  function ToLower(s: string): (t: string)
    ensures |t| >= |s|
    ensures forall k :: 0 <= k < |t| ==> !('A' <= t[k] <= 'Z')
    decreases |s|
  {
    if s == [] then "" else LowerChar(s[0]) + ToLower(s[1..])
  }

  /** Lower-casing leaves a string without upper-case ASCII letters unchanged and keeps `na1`. */
  lemma {:induction false} ToLowerNoUpper(s: string)
    requires forall k :: 0 <= k < |s| ==> s[k] < '\U{80}' && !('A' <= s[k] <= 'Z')
    ensures ToLower(s) == s
    decreases |s|
  {
    if s != [] {
      ToLowerNoUpper(s[1..]);
      assert s == [s[0]] + s[1..];
    }
  }

  /**
   * On ASCII text lower-casing keeps the length and, position by position, moves each
   * upper-case letter 32 code points down and keeps every other character.
   */
  lemma {:induction false} ToLowerAscii(s: string)
    requires forall k :: 0 <= k < |s| ==> s[k] < '\U{80}'
    ensures |ToLower(s)| == |s|
    ensures forall k :: 0 <= k < |s| ==>
      ToLower(s)[k] == if 'A' <= s[k] <= 'Z' then (s[k] as int + 32) as char else s[k]
    decreases |s|
  {
    if s != [] {
      var t := ToLower(s[1..]);
      ToLowerAscii(s[1..]);
      assert LowerChar(s[0]) == [if 'A' <= s[0] <= 'Z' then (s[0] as int + 32) as char else s[0]];
      assert ToLower(s) == LowerChar(s[0]) + t;
    }
  }

  // ---------------------------------------------------------------------------------
  // Props, environment defaults and the normalised configuration
  // ---------------------------------------------------------------------------------

  /** A prop as the caller passes it: left out, `null`, or a string. */
  datatype Prop = Undefined | Null | Given(s: string)

  /** The three `NEXT_PUBLIC_HUBSPOT_*` variables; `None` when unset. */
  datatype Env = Env(portalId: Option<string>, formId: Option<string>, region: Option<string>)

  datatype Props = Props(portalId: Prop, formId: Prop, region: Prop)

  /** `cfg`: trimmed portal id and form id, trimmed and lower-cased region. */
  datatype Config = Config(p: string, f: string, r: string)

  /** `process.env.X || fallback`: an unset or empty variable gives the fallback. */
  function EnvOr(v: Option<string>, fallback: string): (s: string)
    ensures v.Some? && v.value != "" ==> s == v.value
    ensures v.None? || v.value == "" ==> s == fallback
  {
    if v.Some? && v.value != "" then v.value else fallback
  }

  /**
   * The prop's value after the parameter default (taken only when the prop is left out)
   * and `?? fallback` (taken when it is `null`).
   */
  function PropValue(prop: Prop, default: string, nullFallback: string): string
  {
    match prop
    case Undefined => default
    case Null => nullFallback
    case Given(s) => s
  }

  function Normalize(props: Props, env: Env): (cfg: Config)
  {
    Config(
      Trim(PropValue(props.portalId, EnvOr(env.portalId, ""), "")),
      Trim(PropValue(props.formId, EnvOr(env.formId, ""), "")),
      ToLower(Trim(PropValue(props.region, EnvOr(env.region, "na1"), "na1"))))
  }

  /**
   * What normalisation promises for the ids: neither starts nor ends with white space;
   * a given value wins over the environment and is trimmed; a `null` id, and a left-out
   * id whose environment variable is unset or empty, become empty.
   */
  lemma NormalizeIds(props: Props, env: Env)
    ensures var cfg := Normalize(props, env);
      && (cfg.p != [] ==> !IsTrimmable(cfg.p[0]) && !IsTrimmable(cfg.p[|cfg.p| - 1]))
      && (cfg.f != [] ==> !IsTrimmable(cfg.f[0]) && !IsTrimmable(cfg.f[|cfg.f| - 1]))
      && (props.portalId.Given? ==> cfg.p == Trim(props.portalId.s))
      && (props.formId.Given? ==> cfg.f == Trim(props.formId.s))
      && (props.portalId.Null? || (props.portalId.Undefined? && (env.portalId.None? || env.portalId.value == "")) ==>
            cfg.p == "")
      && (props.formId.Null? || (props.formId.Undefined? && (env.formId.None? || env.formId.value == "")) ==>
            cfg.f == "")
  {
    var p := PropValue(props.portalId, EnvOr(env.portalId, ""), "");
    var f := PropValue(props.formId, EnvOr(env.formId, ""), "");
    assert Normalize(props, env).p == Trim(p) && Normalize(props, env).f == Trim(f);
    assert Trim("") == "";
    if props.portalId.Given? {
      assert p == props.portalId.s;
    }
    if props.formId.Given? {
      assert f == props.formId.s;
    }
  }

  /**
   * What normalisation promises for the region: no upper-case ASCII letter; a given
   * region is trimmed and then lower-cased; a `null` region, and a left-out region
   * without a usable environment variable, become `na1`.
   */
  lemma NormalizeRegion(props: Props, env: Env)
    ensures var cfg := Normalize(props, env);
      && (forall k :: 0 <= k < |cfg.r| ==> !('A' <= cfg.r[k] <= 'Z'))
      && (props.region.Given? ==> cfg.r == ToLower(Trim(props.region.s)))
      && (props.region.Null? ==> cfg.r == "na1")
      && (props.region.Undefined? && (env.region.None? || env.region.value == "") ==> cfg.r == "na1")
  {
    var r := PropValue(props.region, EnvOr(env.region, "na1"), "na1");
    var t := Normalize(props, env).r;
    assert t == ToLower(Trim(r));
    match props.region
    case Null =>
      NaOne();
    case Undefined =>
      if env.region.None? || env.region.value == "" {
        NaOne();
      }
    case Given(v) =>
      assert r == v;
  }

  /**
   * A left-out prop takes its environment variable when that is set and not empty: the
   * ids trimmed, the region trimmed and then lower-cased.
   */
  lemma NormalizeFromEnv(props: Props, env: Env)
    ensures var cfg := Normalize(props, env);
      && (props.portalId.Undefined? && env.portalId.Some? && env.portalId.value != "" ==>
            cfg.p == Trim(env.portalId.value))
      && (props.formId.Undefined? && env.formId.Some? && env.formId.value != "" ==>
            cfg.f == Trim(env.formId.value))
      && (props.region.Undefined? && env.region.Some? && env.region.value != "" ==>
            cfg.r == ToLower(Trim(env.region.value)))
  {
    if props.portalId.Undefined? && env.portalId.Some? && env.portalId.value != "" {
      assert PropValue(props.portalId, EnvOr(env.portalId, ""), "") == env.portalId.value;
    }
    if props.formId.Undefined? && env.formId.Some? && env.formId.value != "" {
      assert PropValue(props.formId, EnvOr(env.formId, ""), "") == env.formId.value;
    }
    if props.region.Undefined? && env.region.Some? && env.region.value != "" {
      assert PropValue(props.region, EnvOr(env.region, "na1"), "na1") == env.region.value;
    }
  }

  /** `na1` is its own trimmed, lower-cased form. */
  lemma NaOne()
    ensures ToLower(Trim("na1")) == "na1"
  {
    var s := "na1";
    assert TrimStartIndex(s) == 0;
    assert TrimEndIndex(s) == |s|;
    assert Trim(s) == s;
    ToLowerNoUpper(s);
  }

  // ---------------------------------------------------------------------------------
  // Validation order
  // ---------------------------------------------------------------------------------

  datatype ErrorKey = PortalIdKey | FormIdKey | RegionKey

  /**
   * The first failing check, in the order portal id, form id, region (`None` when all
   * pass). Each check is `!value || !isValid(value)`.
   */
  function Validate(cfg: Config): (err: Option<ErrorKey>)
    ensures err == Some(PortalIdKey) <==> !(|cfg.p| >= 1 && forall i :: 0 <= i < |cfg.p| ==> IsDigit(cfg.p[i]))
    ensures err == Some(FormIdKey) <==>
              (|cfg.p| >= 1 && forall i :: 0 <= i < |cfg.p| ==> IsDigit(cfg.p[i]))
              && !(|cfg.f| >= 24 && forall i :: 0 <= i < |cfg.f| ==> IsHexOrDash(cfg.f[i]))
    ensures err == Some(RegionKey) <==>
              (|cfg.p| >= 1 && forall i :: 0 <= i < |cfg.p| ==> IsDigit(cfg.p[i]))
              && (|cfg.f| >= 24 && forall i :: 0 <= i < |cfg.f| ==> IsHexOrDash(cfg.f[i]))
              && !(|cfg.r| >= 2 && forall i :: 0 <= i < |cfg.r| ==> IsRegionChar(cfg.r[i]))
    ensures err == None <==>
              (|cfg.p| >= 1 && forall i :: 0 <= i < |cfg.p| ==> IsDigit(cfg.p[i]))
              && (|cfg.f| >= 24 && forall i :: 0 <= i < |cfg.f| ==> IsHexOrDash(cfg.f[i]))
              && (|cfg.r| >= 2 && forall i :: 0 <= i < |cfg.r| ==> IsRegionChar(cfg.r[i]))
  {
    PortalIdAlphabet(cfg.p);
    FormIdAlphabet(cfg.f);
    RegionAlphabet(cfg.r);
    if cfg.p == "" || !IsValidPortalId(cfg.p) then Some(PortalIdKey)
    else if cfg.f == "" || !IsValidFormId(cfg.f) then Some(FormIdKey)
    else if cfg.r == "" || !IsValidRegion(cfg.r) then Some(RegionKey)
    else None
  }

  /** The default region passes its check. */
  lemma DefaultRegionValid()
    ensures IsValidRegion("na1")
  {
    RegionAlphabet("na1");
    assert IsRegionChar("na1"[0]) && IsRegionChar("na1"[1]) && IsRegionChar("na1"[2]);
  }
}
