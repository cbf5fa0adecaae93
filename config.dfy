/**
 * The hybrid segmenter's settings and the `safe_int` helper that reads them
 * (src/engine/logic.py:121-132).
 */
module SegmenterConfig {
  import opened Wrappers
  import opened Text

  /** A settings value as the settings dictionary may hold it. */
  datatype ConfigValue = Missing | IntValue(n: int) | StrValue(s: string)

  /** The three keys `miller_hybrid_split` reads. */
  datatype Config = Config(maxWords: ConfigValue, maxLines: ConfigValue, baseLimit: ConfigValue)

  /** Python truthiness: `None`, `0` and `""` are false. */
  predicate Falsy(v: ConfigValue)
  {
    v.Missing? || v == IntValue(0) || v == StrValue("")
  }

  /** `str(n)` for an integer. */
  function IntStr(n: int): string
  {
    if n < 0 then "-" + NatStr(-n) else NatStr(n)
  }

  /** Digits with single underscores between them, as `int()` accepts in base 10. */
  predicate DigitPart(t: string)
  {
    && t != [] && IsDigit(t[0]) && IsDigit(t[|t| - 1])
    && forall i :: 0 <= i < |t| ==> IsDigit(t[i]) || (t[i] == '_' && i + 1 < |t| && IsDigit(t[i + 1]))
  }

  predicate DigitsOrUnderscores(t: string)
  {
    forall i :: 0 <= i < |t| ==> IsDigit(t[i]) || t[i] == '_'
  }

  function RemoveUnderscores(t: string): (r: string)
    ensures DigitsOrUnderscores(t) ==> AllDigits(r)
  {
    if t == [] then "" else (if t[0] == '_' then "" else [t[0]]) + RemoveUnderscores(t[1..])
  }

  /** The value of a digit part: its digits, the underscores ignored. */
  function DigitPartValue(t: string): nat
    requires DigitPart(t)
  {
    DigitPartChars(t);
    DigitsValue(RemoveUnderscores(t))
  }

  lemma DigitPartChars(t: string)
    requires DigitPart(t)
    ensures DigitsOrUnderscores(t)
  {
    forall i | 0 <= i < |t|
      ensures IsDigit(t[i]) || t[i] == '_'
    {
      assert 0 <= i < |t| ==> IsDigit(t[i]) || (t[i] == '_' && i + 1 < |t| && IsDigit(t[i + 1]));
    }
  }

  /** Python's `int(s)` on an already stripped string: an optional sign, then a digit part. */
  function ParseInt(s: string): Option<int>
  {
    if s != [] && (s[0] == '+' || s[0] == '-') then
      var t := s[1..];
      if DigitPart(t) then
        var v: int := DigitPartValue(t);
        Some(if s[0] == '-' then -v else v)
      else None
    else if DigitPart(s) then Some(DigitPartValue(s))
    else None
  }

  /** `safe_int(val, default)`: a falsy value gives the default; otherwise
      `int(str(val).strip())`, or the default when that raises. */
  function SafeInt(v: ConfigValue, default: int): int
  {
    if Falsy(v) then default
    else
      var shown := match v
                   case IntValue(n) => IntStr(n)
                   case StrValue(s) => s
                   case Missing => "";
      ParseInt(Strip(shown)).GetOr(default)
  }

  /** The parsed limits: `mw`, `ml` and `base_l`. */
  datatype Limits = Limits(maxWords: int, maxLines: int, baseLimit: int)

  function ParseConfig(c: Config): (l: Limits)
  {
    Limits(SafeInt(c.maxWords, 0), SafeInt(c.maxLines, 0), SafeInt(c.baseLimit, 75))
  }

  /** `seg_capacity`: `base_l * ml` characters, or 9999 when lines are unlimited. */
  function Capacity(l: Limits): int
  {
    if l.maxLines > 0 then l.baseLimit * l.maxLines else 9999
  }

  // ---------------------------------------------------------------------------
  // Properties
  // ---------------------------------------------------------------------------

  lemma {:induction false} NatStrDigitPart(n: nat)
    ensures DigitPart(NatStr(n)) && RemoveUnderscores(NatStr(n)) == NatStr(n)
  {
    NoUnderscoreKept(NatStr(n));
  }

  lemma {:induction false} NoUnderscoreKept(t: string)
    requires AllDigits(t)
    ensures RemoveUnderscores(t) == t
  {
    if t != [] {
      NoUnderscoreKept(t[1..]);
    }
  }

  /** `int(str(n))` is `n`. */
  lemma ParseIntOfIntStr(n: int)
    ensures ParseInt(IntStr(n)) == Some(n)
  {
    if n < 0 {
      ParseNegative(-n);
    } else {
      ParseNatStr(n);
    }
  }

  lemma ParseNatStr(m: nat)
    ensures ParseInt(NatStr(m)) == Some(m)
  {
    NatStrDigitPart(m);
    NatStrValue(m);
    assert IsDigit(NatStr(m)[0]);
  }

  lemma ParseNegative(m: nat)
    ensures ParseInt("-" + NatStr(m)) == Some(-(m as int))
  {
    var d := NatStr(m);
    var s := "-" + d;
    NatStrDigitPart(m);
    NatStrValue(m);
    assert s[0] == '-' && s[1..] == d;
    assert DigitPartValue(d) == m;
  }

  lemma IntStrNoSpace(n: int)
    ensures forall i :: 0 <= i < |IntStr(n)| ==> !IsSpace(IntStr(n)[i])
  {
    var m: nat := if n < 0 then -n else n;
    var d := NatStr(m);
    assert forall i :: 0 <= i < |d| ==> IsDigit(d[i]);
  }

  /** A configured integer other than 0 is read back as itself. */
  lemma SafeIntOfInt(n: int, default: int)
    requires n != 0
    ensures SafeInt(IntValue(n), default) == n
  {
    IntStrNoSpace(n);
    StripNoSpace(IntStr(n));
    ParseIntOfIntStr(n);
  }

  /** The integer 0 is falsy and gives the default: a `base_limit` of 0 becomes 75. */
  lemma ZeroIntegerIsDefault(default: int)
    ensures SafeInt(IntValue(0), default) == default
  {
  }

  /** The string "0" is truthy and gives 0. */
  lemma ZeroStringIsZero(default: int)
    ensures SafeInt(StrValue("0"), default) == 0
  {
    SafeIntOfText("0", default);
    StrippedZero();
  }

  lemma StrippedZero()
    ensures ParseInt(Strip("0")) == Some(0)
  {
    ParseIntOfIntStr(0);
    assert IntStr(0) == "0";
    StripNoSpace("0");
  }

  /** A non-empty text is truthy: it is stripped and parsed. */
  lemma SafeIntOfText(s: string, default: int)
    requires s != ""
    ensures SafeInt(StrValue(s), default) == ParseInt(Strip(s)).GetOr(default)
  {
  }

  /** A missing key, or text that is not an integer, gives the default. */
  lemma SafeIntFallsBack(default: int)
    ensures SafeInt(Missing, default) == default
    ensures SafeInt(StrValue(""), default) == default
    ensures SafeInt(StrValue("abc"), default) == default
    ensures SafeInt(StrValue("7.5"), default) == default
  {
    StripNoSpace("abc");
    StripNoSpace("7.5");
    assert !DigitPart("abc") by { assert !IsDigit('a'); }
    assert !DigitPart("7.5") by { assert "7.5"[1] == '.'; }
  }

  /** The decimal text of a number, surrounded by spaces, reads back as the number. */
  lemma SafeIntOfPaddedDecimal(n: nat, default: int)
    ensures SafeInt(StrValue(" " + NatStr(n) + " "), default) == n
  {
    SafeIntOfText(" " + NatStr(n) + " ", default);
    PaddedDecimalStrip(n);
    ParseIntOfIntStr(n);
  }

  lemma PaddedDecimalStrip(n: nat)
    ensures Strip(" " + NatStr(n) + " ") == IntStr(n)
  {
    var d := NatStr(n);
    assert IsDigit(d[0]) && IsDigit(d[|d| - 1]);
    StripPadded(d);
  }
}
