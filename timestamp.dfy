/**
 * SRT timestamps: `format_timestamp` of the engine and its copy `f_t` in the
 * window's exporter.
 */
module Timestamp {
  import opened Text
  import opened Numbers

  /** `format_timestamp(seconds)`: `HH:MM:SS,mmm`, the hours padded to two digits
      and unbounded, the milliseconds truncated. */
  function FormatTimestamp(seconds: real): string
  {
    var ms := Trunc(Frac(seconds) * 1000.0);
    var s := Trunc(seconds);
    var h := s / 3600;
    var m := (s % 3600) / 60;
    IntFormat(h, 2) + ":" + IntFormat(m, 2) + ":" + IntFormat(s % 60, 2) + "," + IntFormat(ms, 3)
  }

  /** `f_t(s)` in `save_results`, written out on its own in the source. */
  function FT(s: real): string
  {
    var ms := Trunc(Frac(s) * 1000.0);
    var si := Trunc(s);
    IntFormat(si / 3600, 2) + ":" + IntFormat((si % 3600) / 60, 2) + ":" + IntFormat(si % 60, 2) + "," + IntFormat(ms, 3)
  }

  // ---------------------------------------------------------------------------
  // Properties
  // ---------------------------------------------------------------------------

  /** The exporter's copy formats every time exactly as the engine does. */
  lemma FTIsFormatTimestamp(s: real)
    ensures FT(s) == FormatTimestamp(s)
  {
  }

  /** Splitting whole seconds into hours, minutes below 60 and seconds below 60. */
  lemma ClockArithmetic(s: nat)
    ensures 0 <= (s % 3600) / 60 < 60 && 0 <= s % 60 < 60
    ensures (s / 3600) * 3600 + ((s % 3600) / 60) * 60 + s % 60 == s
  {
    var h := s / 3600;
    var r := s % 3600;
    var m := r / 60;
    assert s == 3600 * h + r;
    assert r == 60 * m + r % 60;
    assert s == 60 * (60 * h + m) + r % 60;
    assert s % 60 == r % 60;
  }

  /** For a non-negative time every field is a natural number, zero-padded. */
  lemma FormatLayout(t: real)
    requires t >= 0.0
    ensures
      var s := t.Floor;
      FormatTimestamp(t) ==
        ZeroPad(s / 3600, 2) + ":" + ZeroPad((s % 3600) / 60, 2) + ":" + ZeroPad(s % 60, 2) + "," +
        ZeroPad((Frac(t) * 1000.0).Floor, 3)
  {
    assert Trunc(t) == t.Floor;
    assert Frac(t) * 1000.0 >= 0.0;
  }

  /** Where the four fields of `H:MM:SS,mmm` sit when the last three have fixed widths. */
  lemma FieldPositions(h: string, m: string, sec: string, ms: string)
    requires |m| == 2 && |sec| == 2 && |ms| == 3
    ensures
      var r := h + ":" + m + ":" + sec + "," + ms;
      var n := |r|;
      && n == |h| + 10 && r[n - 10] == ':' && r[n - 7] == ':' && r[n - 4] == ','
      && r[..n - 10] == h && r[n - 9..n - 7] == m && r[n - 6..n - 4] == sec && r[n - 3..] == ms
  {
  }

  /** For a non-negative time the text is `H…H:MM:SS,mmm`: the separators sit at fixed
      places from the end, minutes and seconds are below 60, the fields add up to the
      whole seconds and the last field is the truncated milliseconds. An hour count
      below 100 makes it exactly 12 characters. */
  lemma TimestampFields(t: real)
    requires t >= 0.0
    ensures
      var r := FormatTimestamp(t);
      var n := |r|;
      && n >= 12 && r[n - 10] == ':' && r[n - 7] == ':' && r[n - 4] == ','
      && AllDigits(r[..n - 10]) && AllDigits(r[n - 9..n - 7]) && AllDigits(r[n - 6..n - 4]) && AllDigits(r[n - 3..])
      && DigitsValue(r[n - 9..n - 7]) < 60 && DigitsValue(r[n - 6..n - 4]) < 60
      && DigitsValue(r[..n - 10]) * 3600 + DigitsValue(r[n - 9..n - 7]) * 60 + DigitsValue(r[n - 6..n - 4]) == t.Floor
      && DigitsValue(r[n - 3..]) == (Frac(t) * 1000.0).Floor < 1000
      && (t < 360000.0 ==> n == 12)
  {
    var s: nat := t.Floor;
    var ms: nat := (Frac(t) * 1000.0).Floor;
    ClockArithmetic(s);
    var h: nat := s / 3600;
    var m: nat := (s % 3600) / 60;
    var sec: nat := s % 60;
    assert Pow10(2) == 100 && Pow10(3) == 1000;
    ZeroPadValue(h, 2);
    ZeroPadExact(m, 2);
    ZeroPadExact(sec, 2);
    ZeroPadExact(ms, 3);
    FormatLayout(t);
    FieldPositions(ZeroPad(h, 2), ZeroPad(m, 2), ZeroPad(sec, 2), ZeroPad(ms, 3));
    if t < 360000.0 {
      ZeroPadExact(h, 2);
    }
  }

  /** Time zero. */
  lemma TimestampOfZero()
    ensures FormatTimestamp(0.0) == "00:00:00,000"
  {
    ZeroFields();
    ZeroPads();
    Render("00", "00", "00", "000");
  }

  lemma ZeroFields()
    ensures FormatTimestamp(0.0) ==
            ZeroPad(0, 2) + ":" + ZeroPad(0, 2) + ":" + ZeroPad(0, 2) + "," + ZeroPad(0, 3)
  {
    assert (0.0).Floor == 0 && Frac(0.0) == 0.0;
    FieldsOf(0.0, 0, 0, 0, 0);
  }

  /** The layout of a non-negative time whose fields are known. */
  lemma FieldsOf(t: real, h: nat, m: nat, sec: nat, ms: nat)
    requires t >= 0.0
    requires t.Floor / 3600 == h && (t.Floor % 3600) / 60 == m && t.Floor % 60 == sec
    requires (Frac(t) * 1000.0).Floor == ms
    ensures FormatTimestamp(t) == ZeroPad(h, 2) + ":" + ZeroPad(m, 2) + ":" + ZeroPad(sec, 2) + "," + ZeroPad(ms, 3)
  {
    FormatLayout(t);
  }

  lemma ZeroPads()
    ensures ZeroPad(0, 2) == "00" && ZeroPad(0, 3) == "000"
  {
    PadDigit(0, 2);
    PadDigit(0, 3);
  }

  lemma Render(h: string, m: string, s: string, ms: string)
    requires |h| == 2 && |m| == 2 && |s| == 2 && |ms| == 3
    ensures h + ":" + m + ":" + s + "," + ms ==
            [h[0], h[1], ':', m[0], m[1], ':', s[0], s[1], ',', ms[0], ms[1], ms[2]]
  {
  }

  /** One hour, two minutes, five and a half seconds. */
  lemma TimestampExample()
    ensures FormatTimestamp(3725.5) == "01:02:05,500"
  {
    ExampleFields();
    ExamplePads();
    Render("01", "02", "05", "500");
  }

  lemma ExampleFields()
    ensures FormatTimestamp(3725.5) ==
            ZeroPad(1, 2) + ":" + ZeroPad(2, 2) + ":" + ZeroPad(5, 2) + "," + ZeroPad(500, 3)
  {
    ExampleClock();
    assert 3725 / 3600 == 1 && (3725 % 3600) / 60 == 2 && 3725 % 60 == 5;
    FieldsOf(3725.5, 1, 2, 5, 500);
  }

  lemma ExampleClock()
    ensures (3725.5).Floor == 3725 && (Frac(3725.5) * 1000.0).Floor == 500
  {
    assert (3725.5).Floor == 3725;
    assert Frac(3725.5) == 0.5;
  }

  lemma ExamplePads()
    ensures ZeroPad(1, 2) == "01" && ZeroPad(2, 2) == "02" && ZeroPad(5, 2) == "05"
    ensures ZeroPad(500, 3) == "500"
  {
    PadDigit(1, 2);
    PadDigit(2, 2);
    PadDigit(5, 2);
    assert NatStr(5) == "5";
    assert NatStr(50) == NatStr(5) + [DigitChar(0)];
    assert NatStr(500) == NatStr(50) + [DigitChar(0)];
  }

  /** A single digit padded to width `w`. */
  lemma PadDigit(d: nat, w: nat)
    requires d < 10 && 2 <= w <= 3
    ensures ZeroPad(d, w) == Zeros(w - 1) + [DigitChar(d)]
    ensures Zeros(1) == "0" && Zeros(2) == "00"
  {
    assert Zeros(1) == "0" + Zeros(0);
    assert Zeros(2) == "0" + Zeros(1);
  }
}
