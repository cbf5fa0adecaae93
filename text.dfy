/**
 * The Python string built-ins the subtitle engine relies on, on `seq<char>`:
 * `str.strip`, `str.split`, `str.join`, `str.lower`, `str.endswith`,
 * `str.replace(pat, "")`, `str.rfind`, and decimal formatting of integers
 * (`str(n)` and the `{n:0w}` format spec).
 */
module Text {

  /** Python's `str.isspace` for a single character. */
  predicate IsSpace(c: char) {
    || c == ' '
    || ('\t' <= c <= '\r')
    || ('\U{1C}' <= c <= '\U{1F}')
    || c == '\U{85}' || c == '\U{A0}' || c == '\U{1680}'
    || ('\U{2000}' <= c <= '\U{200A}')
    || c == '\U{2028}' || c == '\U{2029}' || c == '\U{202F}' || c == '\U{205F}' || c == '\U{3000}'
  }

  /** `s.lstrip()`: drops leading whitespace. */
  function TrimLeft(s: string): (r: string)
    ensures |r| <= |s|
    ensures r == [] || !IsSpace(r[0])
  {
    if s == [] || !IsSpace(s[0]) then s else TrimLeft(s[1..])
  }

  /** `s.rstrip()`: drops trailing whitespace. */
  function TrimRight(s: string): (r: string)
    ensures |r| <= |s| && r == s[..|r|]
    ensures r == [] || !IsSpace(r[|r| - 1])
  {
    if s == [] || !IsSpace(s[|s| - 1]) then s else TrimRight(s[..|s| - 1])
  }

  /** `s.strip()`: removes leading and trailing whitespace. */
  function Strip(s: string): string {
    TrimRight(TrimLeft(s))
  }

  /** A string without whitespace is its own strip. */
  lemma StripNoSpace(s: string)
    requires forall i :: 0 <= i < |s| ==> !IsSpace(s[i])
    ensures Strip(s) == s
  {
    assert TrimLeft(s) == s;
  }

  /** One space on each side of a text that starts and ends with a non-space is stripped off. */
  lemma StripPadded(d: string)
    requires d != [] && !IsSpace(d[0]) && !IsSpace(d[|d| - 1])
    ensures Strip(" " + d + " ") == d
  {
    var s := " " + d + " ";
    assert s[1..] == d + " ";
    assert TrimLeft(s) == d + " ";
    assert (d + " ")[..|d|] == d;
    assert TrimRight(d + " ") == TrimRight(d);
  }

  /** Drops the leading characters that belong to `chars`. */
  function LeftStripOf(s: string, chars: set<char>): (r: string)
    ensures |r| <= |s| && r == s[|s| - |r|..]
    ensures r == [] || r[0] !in chars
  {
    if s == [] || s[0] !in chars then s else LeftStripOf(s[1..], chars)
  }

  /** Drops the trailing characters that belong to `chars`. */
  function RightStripOf(s: string, chars: set<char>): (r: string)
    ensures |r| <= |s| && r == s[..|r|]
    ensures r == [] || r[|r| - 1] !in chars
  {
    if s == [] || s[|s| - 1] !in chars then s else RightStripOf(s[..|s| - 1], chars)
  }

  /** `s.strip(chars)`: removes leading and trailing characters of `chars`. */
  function StripChars(s: string, chars: set<char>): string {
    RightStripOf(LeftStripOf(s, chars), chars)
  }

  /** Length of the leading run of non-whitespace characters. */
  function NonSpaceRun(t: string): (k: nat)
    ensures k <= |t|
    ensures forall i :: 0 <= i < k ==> !IsSpace(t[i])
    ensures k == |t| || IsSpace(t[k])
  {
    if t == [] || IsSpace(t[0]) then 0 else 1 + NonSpaceRun(t[1..])
  }

  /** `s.split()`: the maximal runs of non-whitespace characters, in order. */
  function Split(s: string): seq<string>
    decreases |s|
  {
    var t := TrimLeft(s);
    if t == [] then []
    else
      var k := NonSpaceRun(t);
      assert k != 0 by {
        assert !IsSpace(t[0]);
      }
      [t[..k]] + Split(t[k..])
  }

  /** Every word of `s.split()` is non-empty and holds no whitespace. */
  lemma {:induction false} SplitWords(s: string)
    ensures forall k :: 0 <= k < |Split(s)| ==> Split(s)[k] != []
    ensures forall k, i :: 0 <= k < |Split(s)| && 0 <= i < |Split(s)[k]| ==> !IsSpace(Split(s)[k][i])
    decreases |s|
  {
    var r := Split(s);
    var t := TrimLeft(s);
    if t != [] {
      var k := NonSpaceRun(t);
      var w := t[..k];
      var rest := Split(t[k..]);
      SplitWords(t[k..]);
      assert r == [w] + rest;
      forall j | 0 <= j < |r|
        ensures r[j] != [] && forall i :: 0 <= i < |r[j]| ==> !IsSpace(r[j][i])
      {
        if j == 0 {
          assert r[0] == w && !IsSpace(t[0]);
        } else {
          assert r[j] == rest[j - 1];
        }
      }
    }
  }

  predicate AllSpace(s: string) { forall i :: 0 <= i < |s| ==> IsSpace(s[i]) }

  lemma {:induction false} TrimLeftEmpty(s: string, x: string)
    requires TrimLeft(s) == []
    ensures TrimLeft(s + x) == TrimLeft(x)
  {
    if s != [] {
      assert IsSpace(s[0]) && (s + x)[0] == s[0];
      assert (s + x)[1..] == s[1..] + x;
      TrimLeftEmpty(s[1..], x);
    } else {
      assert s + x == x;
    }
  }

  lemma {:induction false} TrimLeftOfSpaces(s: string)
    requires AllSpace(s)
    ensures TrimLeft(s) == []
  {
    if s != [] {
      assert AllSpace(s[1..]) by {
        assert forall i :: 0 <= i < |s| - 1 ==> s[1..][i] == s[i + 1];
      }
      TrimLeftOfSpaces(s[1..]);
    }
  }

  lemma {:induction false} TrimLeftAppend(s: string, x: string)
    requires TrimLeft(s) != []
    ensures TrimLeft(s + x) == TrimLeft(s) + x
  {
    if IsSpace(s[0]) {
      assert (s + x)[1..] == s[1..] + x;
      TrimLeftAppend(s[1..], x);
    } else {
      assert (s + x)[0] == s[0];
    }
  }

  /** What `rstrip` drops is whitespace. */
  lemma {:induction false} TrimRightRest(s: string)
    ensures AllSpace(s[|TrimRight(s)|..])
  {
    if s != [] && IsSpace(s[|s| - 1]) {
      var init := s[..|s| - 1];
      TrimRightRest(init);
      var n := |TrimRight(s)|;
      assert forall i :: n <= i < |s| - 1 ==> s[i] == init[i];
      assert forall i :: 0 <= i < |s| - n ==> s[n..][i] == s[n + i];
    }
  }

  lemma {:induction false} NonSpaceRunAppend(t: string, x: string)
    requires NonSpaceRun(t) < |t| || (x != [] && IsSpace(x[0]))
    ensures NonSpaceRun(t + x) == NonSpaceRun(t)
  {
    if t == [] {
      assert t + x == x;
    } else if !IsSpace(t[0]) {
      assert (t + x)[1..] == t[1..] + x;
      NonSpaceRunAppend(t[1..], x);
    }
  }

  /** A run of whitespace splits like the end of a text followed by the start of another. */
  lemma {:induction false} SplitGlue(a: string, w: string, b: string)
    requires w != [] && TrimLeft(w) == []
    ensures Split(a + w + b) == Split(a) + Split(b)
    decreases |a|
  {
    if TrimLeft(a) == [] {
      SplitSpacesFirst(a, w, b);
    } else {
      var t := TrimLeft(a);
      var k := NonSpaceRun(t);
      var rest := t[k..];
      assert rest + (w + b) == rest + w + b;
      assert a + (w + b) == a + w + b;
      assert IsSpace((w + b)[0]);
      SplitStep(a, w + b);
      SplitGlue(rest, w, b);
      var h := [t[..k]];
      var s1 := Split(rest);
      var s2 := Split(b);
      assert Split(a + w + b) == h + (s1 + s2);
      ConcatAssoc(h, s1, s2);
    }
  }

  lemma SplitSpacesFirst(a: string, w: string, b: string)
    requires TrimLeft(a) == [] && TrimLeft(w) == []
    ensures Split(a + w + b) == Split(b) && Split(a) == []
  {
    TrimLeftEmpty(a, w + b);
    TrimLeftEmpty(w, b);
    StringAssoc(a, w, b);
    SplitSameTrim(a + w + b, b);
  }

  /** The first word of `a` is also the first word of `a` followed by whitespace. */
  lemma SplitStep(a: string, y: string)
    requires TrimLeft(a) != [] && y != [] && IsSpace(y[0])
    ensures
      var t := TrimLeft(a);
      var k := NonSpaceRun(t);
      && 0 < k <= |t| < |a| + 1
      && Split(a) == [t[..k]] + Split(t[k..])
      && Split(a + y) == [t[..k]] + Split(t[k..] + y)
  {
    var t := TrimLeft(a);
    var k := NonSpaceRun(t);
    TrimLeftAppend(a, y);
    NonSpaceRunAppend(t, y);
    SliceAppend(t, y, k);
    SplitUnfold(a);
    SplitUnfold(a + y);
  }

  lemma StringAssoc(x: string, y: string, z: string)
    ensures x + (y + z) == (x + y) + z
  {
  }

  lemma ConcatAssoc(x: seq<string>, y: seq<string>, z: seq<string>)
    ensures x + (y + z) == (x + y) + z
  {
  }

  lemma SliceAppend(t: string, y: string, k: nat)
    requires k <= |t|
    ensures (t + y)[..k] == t[..k] && (t + y)[k..] == t[k..] + y
    ensures t == t[..k] + t[k..] && t + [] == t[..k] + t[k..] + []
  {
  }

  /** One step of `Split`. */
  lemma SplitUnfold(s: string)
    requires TrimLeft(s) != []
    ensures Split(s) == [TrimLeft(s)[..NonSpaceRun(TrimLeft(s))]] + Split(TrimLeft(s)[NonSpaceRun(TrimLeft(s))..])
  {
  }

  lemma SplitSameTrim(s: string, x: string)
    requires TrimLeft(s) == TrimLeft(x)
    ensures Split(s) == Split(x)
  {
  }

  lemma RestOfTrimRight(t: string)
    ensures TrimLeft(t[|TrimRight(t)|..]) == []
  {
    TrimRightRest(t);
    TrimLeftOfSpaces(t[|TrimRight(t)|..]);
  }

  /** `s.strip().split() == s.split()`. */
  lemma SplitStrip(s: string)
    ensures Split(Strip(s)) == Split(s)
  {
    SplitTrimLeft(s);
    SplitTrimRight(TrimLeft(s));
  }

  lemma SplitTrimLeft(s: string)
    ensures Split(TrimLeft(s)) == Split(s)
  {
    var t := TrimLeft(s);
    assert TrimLeft(t) == t;
    SplitSameTrim(t, s);
  }

  lemma SplitTrimRight(t: string)
    ensures Split(TrimRight(t)) == Split(t)
  {
    var r := TrimRight(t);
    var rest := t[|r|..];
    RestOfTrimRight(t);
    SliceAppend(t, [], |r|);
    if rest != [] {
      SplitGlue(r, rest, "");
      SplitEmptyTail(r, rest, t);
    }
  }

  lemma SplitEmptyTail(r: string, rest: string, t: string)
    requires t == r + rest + []
    ensures Split(r + rest + "") == Split(r) + Split("") ==> Split(t) == Split(r)
  {
    assert Split("") == [];
    var x := Split(r);
    assert x + [] == x;
  }

  /** `sep.join(xs)`. */
  function JoinWith(sep: string, xs: seq<string>): string
  {
    if xs == [] then "" else if |xs| == 1 then xs[0] else xs[0] + sep + JoinWith(sep, xs[1..])
  }

  /** Sum of the lengths of `xs`. */
  function TotalLength(xs: seq<string>): nat
  {
    if xs == [] then 0 else |xs[0]| + TotalLength(xs[1..])
  }

  lemma {:induction false} TotalLengthAppend(xs: seq<string>, ys: seq<string>)
    ensures TotalLength(xs + ys) == TotalLength(xs) + TotalLength(ys)
  {
    if xs != [] {
      assert (xs + ys)[1..] == xs[1..] + ys;
      TotalLengthAppend(xs[1..], ys);
    } else {
      assert xs + ys == ys;
    }
  }

  /** Joining with a one-character separator costs one character per gap. */
  lemma {:induction false} JoinSpaceLength(xs: seq<string>)
    requires xs != []
    ensures |JoinWith(" ", xs)| == TotalLength(xs) + |xs| - 1
  {
    if |xs| > 1 {
      JoinSpaceLength(xs[1..]);
    } else {
      assert TotalLength(xs[1..]) == 0;
    }
  }

  /** Python's `str.lower` for one character: ASCII and Latin-1 capitals and the
      Turkish capitals Ğ, İ and Ş; `İ` lowers to two characters, as in Python. */
  function LowerChar(c: char): string
  {
    if 'A' <= c <= 'Z' || ('\U{C0}' <= c <= '\U{DE}' && c != '\U{D7}') then [(c as int + 32) as char]
    else if c == '\U{11E}' || c == '\U{15E}' then [(c as int + 1) as char]
    else if c == '\U{130}' then "i\U{307}"
    else [c]
  }

  /** `s.lower()`. */
  function Lower(s: string): string
  {
    if s == [] then "" else LowerChar(s[0]) + Lower(s[1..])
  }

  /** `s.endswith(suffix)`. */
  predicate EndsWith(s: string, suffix: string)
  {
    |suffix| <= |s| && s[|s| - |suffix|..] == suffix
  }

  /** `pat in s` for a non-empty pattern. */
  predicate Contains(s: string, pat: string)
    requires pat != []
  {
    |pat| <= |s| && (s[..|pat|] == pat || Contains(s[1..], pat))
  }

  /** `s.replace(pat, "")`: deletes the non-overlapping occurrences of `pat`, leftmost first. */
  function RemoveAll(s: string, pat: string): (r: string)
    requires pat != []
    ensures |r| <= |s|
  {
    if |s| < |pat| then s
    else if s[..|pat|] == pat then RemoveAll(s[|pat|..], pat)
    else [s[0]] + RemoveAll(s[1..], pat)
  }

  /** `s.rfind(c)` for one character: the last index of `c`, or -1. */
  function RFind(s: string, c: char): (i: int)
    ensures -1 <= i < |s|
    ensures i >= 0 ==> s[i] == c
    ensures forall j :: i < j < |s| ==> s[j] != c
  {
    if s == [] then -1 else if s[|s| - 1] == c then |s| - 1 else RFind(s[..|s| - 1], c)
  }

  lemma {:induction false} RFindAppend(x: string, y: string, c: char)
    requires c in y
    ensures RFind(x + y, c) == |x| + RFind(y, c)
  {
    var xy := x + y;
    if y[|y| - 1] != c {
      assert xy[..|xy| - 1] == x + y[..|y| - 1];
      RFindAppend(x, y[..|y| - 1], c);
    }
  }

  lemma RFindAbsent(x: string, c: char)
    requires c !in x
    ensures RFind(x, c) == -1
  {
  }

  // ---------------------------------------------------------------------------
  // Decimal digits
  // ---------------------------------------------------------------------------

  predicate IsDigit(c: char) { '0' <= c <= '9' }

  predicate AllDigits(s: string) { forall i :: 0 <= i < |s| ==> IsDigit(s[i]) }

  function DigitChar(d: nat): (c: char)
    requires d < 10
    ensures IsDigit(c)
  {
    (('0' as int) + d) as char
  }

  /** The value of a string of decimal digits, most significant first. */
  function DigitsValue(s: string): nat
    requires AllDigits(s)
  {
    if s == [] then 0 else DigitsValue(s[..|s| - 1]) * 10 + (s[|s| - 1] as int - '0' as int)
  }

  /** `str(n)` for a natural number. */
  function NatStr(n: nat): (r: string)
    ensures r != [] && AllDigits(r)
  {
    if n < 10 then [DigitChar(n)] else NatStr(n / 10) + [DigitChar(n % 10)]
  }

  /** Reading back the digits of `str(n)` gives `n`. */
  lemma {:induction false} NatStrValue(n: nat)
    ensures DigitsValue(NatStr(n)) == n
  {
    if n >= 10 {
      var s := NatStr(n);
      assert s[..|s| - 1] == NatStr(n / 10);
      NatStrValue(n / 10);
    }
  }

  lemma NatStrInjective(m: nat, n: nat)
    requires NatStr(m) == NatStr(n)
    ensures m == n
  {
    NatStrValue(m);
    NatStrValue(n);
  }

  function Pow10(w: nat): (p: nat)
    ensures p >= 1
  {
    if w == 0 then 1 else 10 * Pow10(w - 1)
  }

  /** A number below `10^w` has at most `w` digits. */
  lemma {:induction false} NatStrWidth(n: nat, w: nat)
    requires n < Pow10(w) && w >= 1
    ensures |NatStr(n)| <= w
  {
    if n >= 10 {
      NatStrWidth(n / 10, w - 1);
    }
  }

  function Zeros(k: nat): (r: string)
    ensures |r| == k && AllDigits(r)
  {
    if k == 0 then "" else "0" + Zeros(k - 1)
  }

  /** Leading zeros do not change the value of a digit string. */
  lemma {:induction false} LeadingZerosValue(k: nat, s: string)
    requires AllDigits(s)
    ensures AllDigits(Zeros(k) + s) && DigitsValue(Zeros(k) + s) == DigitsValue(s)
  {
    if s == [] {
      assert Zeros(k) + s == Zeros(k);
      ZerosValue(k);
    } else {
      assert (Zeros(k) + s)[..|Zeros(k) + s| - 1] == Zeros(k) + s[..|s| - 1];
      LeadingZerosValue(k, s[..|s| - 1]);
    }
  }

  lemma {:induction false} ZerosValue(k: nat)
    ensures DigitsValue(Zeros(k)) == 0
  {
    if k > 0 {
      assert Zeros(k)[..k - 1] == Zeros(k - 1) by {
        ZerosShift(k);
      }
      ZerosValue(k - 1);
    }
  }

  lemma {:induction false} ZerosShift(k: nat)
    requires k > 0
    ensures Zeros(k) == Zeros(k - 1) + "0"
  {
    if k > 1 {
      ZerosShift(k - 1);
    }
  }

  /** The `{n:0w}` format of a natural number: its digits, zero-padded on the left to width `w`. */
  function ZeroPad(n: nat, w: nat): (r: string)
    ensures AllDigits(r)
  {
    var d := NatStr(n);
    if |d| >= w then d else Zeros(w - |d|) + d
  }

  /** A padded number below `10^w` takes exactly `w` characters and reads back as itself. */
  lemma ZeroPadExact(n: nat, w: nat)
    requires w >= 1 && n < Pow10(w)
    ensures |ZeroPad(n, w)| == w
    ensures DigitsValue(ZeroPad(n, w)) == n
  {
    NatStrWidth(n, w);
    NatStrValue(n);
    LeadingZerosValue(w - |NatStr(n)|, NatStr(n));
  }

  /** A padded number is at least as wide as asked, never empty, and reads back as itself. */
  lemma ZeroPadValue(n: nat, w: nat)
    ensures |ZeroPad(n, w)| >= w && |ZeroPad(n, w)| >= 1
    ensures DigitsValue(ZeroPad(n, w)) == n
  {
    NatStrValue(n);
    if |NatStr(n)| < w {
      LeadingZerosValue(w - |NatStr(n)|, NatStr(n));
    }
  }

  /** Python's `f"{n:0w}"` for any integer: the sign takes one place of the width. */
  function IntFormat(n: int, w: nat): string
  {
    if n < 0 then "-" + ZeroPad(-n, if w > 0 then w - 1 else 0) else ZeroPad(n, w)
  }
}
