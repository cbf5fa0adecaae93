/**
 * The seamless timing bridge (`chronos_seamless_core`): one forward pass over
 * adjacent intervals that closes small gaps, clips overlaps and enforces a
 * minimum duration. It reads `start` and `end` and writes only `end`; the other
 * keys of the records are never touched, so the model works on the timing pairs.
 */
module Bridge {
  import opened Records

  /** The `end` that interval `cur` receives from the three in-loop rules, given the
      `start` of the interval after it. */
  function BridgedEnd(cur: Span, nextStart: real, threshold: real, minDur: real): real
  {
    var e1 := if nextStart - cur.end <= threshold then nextStart else cur.end;  // zero-gap bridge
    var e2 := if e1 > nextStart then nextStart else e1;                         // overlap fixer
    if e2 - cur.start < minDur then cur.start + minDur else e2                   // minimum duration guard
  }

  /** The `end` of the last interval: only the minimum-duration guard applies. */
  function LastEnd(cur: Span, minDur: real): real
  {
    if cur.end - cur.start < minDur then cur.start + minDur else cur.end
  }

  /** The list the pass produces. Every step reads the `start` of the next interval, which
      no step writes, and the `end` of its own interval, which no earlier step wrote, so
      each new `end` depends only on the input. */
  function Bridged(s: seq<Span>, threshold: real, minDur: real): seq<Span>
  {
    seq(|s|, i requires 0 <= i < |s| =>
      Span(s[i].start,
           if i + 1 < |s| then BridgedEnd(s[i], s[i + 1].start, threshold, minDur) else LastEnd(s[i], minDur)))
  }

  /** `chronos_seamless_core`, in place. */
  method SeamlessCore(a: array<Span>, threshold: real, minDur: real)
    modifies a
    ensures a[..] == Bridged(old(a[..]), threshold, minDur)
  {
    if a.Length == 0 {
      return;
    }
    ghost var orig := a[..];
    var i := 0;
    while i < a.Length - 1
      invariant 0 <= i <= a.Length - 1
      invariant forall k :: 0 <= k < i ==> a[k] == Span(orig[k].start, BridgedEnd(orig[k], orig[k + 1].start, threshold, minDur))
      invariant forall k :: i <= k < a.Length ==> a[k] == orig[k]
    {
      var start, end := a[i].start, a[i].end;
      var nextStart := a[i + 1].start;
      if nextStart - end <= threshold {
        end := nextStart;
      }
      if end > nextStart {
        end := nextStart;
      }
      if end - start < minDur {
        end := start + minDur;
      }
      a[i] := Span(start, end);
      i := i + 1;
    }
    var last := a.Length - 1;
    if a[last].end - a[last].start < minDur {
      a[last] := a[last].(end := a[last].start + minDur);
    }
  }

  /** Length, order and every `start` are kept; the empty list comes back empty. */
  lemma BridgeKeepsStarts(s: seq<Span>, threshold: real, minDur: real)
    ensures |Bridged(s, threshold, minDur)| == |s|
    ensures forall i :: 0 <= i < |s| ==> Bridged(s, threshold, minDur)[i].start == s[i].start
  {
  }

  /** Every interval, the last included, lasts at least `minDur`. */
  lemma BridgeMinDuration(s: seq<Span>, threshold: real, minDur: real, i: nat)
    requires i < |s|
    ensures Bridged(s, threshold, minDur)[i].end - Bridged(s, threshold, minDur)[i].start >= minDur
  {
  }

  /** A gap no wider than the threshold is closed: the interval ends where the next one
      starts, unless that would make it shorter than `minDur`. */
  lemma BridgeClosesSmallGap(s: seq<Span>, threshold: real, minDur: real, i: nat)
    requires i + 1 < |s|
    requires s[i + 1].start - s[i].end <= threshold
    ensures Bridged(s, threshold, minDur)[i].end == Max(s[i + 1].start, s[i].start + minDur)
  {
  }

  function Max(x: real, y: real): real { if x >= y then x else y }

  /** Where the next interval leaves room for the minimum duration, no overlap remains. */
  lemma BridgeNoOverlapWithRoom(s: seq<Span>, threshold: real, minDur: real, i: nat)
    requires i + 1 < |s|
    requires s[i].start + minDur <= s[i + 1].start
    ensures Bridged(s, threshold, minDur)[i].end <= Bridged(s, threshold, minDur)[i + 1].start
  {
  }

  /** An overlap left by the pass comes only from the minimum-duration extension. */
  lemma BridgeOverlapOnlyFromMinDuration(s: seq<Span>, threshold: real, minDur: real, i: nat)
    requires i + 1 < |s|
    requires Bridged(s, threshold, minDur)[i].end > Bridged(s, threshold, minDur)[i + 1].start
    ensures Bridged(s, threshold, minDur)[i].end == s[i].start + minDur
    ensures s[i].start + minDur > s[i + 1].start
  {
  }

  /** An interval already long enough, ending before the next and separated from it by
      more than the threshold, is left as it is. */
  lemma BridgeKeepsWideGap(s: seq<Span>, threshold: real, minDur: real, i: nat)
    requires i + 1 < |s|
    requires s[i + 1].start - s[i].end > threshold
    requires s[i].end <= s[i + 1].start && s[i].end - s[i].start >= minDur
    ensures Bridged(s, threshold, minDur)[i] == s[i]
  {
  }

  /** `{1.0, 2.0}, {2.15, 3.0}` with threshold 0.2: the first interval ends at 2.15. */
  lemma GapBridgingExample()
    ensures Bridged([Span(1.0, 2.0), Span(2.15, 3.0)], 0.2, 0.2)[0].end == 2.15
  {
  }

  /** `{5.0, 5.05}` with minimum duration 0.2 ends at 5.2. */
  lemma MinDurationExample()
    ensures Bridged([Span(5.0, 5.05)], 0.2, 0.2)[0].end == 5.2
  {
  }

  /** The pass is not idempotent: `{0, 0.05}, {0.5, 1}` with threshold 0.35 and minimum
      0.2 ends the first interval at 0.2, and a second pass moves it to 0.5. */
  lemma BridgeNotIdempotent()
    ensures var once := Bridged([Span(0.0, 0.05), Span(0.5, 1.0)], 0.35, 0.2);
            once[0].end == 0.2 && Bridged(once, 0.35, 0.2)[0].end == 0.5
  {
  }

  /** The pass can leave an overlap: a short interval followed closely by the next. */
  lemma BridgeCanLeaveOverlap()
    ensures var r := Bridged([Span(0.0, 0.05), Span(0.1, 1.0)], 0.0, 0.2);
            r[0].end > r[1].start
  {
  }
}
