/**
 * The CPU solver of `diamond_refinery`: with a voice-activity probability for
 * every 512-sample frame, each interval's start and end are moved to the first and
 * last voiced frame of a clamped search window, snapped to the quietest sample
 * nearby, and kept only within a drift limit.
 */
module Refinery {
  import opened Wrappers
  import opened Numbers
  import opened Records

  const SampleRate: int := 16000
  const FrameSize: int := 512

  /** The fixed parameters `analyze_vad_params` returns: the speech threshold, the
      padding of the search window on both sides, and the minimum silence, used as
      the largest accepted drift of an end. */
  const VadThreshold: real := 0.08
  const PadStart: real := 0.5
  const PadEnd: real := 0.5
  const MaxEndDrift: real := 0.5

  /** Breathing room kept from the neighbouring intervals. */
  const Safety: real := 0.02
  /** Samples searched on each side of a raw boundary for the quietest sample. */
  const SnapWindow: int := 1200
  /** A refined end stays this far before the next interval's window. */
  const EndMargin: real := 0.01
  /** Added after the snapped end. */
  const EndLift: real := 0.04
  /** The duration a degenerate interval is given. */
  const MinFix: real := 0.1

  /** Sentence intervals or word intervals. */
  datatype Mode = Sentence | WordLevel

  /** The largest accepted drift of a start. */
  function MaxStartDrift(m: Mode): real
  {
    if m.Sentence? then 0.30 else 0.15
  }

  function RMax(x: real, y: real): real { if x >= y then x else y }
  function RMin(x: real, y: real): real { if x <= y then x else y }
  function IMax(x: int, y: int): int { if x >= y then x else y }
  function IMin(x: int, y: int): int { if x <= y then x else y }

  // ---------------------------------------------------------------------------
  // Frames
  // ---------------------------------------------------------------------------

  /** The audio length after padding the last frame with zeros. */
  function PaddedLength(n: nat): nat
  {
    var pad := FrameSize - n % FrameSize;
    if pad != FrameSize then n + pad else n
  }

  /** The number of frames the model sees. */
  function FrameCount(n: nat): nat
  {
    PaddedLength(n) / FrameSize
  }

  /** The padding reaches the smallest multiple of 512 at or above the length, so
      there are `ceil(n / 512)` frames. */
  lemma PaddingIsMinimal(n: nat)
    ensures PaddedLength(n) % 512 == 0 && n <= PaddedLength(n) < n + 512
    ensures FrameCount(n) == (n + 511) / 512
    ensures FrameCount(n) * 512 >= n && (n > 0 ==> (FrameCount(n) - 1) * 512 < n)
  {
    var q := n / 512;
    var r := n % 512;
    assert n == 512 * q + r;
    if r != 0 {
      assert PaddedLength(n) == 512 * (q + 1);
      assert (n + 511) / 512 == q + 1;
    } else {
      assert PaddedLength(n) == 512 * q;
      assert (n + 511) / 512 == q;
    }
  }

  // ---------------------------------------------------------------------------
  // Search windows
  // ---------------------------------------------------------------------------

  /** `prev_ends[i]`: 0 for the first interval, else the previous original end plus the margin. */
  function PrevEnd(s: seq<Span>, i: nat): real
    requires i < |s|
  {
    if i == 0 then 0.0 else s[i - 1].end + Safety
  }

  /** `next_starts[i]`: the next original start less the margin, or the audio duration
      for the last interval. */
  function NextStart(s: seq<Span>, i: nat, samples: nat): real
    requires i < |s|
  {
    if i + 1 < |s| then s[i + 1].start - Safety else samples as real / SampleRate as real
  }

  function WindowStart(s: seq<Span>, i: nat): real
    requires i < |s|
  {
    RMax(PrevEnd(s, i), s[i].start - PadStart)
  }

  function WindowEnd(s: seq<Span>, i: nat, samples: nat): real
    requires i < |s|
  {
    RMin(NextStart(s, i, samples), s[i].end + PadEnd)
  }

  /** The frame of a time: `int(t * 16000 / 512)`, truncated and clipped to the map. */
  function FrameIndex(t: real, frames: nat): (k: nat)
    ensures k <= frames
  {
    Clip(Trunc(t * SampleRate as real / FrameSize as real), 0, frames)
  }

  // ---------------------------------------------------------------------------
  // Voiced frames and snapping
  // ---------------------------------------------------------------------------

  /** `hits[0]`: the first frame in `[lo, hi)` whose probability exceeds the threshold. */
  function FirstHit(probs: seq<real>, lo: nat, hi: nat): (r: Option<nat>)
    requires lo <= hi <= |probs|
    ensures r.Some? ==> lo <= r.value < hi && probs[r.value] > VadThreshold
    ensures r.Some? ==> forall k :: lo <= k < r.value ==> probs[k] <= VadThreshold
    ensures r.None? ==> forall k :: lo <= k < hi ==> probs[k] <= VadThreshold
    decreases hi - lo
  {
    if lo == hi then None
    else if probs[lo] > VadThreshold then Some(lo)
    else FirstHit(probs, lo + 1, hi)
  }

  /** `hits[-1]`: the last frame in `[lo, hi)` whose probability exceeds the threshold. */
  function LastHit(probs: seq<real>, lo: nat, hi: nat): (r: Option<nat>)
    requires lo <= hi <= |probs|
    ensures r.Some? ==> lo <= r.value < hi && probs[r.value] > VadThreshold
    ensures r.Some? ==> forall k :: r.value < k < hi ==> probs[k] <= VadThreshold
    ensures r.None? ==> forall k :: lo <= k < hi ==> probs[k] <= VadThreshold
    decreases hi - lo
  {
    if lo == hi then None
    else if probs[hi - 1] > VadThreshold then Some(hi - 1)
    else LastHit(probs, lo, hi - 1)
  }

  /** `np.argmin(np.abs(xs))`: the first index of the smallest magnitude. */
  function ArgMinAbs(xs: seq<real>): (r: nat)
    requires xs != []
    ensures r < |xs|
    ensures forall j :: 0 <= j < |xs| ==> Abs(xs[r]) <= Abs(xs[j])
    ensures forall j :: 0 <= j < r ==> Abs(xs[j]) > Abs(xs[r])
  {
    if |xs| == 1 then 0
    else
      var k := ArgMinAbs(xs[..|xs| - 1]);
      assert forall j :: 0 <= j < |xs| - 1 ==> xs[..|xs| - 1][j] == xs[j];
      if Abs(xs[|xs| - 1]) < Abs(xs[k]) then |xs| - 1 else k
  }

  /** The zero-crossing snap: the quietest sample within `SnapWindow` samples of `raw`,
      or `raw` itself when that window holds no sample. */
  function Snap(audio: seq<real>, raw: int): int
  {
    var lo := IMax(0, raw - SnapWindow);
    var hi := IMin(|audio|, raw + SnapWindow);
    if hi > lo then lo + ArgMinAbs(audio[lo..hi]) else raw
  }

  /** The snapped sample is the first quietest one of the window around `raw`;
      without a sample in reach the raw position is kept. */
  lemma SnapQuietest(audio: seq<real>, raw: int)
    ensures
      var lo := IMax(0, raw - SnapWindow);
      var hi := IMin(|audio|, raw + SnapWindow);
      var r := Snap(audio, raw);
      && (hi > lo ==> lo <= r < hi && r - raw <= SnapWindow && raw - r <= SnapWindow)
      && (hi > lo ==> forall j :: lo <= j < hi ==> Abs(audio[r]) <= Abs(audio[j]))
      && (hi > lo ==> forall j :: lo <= j < r ==> Abs(audio[j]) > Abs(audio[r]))
      && (hi <= lo ==> r == raw)
  {
    var lo := IMax(0, raw - SnapWindow);
    var hi := IMin(|audio|, raw + SnapWindow);
    if hi > lo {
      var w := audio[lo..hi];
      var k := ArgMinAbs(w);
      assert forall j :: lo <= j < hi ==> w[j - lo] == audio[j];
      assert audio[lo + k] == w[k];
    }
  }

  // ---------------------------------------------------------------------------
  // One interval
  // ---------------------------------------------------------------------------

  /** The start proposed by the first voiced frame: its first sample, snapped, in seconds. */
  function CandidateStart(audio: seq<real>, first: nat): real
  {
    Snap(audio, first * FrameSize) as real / SampleRate as real
  }

  /** The end proposed by the last voiced frame: the sample after it, snapped, in
      seconds, plus `EndLift`. */
  function CandidateEnd(audio: seq<real>, last: nat): real
  {
    Snap(audio, last * FrameSize + FrameSize) as real / SampleRate as real + EndLift
  }

  /** The corrected bounds from the first and last voiced frames: each replaces the
      original only when it lies within the drift limit, and is then kept clear of
      the neighbours. */
  function Moved(s: seq<Span>, i: nat, audio: seq<real>, first: nat, last: nat, mode: Mode): Span
    requires i < |s|
  {
    var candS := CandidateStart(audio, first);
    var candE := CandidateEnd(audio, last);
    var start := if Abs(candS - s[i].start) < MaxStartDrift(mode) then RMax(PrevEnd(s, i), candS) else s[i].start;
    var end := if Abs(candE - s[i].end) < MaxEndDrift then RMin(NextStart(s, i, |audio|) - EndMargin, candE) else s[i].end;
    Span(start, end)
  }

  /** The degenerate guard: an interval that does not end after it starts lasts `MinFix`. */
  function Guard(sp: Span): Span
  {
    if sp.end <= sp.start then Span(sp.start, sp.start + MinFix) else sp
  }

  /** The frames searched for interval `i`. */
  function Frames(s: seq<Span>, i: nat, samples: nat, frames: nat): (nat, nat)
    requires i < |s|
  {
    (FrameIndex(WindowStart(s, i), frames), FrameIndex(WindowEnd(s, i, samples), frames))
  }

  /** Interval `i` after the solver; an empty frame window skips it entirely, the guard included. */
  function RefineOne(s: seq<Span>, i: nat, audio: seq<real>, probs: seq<real>, mode: Mode): Span
    requires i < |s|
  {
    var (lo, hi) := Frames(s, i, |audio|, |probs|);
    if lo >= hi then s[i]
    else
      var moved := match (FirstHit(probs, lo, hi), LastHit(probs, lo, hi))
                   case (Some(f), Some(l)) => Moved(s, i, audio, f, l, mode)
                   case _ => s[i];
      Guard(moved)
  }

  /** All intervals after the solver; every window is computed from the original bounds. */
  function Refined(s: seq<Span>, audio: seq<real>, probs: seq<real>, mode: Mode): (r: seq<Span>)
    ensures |r| == |s|
  {
    seq(|s|, i requires 0 <= i < |s| => RefineOne(s, i, audio, probs, mode))
  }

  /** One pass of the solver loop: the refined interval `i`, from the original bounds. */
  method RefineAt(spans: seq<Span>, i: nat, audio: seq<real>, probs: seq<real>, mode: Mode) returns (r: Span)
    requires i < |spans|
    ensures r == RefineOne(spans, i, audio, probs, mode)
  {
    var lo := FrameIndex(WindowStart(spans, i), |probs|);
    var hi := FrameIndex(WindowEnd(spans, i, |audio|), |probs|);
    assert (lo, hi) == Frames(spans, i, |audio|, |probs|);
    if lo >= hi {
      return spans[i];
    }
    var start := spans[i].start;
    var end := spans[i].end;
    var first := FirstHit(probs, lo, hi);
    var last := LastHit(probs, lo, hi);
    if first.Some? && last.Some? {
      var candS := CandidateStart(audio, first.value);
      var candE := CandidateEnd(audio, last.value);
      if Abs(candS - spans[i].start) < MaxStartDrift(mode) {
        start := RMax(PrevEnd(spans, i), candS);
      }
      if Abs(candE - spans[i].end) < MaxEndDrift {
        end := RMin(NextStart(spans, i, |audio|) - EndMargin, candE);
      }
      assert Span(start, end) == Moved(spans, i, audio, first.value, last.value, mode);
    }
    if end <= start {
      end := start + MinFix;
    }
    r := Span(start, end);
  }

  /** The solver loop over the intervals, in place. The original bounds are copied
      first, as the source does into `starts`, `ends`, `prev_ends` and `next_starts`. */
  method Solve(a: array<Span>, audio: seq<real>, probs: seq<real>, mode: Mode)
    modifies a
    ensures a[..] == Refined(old(a[..]), audio, probs, mode)
  {
    var spans := a[..];
    ghost var target := Refined(spans, audio, probs, mode);
    var i := 0;
    assert a[..] == target[..0] + spans[0..];
    while i < a.Length
      invariant 0 <= i <= a.Length
      invariant a[..] == target[..i] + spans[i..]
    {
      var r := RefineAt(spans, i, audio, probs, mode);
      assert r == target[i];
      Overwrite(target, spans, i);
      a[i] := r;
      i := i + 1;
    }
    assert target[..i] + spans[i..] == target;
  }

  /** Writing entry `i` of `t` over a copy of `s` that already holds `t` below `i`. */
  lemma Overwrite(t: seq<Span>, s: seq<Span>, i: nat)
    requires i < |t| == |s|
    ensures (t[..i] + s[i..])[i := t[i]] == t[..i + 1] + s[i + 1..]
  {
  }

  /** Whether the solver runs at all: the model loaded, no cancellation between
      batches, and at least one batch (an empty map makes the concatenation raise). */
  datatype VadRun = VadRun(modelLoaded: bool, cancelled: bool)

  predicate Proceeds(run: VadRun, audio: seq<real>)
  {
    run.modelLoaded && !run.cancelled && audio != []
  }

  /** `diamond_refinery` on intervals that all carry `start` and `end`: the solver when
      it runs, otherwise the input as it is. */
  method DiamondRefinery(a: array<Span>, audio: seq<real>, probs: seq<real>, mode: Mode, run: VadRun)
    modifies a
    ensures a[..] == if Proceeds(run, audio) then Refined(old(a[..]), audio, probs, mode) else old(a[..])
  {
    if Proceeds(run, audio) {
      Solve(a, audio, probs, mode);
    }
  }

  // ---------------------------------------------------------------------------
  // Properties
  // ---------------------------------------------------------------------------

  /** A frame is voiced somewhere in the window exactly when both scans find one, the
      first no later than the last. */
  lemma HitsAgree(probs: seq<real>, lo: nat, hi: nat)
    requires lo <= hi <= |probs|
    ensures FirstHit(probs, lo, hi).Some? <==> LastHit(probs, lo, hi).Some?
    ensures FirstHit(probs, lo, hi).Some? ==> FirstHit(probs, lo, hi).value <= LastHit(probs, lo, hi).value
  {
    var f := FirstHit(probs, lo, hi);
    var l := LastHit(probs, lo, hi);
    if f.Some? {
      assert probs[f.value] > VadThreshold;
    }
    if l.Some? {
      assert probs[l.value] > VadThreshold;
    }
  }

  /** The frames searched lie inside the probability map, and a window is scanned
      only when its clamped start frame comes before its end frame. */
  lemma FramesInMap(s: seq<Span>, i: nat, samples: nat, frames: nat)
    requires i < |s|
    ensures Frames(s, i, samples, frames).0 <= frames && Frames(s, i, samples, frames).1 <= frames
  {
  }

  /** A window without a voiced frame has neither a first nor a last hit. */
  lemma {:induction false} NoHit(probs: seq<real>, lo: nat, hi: nat)
    requires lo <= hi <= |probs|
    requires forall k :: lo <= k < hi ==> probs[k] <= VadThreshold
    ensures FirstHit(probs, lo, hi).None? && LastHit(probs, lo, hi).None?
    decreases hi - lo
  {
    if lo < hi {
      NoHit(probs, lo + 1, hi);
      NoHit(probs, lo, hi - 1);
    }
  }

  /** A skipped interval comes back exactly as it was, even a degenerate one. */
  lemma SkippedUnchanged(s: seq<Span>, i: nat, audio: seq<real>, probs: seq<real>, mode: Mode)
    requires i < |s|
    requires Frames(s, i, |audio|, |probs|).0 >= Frames(s, i, |audio|, |probs|).1
    ensures RefineOne(s, i, audio, probs, mode) == s[i]
  {
  }

  /** Without frames nothing is scanned, so a degenerate interval stays degenerate:
      the `continue` also skips the guard. */
  lemma SkipKeepsDegenerate()
    ensures Refined([Span(1.0, 0.5)], [], [], Sentence) == [Span(1.0, 0.5)]
  {
    assert RefineOne([Span(1.0, 0.5)], 0, [], [], Sentence) == Span(1.0, 0.5);
  }

  /** Every interval that is scanned ends after it starts. */
  lemma ScannedPositive(s: seq<Span>, i: nat, audio: seq<real>, probs: seq<real>, mode: Mode)
    requires i < |s|
    requires Frames(s, i, |audio|, |probs|).0 < Frames(s, i, |audio|, |probs|).1
    ensures RefineOne(s, i, audio, probs, mode).end > RefineOne(s, i, audio, probs, mode).start
  {
  }

  /** With no voiced frame in the window only the guard can change the interval. */
  lemma SilentWindow(s: seq<Span>, i: nat, audio: seq<real>, probs: seq<real>, mode: Mode)
    requires i < |s|
    requires
      var (lo, hi) := Frames(s, i, |audio|, |probs|);
      lo < hi && forall k :: lo <= k < hi ==> probs[k] <= VadThreshold
    ensures RefineOne(s, i, audio, probs, mode) == Guard(s[i])
  {
    var (lo, hi) := Frames(s, i, |audio|, |probs|);
    NoHit(probs, lo, hi);
  }

  /** Unless the previous interval ends more than the start drift limit after this one
      starts, a start moves by less than that limit, and the guard never moves a start. */
  lemma StartDrift(s: seq<Span>, i: nat, audio: seq<real>, probs: seq<real>, mode: Mode)
    requires i < |s|
    requires PrevEnd(s, i) - s[i].start < MaxStartDrift(mode)
    ensures
      var r := RefineOne(s, i, audio, probs, mode);
      r.start == s[i].start || Abs(r.start - s[i].start) < MaxStartDrift(mode)
  {
  }

  /** Unless the next interval starts more than the end drift limit before this one
      ends, an end moves by less than that limit, or the guard gives the interval its
      minimum duration. */
  lemma EndDrift(s: seq<Span>, i: nat, audio: seq<real>, probs: seq<real>, mode: Mode)
    requires i < |s|
    requires s[i].end - (NextStart(s, i, |audio|) - EndMargin) < MaxEndDrift
    ensures
      var r := RefineOne(s, i, audio, probs, mode);
      r.end == s[i].end || Abs(r.end - s[i].end) < MaxEndDrift || r.end == r.start + MinFix
  {
  }

  /** An accepted start never reaches back before the previous interval's end plus
      the margin, and an accepted end stays before the next window. */
  lemma MovedStaysClear(s: seq<Span>, i: nat, audio: seq<real>, first: nat, last: nat, mode: Mode)
    requires i < |s|
    ensures
      var m := Moved(s, i, audio, first, last, mode);
      (m.start != s[i].start ==> m.start >= PrevEnd(s, i)) &&
      (m.end != s[i].end ==> m.end <= NextStart(s, i, |audio|) - EndMargin)
  {
  }
}
