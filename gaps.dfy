/**
 * The gap distributor (`waveform_finetune_chronos`): each small silence between two
 * words of a segment is shared out, the earlier word ending later and the later word
 * starting earlier; then the segment is re-bounded by its first and last word.
 */
module GapDistributor {
  import opened Wrappers
  import opened Records

  function Min(x: real, y: real): real { if x <= y then x else y }

  /** How far word `i` is extended and word `i + 1` is started earlier. A pair with an
      untimed word raises `KeyError` inside the `try`, so it is skipped. */
  function Shift(ws: seq<Word>, i: nat): real
    requires i + 1 < |ws|
  {
    if ws[i].time.Some? && ws[i + 1].time.Some? then
      var gap := ws[i + 1].time.value.start - ws[i].time.value.end;
      if 0.0 < gap < 0.3 then Min(gap * 0.4, 0.08) else 0.0
    else 0.0
  }

  /** Moves the start of a timed word by `ds` and its end by `de`. */
  function Move(w: Word, ds: real, de: real): Word
  {
    match w.time
    case None => w
    case Some(t) => w.(time := Some(Span(t.start + ds, t.end + de)))
  }

  function ShiftBefore(ws: seq<Word>, k: nat): real
    requires k < |ws|
  {
    if k > 0 then Shift(ws, k - 1) else 0.0
  }

  function ShiftAfter(ws: seq<Word>, k: nat): real
    requires k < |ws|
  {
    if k + 1 < |ws| then Shift(ws, k) else 0.0
  }

  /** The words after the pass. Step `i` reads the `end` of word `i` and the `start` of word
      `i + 1`, and no other step writes those, so every shift depends only on the input. */
  function Distributed(ws: seq<Word>): seq<Word>
  {
    seq(|ws|, k requires 0 <= k < |ws| => DistributedAt(ws, k))
  }

  /** Word `k` after the pass. */
  function DistributedAt(ws: seq<Word>, k: nat): Word
    requires k < |ws|
  {
    Move(ws[k], -ShiftBefore(ws, k), ShiftAfter(ws, k))
  }

  /** The inner loop over adjacent word pairs, in place. */
  method DistributeGaps(ws: array<Word>)
    modifies ws
    ensures ws[..] == Distributed(old(ws[..]))
  {
    ghost var orig := ws[..];
    var i := 0;
    while i + 1 < ws.Length
      invariant 0 <= i <= ws.Length
      invariant ws.Length == 0 || i < ws.Length
      invariant forall k :: 0 <= k < i ==> ws[k] == DistributedAt(orig, k)
      invariant i < ws.Length ==> ws[i] == Move(orig[i], -ShiftBefore(orig, i), 0.0)
      invariant forall k :: i < k < ws.Length ==> ws[k] == orig[k]
    {
      var w1, w2 := ws[i], ws[i + 1];
      if w1.time.Some? && w2.time.Some? {
        var gap := w2.time.value.start - w1.time.value.end;
        if 0.0 < gap < 0.3 {
          var dist := Min(gap * 0.4, 0.08);
          ws[i] := w1.(time := Some(w1.time.value.(end := w1.time.value.end + dist)));
          ws[i + 1] := w2.(time := Some(w2.time.value.(start := w2.time.value.start - dist)));
        }
      }
      assert ws[i] == DistributedAt(orig, i);
      assert ws[i + 1] == Move(orig[i + 1], -ShiftBefore(orig, i + 1), 0.0);
      i := i + 1;
    }
    if ws.Length > 0 {
      assert ws[i] == DistributedAt(orig, i);
    }
    assert forall k :: 0 <= k < ws.Length ==> ws[k] == Distributed(orig)[k];
  }

  /** One segment: `None` when setting its bounds from the words raises `KeyError`
      (the first or the last word is untimed). */
  function FinetuneSegment(seg: Segment): Option<Segment>
  {
    if seg.words == [] then Some(seg)
    else
      var ws := Distributed(seg.words);
      if ws[0].time.None? || ws[|ws| - 1].time.None? then None
      else Some(seg.(start := ws[0].time.value.start, end := ws[|ws| - 1].time.value.end, words := ws))
  }

  /** All segments, in order; `None` when any of them raises. */
  function Finetune(segs: seq<Segment>): Option<seq<Segment>>
  {
    if segs == [] then Some([])
    else
      match Finetune(segs[..|segs| - 1])
      case None => None
      case Some(done) =>
        match FinetuneSegment(segs[|segs| - 1])
        case None => None
        case Some(s) => Some(done + [s])
  }

  /** `waveform_finetune_chronos`. `None` stands for the `KeyError` it raises when a
      segment's first or last word has no time. */
  method WaveformFinetune(segs: seq<Segment>) returns (r: Option<seq<Segment>>)
    ensures r == Finetune(segs)
  {
    var refined: seq<Segment> := [];
    var i := 0;
    while i < |segs|
      invariant 0 <= i <= |segs|
      invariant Finetune(segs[..i]) == Some(refined)
    {
      assert segs[..i + 1][..i] == segs[..i];
      var seg := segs[i];
      if seg.words == [] {
        refined := refined + [seg];
        i := i + 1;
        continue;
      }
      var words := new Word[|seg.words|](k requires 0 <= k < |seg.words| => seg.words[k]);
      assert words[..] == seg.words;
      DistributeGaps(words);
      var ws := words[..];
      if ws[0].time.None? || ws[|ws| - 1].time.None? {
        FinetuneFailsFrom(segs, i + 1);
        return None;
      }
      seg := seg.(start := ws[0].time.value.start, end := ws[|ws| - 1].time.value.end, words := ws);
      refined := refined + [seg];
      i := i + 1;
    }
    assert segs[..i] == segs;
    r := Some(refined);
  }

  /** Once a prefix fails, every longer prefix fails. */
  lemma {:induction false} FinetuneFailsFrom(segs: seq<Segment>, n: nat)
    requires n <= |segs| && Finetune(segs[..n]) == None
    ensures Finetune(segs) == None
    decreases |segs| - n
  {
    if n < |segs| {
      assert segs[..n + 1][..n] == segs[..n];
      FinetuneFailsFrom(segs, n + 1);
    } else {
      assert segs[..n] == segs;
    }
  }

  /** A pair with a gap strictly between 0 and 0.3 s moves towards each other by
      `min(0.4 * gap, 0.08)` on each side and keeps at least a fifth of its gap; any other
      pair keeps its facing bounds. */
  lemma DistributedPair(ws: seq<Word>, i: nat)
    requires i + 1 < |ws| && ws[i].time.Some? && ws[i + 1].time.Some?
    ensures var r := Distributed(ws);
            var gap := ws[i + 1].time.value.start - ws[i].time.value.end;
            var newGap := r[i + 1].time.value.start - r[i].time.value.end;
            && r[i].time.Some? && r[i + 1].time.Some?
            && (0.0 < gap < 0.3 ==>
                  && r[i].time.value.end == ws[i].time.value.end + Min(0.4 * gap, 0.08)
                  && r[i + 1].time.value.start == ws[i + 1].time.value.start - Min(0.4 * gap, 0.08)
                  && newGap >= 0.2 * gap > 0.0)
            && (!(0.0 < gap < 0.3) ==> newGap == gap)
  {
  }

  /** The words keep their labels and whether they are timed; an untimed word is untouched. */
  lemma DistributedKeepsWords(ws: seq<Word>, k: nat)
    requires k < |ws|
    ensures |Distributed(ws)| == |ws|
    ensures Distributed(ws)[k].word == ws[k].word && Distributed(ws)[k].text == ws[k].text
    ensures Distributed(ws)[k].time.Some? == ws[k].time.Some?
    ensures ws[k].time.None? ==> Distributed(ws)[k] == ws[k]
  {
  }

  /** A segment without words is passed through; a segment with words gets the words after
      the pass and is bounded by its first word's start and its last word's end. */
  lemma FinetuneSegmentBounds(seg: Segment)
    ensures seg.words == [] ==> FinetuneSegment(seg) == Some(seg)
    ensures match FinetuneSegment(seg)
            case None => seg.words != []
            case Some(s) =>
              && s.text == seg.text
              && (seg.words != [] ==>
                    && s.words == Distributed(seg.words)
                    && s.words[0].time.Some? && s.start == s.words[0].time.value.start
                    && s.words[|s.words| - 1].time.Some? && s.end == s.words[|s.words| - 1].time.value.end)
  {
  }

  /** The successful result has one segment per input segment, in order, each the
      segment's own result. */
  lemma {:induction false} FinetuneElementwise(segs: seq<Segment>)
    ensures match Finetune(segs)
            case None => exists k :: 0 <= k < |segs| && FinetuneSegment(segs[k]) == None
            case Some(r) => |r| == |segs| && forall k :: 0 <= k < |segs| ==> FinetuneSegment(segs[k]) == Some(r[k])
  {
    if segs != [] {
      var init := segs[..|segs| - 1];
      FinetuneElementwise(init);
      match Finetune(init)
      case None =>
        var k :| 0 <= k < |init| && FinetuneSegment(init[k]) == None;
        assert segs[k] == init[k];
      case Some(done) =>
        assert forall k :: 0 <= k < |init| ==> segs[k] == init[k];
    }
  }
}
