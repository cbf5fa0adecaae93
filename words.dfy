/**
 * The word-level refinement of the engine: every word of every segment is
 * flattened into one list, refined by the solver in one run, and the refined
 * words are handed back to the segments by count.
 */
module WordRefinement {
  import opened Wrappers
  import opened Records
  import opened Refinery

  /** The `start`/`end` of timed words. */
  function Spans(ws: seq<Word>): (r: seq<Span>)
    requires AllTimed(ws)
    ensures |r| == |ws|
  {
    seq(|ws|, k requires 0 <= k < |ws| => ws[k].time.value)
  }

  /** The words with new `start`/`end`; everything else about them is kept. */
  function WithSpans(ws: seq<Word>, sp: seq<Span>): (r: seq<Word>)
    requires |sp| == |ws|
    ensures |r| == |ws|
  {
    seq(|ws|, k requires 0 <= k < |ws| => ws[k].(time := Some(sp[k])))
  }

  /** `diamond_refinery(all_words, audio, mode="word")`: the solver when it runs and
      every word has a time; a word without one raises while the times are read,
      before anything is changed, and the handler returns the words as they were. */
  function RefinedWords(ws: seq<Word>, audio: seq<real>, probs: seq<real>, run: VadRun): seq<Word>
  {
    if Proceeds(run, audio) && AllTimed(ws) then WithSpans(ws, Refined(Spans(ws), audio, probs, WordLevel))
    else ws
  }

  /** Where segment `i`'s words start in the flat list. */
  function Offset(segs: seq<Segment>, i: nat): nat
    requires i <= |segs|
  {
    |AllWords(segs[..i])|
  }

  /** The redistribution: segment `i` takes the next `len(s["words"])` words of `ws`. */
  function Redistributed(segs: seq<Segment>, ws: seq<Word>): (r: seq<Segment>)
    requires |ws| == |AllWords(segs)|
    ensures |r| == |segs|
  {
    seq(|segs|, i requires 0 <= i < |segs| => RedistributedAt(segs, ws, i))
  }

  /** Segment `i` after the redistribution. */
  function RedistributedAt(segs: seq<Segment>, ws: seq<Word>, i: nat): Segment
    requires |ws| == |AllWords(segs)| && i < |segs|
  {
    OffsetBounds(segs, i);
    segs[i].(words := ws[Offset(segs, i)..Offset(segs, i) + |segs[i].words|])
  }

  /** The word refinement of lines 322-337 on the segments. */
  function WordRefined(segs: seq<Segment>, audio: seq<real>, probs: seq<real>, run: VadRun): seq<Segment>
  {
    var all := AllWords(segs);
    if all == [] then segs else Redistributed(segs, RefinedWords(all, audio, probs, run))
  }

  /** The flatten-refine-redistribute step. */
  method RefineSegmentWords(segs: seq<Segment>, audio: seq<real>, probs: seq<real>, run: VadRun)
    returns (r: seq<Segment>)
    ensures r == WordRefined(segs, audio, probs, run)
  {
    var all := CollectAllWords(segs);
    if all == [] {
      return segs;
    }
    var refined := RefineWordArray(all, audio, probs, run);
    r := HandBack(segs, refined);
  }

  /** `all_words.extend(s["words"])` for every segment in order. */
  method CollectAllWords(segs: seq<Segment>) returns (all: seq<Word>)
    ensures all == AllWords(segs)
  {
    all := [];
    var i := 0;
    while i < |segs|
      invariant 0 <= i <= |segs|
      invariant all == AllWords(segs[..i])
    {
      all := all + segs[i].words;
      assert segs[..i + 1][..i] == segs[..i];
      i := i + 1;
    }
    assert segs[..i] == segs;
  }

  /** The distribution loop: each segment takes the next `count` refined words. */
  method HandBack(segs: seq<Segment>, refined: seq<Word>) returns (r: seq<Segment>)
    requires |refined| == |AllWords(segs)|
    ensures r == Redistributed(segs, refined)
  {
    r := [];
    var curr := 0;
    var i := 0;
    while i < |segs|
      invariant 0 <= i <= |segs|
      invariant curr == Offset(segs, i)
      invariant |r| == i
      invariant forall k :: 0 <= k < i ==> r[k] == RedistributedAt(segs, refined, k)
    {
      OffsetBounds(segs, i);
      var count := |segs[i].words|;
      r := r + [segs[i].(words := refined[curr..curr + count])];
      curr := curr + count;
      OffsetStep(segs, i);
      i := i + 1;
    }
    assert forall k :: 0 <= k < |segs| ==> r[k] == Redistributed(segs, refined)[k];
  }

  /** The solver run over the flat list, on an array of its spans. */
  method RefineWordArray(ws: seq<Word>, audio: seq<real>, probs: seq<real>, run: VadRun)
    returns (r: seq<Word>)
    ensures r == RefinedWords(ws, audio, probs, run)
  {
    if !AllTimed(ws) {
      return ws;
    }
    var a := new Span[|ws|](k requires 0 <= k < |ws| => ws[k].time.value);
    assert a[..] == Spans(ws);
    DiamondRefinery(a, audio, probs, WordLevel, run);
    if Proceeds(run, audio) {
      r := WithSpans(ws, a[..]);
    } else {
      r := ws;
    }
  }

  // ---------------------------------------------------------------------------
  // Properties
  // ---------------------------------------------------------------------------

  lemma {:induction false} AllWordsPrefix(segs: seq<Segment>, i: nat)
    requires i <= |segs|
    ensures |AllWords(segs[..i])| <= |AllWords(segs)|
    ensures AllWords(segs)[..|AllWords(segs[..i])|] == AllWords(segs[..i])
    decreases |segs|
  {
    if i == |segs| {
      assert segs[..i] == segs;
    } else {
      var init := segs[..|segs| - 1];
      assert init[..i] == segs[..i];
      AllWordsPrefix(init, i);
      assert AllWords(segs) == AllWords(init) + segs[|segs| - 1].words;
    }
  }

  /** Segment `i`'s words sit right after its offset in the flat list. */
  lemma OffsetStep(segs: seq<Segment>, i: nat)
    requires i < |segs|
    ensures Offset(segs, i + 1) == Offset(segs, i) + |segs[i].words|
    ensures AllWords(segs[..i + 1]) == AllWords(segs[..i]) + segs[i].words
  {
    assert segs[..i + 1][..i] == segs[..i];
  }

  lemma OffsetBounds(segs: seq<Segment>, i: nat)
    requires i < |segs|
    ensures Offset(segs, i) + |segs[i].words| <= |AllWords(segs)|
  {
    OffsetStep(segs, i);
    AllWordsPrefix(segs, i + 1);
  }

  /** Every segment gets back exactly as many words as it had; its time and text
      and the order of the segments are kept. */
  lemma RedistributionKeepsCounts(segs: seq<Segment>, ws: seq<Word>, i: nat)
    requires |ws| == |AllWords(segs)| && i < |segs|
    ensures |Redistributed(segs, ws)[i].words| == |segs[i].words|
    ensures Redistributed(segs, ws)[i].(words := segs[i].words) == segs[i]
  {
    OffsetBounds(segs, i);
  }

  /** Read back in order, the redistributed segments hold exactly the list handed in. */
  lemma {:induction false} RedistributionKeepsOrder(segs: seq<Segment>, ws: seq<Word>, i: nat)
    requires |ws| == |AllWords(segs)| && i <= |segs|
    ensures Offset(segs, i) <= |ws|
    ensures AllWords(Redistributed(segs, ws)[..i]) == ws[..Offset(segs, i)]
  {
    var r := Redistributed(segs, ws);
    if i == 0 {
      assert r[..0] == [];
    } else {
      RedistributionKeepsOrder(segs, ws, i - 1);
      OffsetBounds(segs, i - 1);
      OffsetStep(segs, i - 1);
      assert r[..i][..i - 1] == r[..i - 1];
      var a := Offset(segs, i - 1);
      var b := Offset(segs, i);
      assert r[i - 1].words == ws[a..b];
      assert ws[..a] + ws[a..b] == ws[..b];
    }
  }

  /** Together the redistributed segments hold the list handed in. */
  lemma RedistributedWords(segs: seq<Segment>, ws: seq<Word>)
    requires |ws| == |AllWords(segs)|
    ensures AllWords(Redistributed(segs, ws)) == ws
  {
    RedistributionKeepsOrder(segs, ws, |segs|);
    var r := Redistributed(segs, ws);
    assert r[..|segs|] == r;
    assert segs[..|segs|] == segs;
  }

  /** Handing a segment list its own words back changes nothing. */
  lemma RedistributeOwnWords(segs: seq<Segment>)
    ensures Redistributed(segs, AllWords(segs)) == segs
  {
    var r := Redistributed(segs, AllWords(segs));
    forall i | 0 <= i < |segs|
      ensures r[i] == segs[i]
    {
      OwnSlice(segs, i);
      assert r[i] == RedistributedAt(segs, AllWords(segs), i);
    }
  }

  lemma OwnSlice(segs: seq<Segment>, i: nat)
    requires i < |segs|
    ensures Offset(segs, i) + |segs[i].words| <= |AllWords(segs)|
    ensures AllWords(segs)[Offset(segs, i)..Offset(segs, i) + |segs[i].words|] == segs[i].words
  {
    OffsetStep(segs, i);
    AllWordsPrefix(segs, i + 1);
    var all := AllWords(segs);
    var a := Offset(segs, i);
    var b := Offset(segs, i + 1);
    var pre := all[..b];
    assert pre == AllWords(segs[..i]) + segs[i].words;
    assert all[a..b] == pre[a..b];
  }

  /** The refined word list is as long as the input; each word keeps its `word` and
      `text`, and only a timed word's time can change. */
  lemma RefinedWordsShape(ws: seq<Word>, audio: seq<real>, probs: seq<real>, run: VadRun)
    ensures |RefinedWords(ws, audio, probs, run)| == |ws|
    ensures forall k :: 0 <= k < |ws| ==>
      RefinedWords(ws, audio, probs, run)[k].word == ws[k].word &&
      RefinedWords(ws, audio, probs, run)[k].text == ws[k].text &&
      RefinedWords(ws, audio, probs, run)[k].time.Some? == ws[k].time.Some?
  {
  }

  /** After the word refinement every segment has as many words as before, the
      segments keep their own times and texts, and the words keep their order. */
  lemma WordRefinedShape(segs: seq<Segment>, audio: seq<real>, probs: seq<real>, run: VadRun)
    ensures |WordRefined(segs, audio, probs, run)| == |segs|
    ensures forall i :: 0 <= i < |segs| ==>
      |WordRefined(segs, audio, probs, run)[i].words| == |segs[i].words| &&
      WordRefined(segs, audio, probs, run)[i].(words := segs[i].words) == segs[i]
    ensures AllWords(WordRefined(segs, audio, probs, run)) == RefinedWords(AllWords(segs), audio, probs, run)
  {
    var all := AllWords(segs);
    if all != [] {
      var ws := RefinedWords(all, audio, probs, run);
      RefinedWordsShape(all, audio, probs, run);
      forall i | 0 <= i < |segs|
        ensures |WordRefined(segs, audio, probs, run)[i].words| == |segs[i].words|
        ensures WordRefined(segs, audio, probs, run)[i].(words := segs[i].words) == segs[i]
      {
        RedistributionKeepsCounts(segs, ws, i);
      }
      RedistributedWords(segs, ws);
    }
  }

  /** A failed or skipped run leaves every segment as it was. */
  lemma WordRefinedIdle(segs: seq<Segment>, audio: seq<real>, probs: seq<real>, run: VadRun)
    requires !Proceeds(run, audio) || !AllTimed(AllWords(segs))
    ensures WordRefined(segs, audio, probs, run) == segs
  {
    RedistributeOwnWords(segs);
  }

  /** The timed-word stream read after the refinement is the refined flat list with
      the untimed words dropped: the subtitles by word see the refined times. */
  lemma TimedAfterRefinement(segs: seq<Segment>, audio: seq<real>, probs: seq<real>, run: VadRun)
    ensures TimedWords(WordRefined(segs, audio, probs, run)) == FilterTimed(RefinedWords(AllWords(segs), audio, probs, run))
  {
    WordRefinedShape(segs, audio, probs, run);
  }
}
