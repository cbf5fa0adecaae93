/**
 * The records the subtitle engine passes between its stages. The source keeps
 * them as dictionaries; a key that may be missing is an `Option` here.
 */
module Records {
  import opened Wrappers

  /** The `start` and `end` keys of a record, in seconds. */
  datatype Span = Span(start: real, end: real)

  /** A word from the aligner: its `word` (and, rarely, `text`) key, and `start`/`end`
      when the aligner could time it (an untimed word has neither key). */
  datatype Word = Word(word: Option<string>, text: Option<string>, time: Option<Span>)
  {
    /** `w.get("word", "")` */
    function Label(): string { word.GetOr("") }
  }

  /** A sentence segment from the aligner. A missing `words` key behaves exactly like an
      empty list everywhere it is read, so it is held as `[]`. */
  datatype Segment = Segment(start: real, end: real, text: string, words: seq<Word>)

  /** An output subtitle entry `{start, end, text}`. */
  datatype Cue = Cue(start: real, end: real, text: string)

  predicate AllTimed(ws: seq<Word>)
  {
    forall k :: 0 <= k < |ws| ==> ws[k].time.Some?
  }

  /** Every word of every segment, in order (`for s in segs: all_words.extend(s["words"])`). */
  function AllWords(segs: seq<Segment>): seq<Word>
  {
    if segs == [] then [] else AllWords(segs[..|segs| - 1]) + segs[|segs| - 1].words
  }

  /** The words that carry a time, in order. */
  function FilterTimed(ws: seq<Word>): (r: seq<Word>)
    ensures AllTimed(r) && |r| <= |ws|
  {
    if ws == [] then []
    else (if ws[0].time.Some? then [ws[0]] else []) + FilterTimed(ws[1..])
  }

  /** The flat stream of timed words (`if "start" in w: words.append(w)` over all segments). */
  function TimedWords(segs: seq<Segment>): (r: seq<Word>)
    ensures AllTimed(r)
  {
    FilterTimed(AllWords(segs))
  }

  /** Filtering distributes over concatenation: the filter keeps order. */
  lemma {:induction false} FilterTimedAppend(a: seq<Word>, b: seq<Word>)
    ensures FilterTimed(a + b) == FilterTimed(a) + FilterTimed(b)
  {
    if a == [] {
      assert a + b == b;
    } else {
      var ab := a + b;
      assert ab[0] == a[0];
      assert ab[1..] == a[1..] + b;
      FilterTimedAppend(a[1..], b);
      calc {
        FilterTimed(ab);
        (if a[0].time.Some? then [a[0]] else []) + FilterTimed(a[1..] + b);
        (if a[0].time.Some? then [a[0]] else []) + (FilterTimed(a[1..]) + FilterTimed(b));
        FilterTimed(a) + FilterTimed(b);
      }
    }
  }

  /** A word is kept exactly when it is in the input and timed. */
  lemma {:induction false} FilterTimedMembers(ws: seq<Word>, w: Word)
    ensures w in FilterTimed(ws) <==> w in ws && w.time.Some?
  {
    if ws != [] {
      FilterTimedMembers(ws[1..], w);
      assert ws == [ws[0]] + ws[1..];
    }
  }

  /** When every word is timed nothing is dropped. */
  lemma {:induction false} FilterTimedAll(ws: seq<Word>)
    requires AllTimed(ws)
    ensures FilterTimed(ws) == ws
  {
    if ws != [] {
      FilterTimedAll(ws[1..]);
    }
  }

  /** The nested loop that collects the timed words of all segments
      (src/engine/logic.py:135-139 and, identically, src/engine/worker.py:353-357). */
  method CollectTimedWords(segs: seq<Segment>) returns (words: seq<Word>)
    ensures words == TimedWords(segs)
  {
    words := [];
    var i := 0;
    while i < |segs|
      invariant 0 <= i <= |segs|
      invariant words == FilterTimed(AllWords(segs[..i]))
    {
      ghost var before := AllWords(segs[..i]);
      var ws := segs[i].words;
      var j := 0;
      assert before + ws[..0] == before;
      while j < |ws|
        invariant 0 <= j <= |ws|
        invariant words == FilterTimed(before + ws[..j])
      {
        TimedStep(before, ws, j);
        if ws[j].time.Some? {
          words := words + [ws[j]];
        }
        j := j + 1;
      }
      assert ws[..j] == ws;
      assert segs[..i + 1][..i] == segs[..i];
      i := i + 1;
    }
    assert segs[..i] == segs;
  }

  /** One word of the inner loop: it is kept exactly when it is timed. */
  lemma TimedStep(before: seq<Word>, ws: seq<Word>, j: nat)
    requires j < |ws|
    ensures FilterTimed(before + ws[..j + 1]) ==
            FilterTimed(before + ws[..j]) + (if ws[j].time.Some? then [ws[j]] else [])
  {
    FilterTimedAppend(before + ws[..j], [ws[j]]);
    assert before + ws[..j + 1] == (before + ws[..j]) + [ws[j]];
    assert FilterTimed([ws[j]]) == (if ws[j].time.Some? then [ws[j]] else []) + FilterTimed([]);
  }
}
