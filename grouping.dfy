/**
 * The left-to-right scan of `miller_hybrid_split` that cuts the flat stream of
 * timed words into groups, one subtitle entry per group.
 */
module Grouping {
  import opened Wrappers
  import opened Text
  import opened Records
  import opened SegmenterConfig

  /** The `word` labels of a group, in order. */
  function Labels(g: seq<Word>): (r: seq<string>)
    ensures |r| == |g|
  {
    seq(|g|, k requires 0 <= k < |g| => g[k].Label())
  }

  /** `current_len`: the summed label lengths plus one per word. */
  function CurrentLength(g: seq<Word>): nat
  {
    TotalLength(Labels(g)) + |g|
  }

  /** `any(p in word for p in [".", "?", "!", ":"])`: a substring test, not an ends-with. */
  predicate HasStrongMark(s: string) { '.' in s || '?' in s || '!' in s || ':' in s }

  /** `any(p in word for p in [",", ";"])` */
  predicate HasSoftMark(s: string) { ',' in s || ';' in s }

  /** `any(p in word for p in [".", "?", "!"])` */
  predicate HasSentenceEnd(s: string) { '.' in s || '?' in s || '!' in s }

  /** The time between the last word of the group and the next word. */
  function Gap(group: seq<Word>, w: Word): real
    requires group != [] && AllTimed(group) && w.time.Some?
  {
    w.time.value.start - group[|group| - 1].time.value.end
  }

  /** Whether the word `w` opens a new group after the non-empty `group`: the word
      limit, the character capacity, punctuation once the group is long enough, and
      silence after the last word. */
  predicate SplitBefore(group: seq<Word>, w: Word, lim: Limits)
    requires group != [] && AllTimed(group) && w.time.Some?
  {
    var last := group[|group| - 1].Label();
    var curLen := CurrentLength(group);
    var byCount := lim.maxWords > 0 && |group| >= lim.maxWords;
    var byLength :=
      lim.baseLimit > 0 &&
      (curLen + |w.Label()| > Capacity(lim) ||
       (curLen as real >= lim.baseLimit as real * 0.7 &&
        (HasStrongMark(last) || (HasSoftMark(last) && curLen >= lim.baseLimit))));
    var gap := Gap(group, w);
    byCount || byLength || gap > 0.5 || (HasSentenceEnd(last) && gap > 0.2)
  }

  /** The scan's state: the groups already committed and the open group. */
  datatype ScanState = ScanState(done: seq<seq<Word>>, group: seq<Word>)

  /** One iteration of the scan over the word `w`. */
  function Step(st: ScanState, w: Word, lim: Limits): (r: ScanState)
    requires AllTimed(st.group) && w.time.Some?
    ensures AllTimed(r.group)
  {
    if st.group == [] then ScanState(st.done, [w])
    else if SplitBefore(st.group, w, lim) then ScanState(st.done + [st.group], [w])
    else ScanState(st.done, st.group + [w])
  }

  /** The state after scanning `ws`. */
  function Scan(ws: seq<Word>, lim: Limits): (r: ScanState)
    requires AllTimed(ws)
    ensures AllTimed(r.group)
  {
    if ws == [] then ScanState([], [])
    else Step(Scan(ws[..|ws| - 1], lim), ws[|ws| - 1], lim)
  }

  /** The groups of the stream: the committed ones and the final open group. */
  function Groups(ws: seq<Word>, lim: Limits): seq<seq<Word>>
    requires AllTimed(ws)
  {
    var st := Scan(ws, lim);
    if st.group == [] then st.done else st.done + [st.group]
  }

  /** The words of all groups, in order. */
  function Concat(gs: seq<seq<Word>>): seq<Word>
  {
    if gs == [] then [] else Concat(gs[..|gs| - 1]) + gs[|gs| - 1]
  }

  /** No word of the group was a reason to split before it. */
  predicate NoSplitInside(g: seq<Word>, lim: Limits)
  {
    AllTimed(g) && forall k :: 1 <= k < |g| ==> !SplitBefore(g[..k], g[k], lim)
  }

  /** A grouping the scan would make: every group non-empty with no reason to split
      inside it, and a reason to split at every boundary. */
  predicate WellGrouped(gs: seq<seq<Word>>, lim: Limits)
  {
    (forall i :: 0 <= i < |gs| ==> gs[i] != [] && NoSplitInside(gs[i], lim)) &&
    (forall i :: 0 <= i < |gs| - 1 ==> SplitBefore(gs[i], gs[i + 1][0], lim))
  }

  // ---------------------------------------------------------------------------
  // Properties
  // ---------------------------------------------------------------------------

  predicate ScanOk(st: ScanState, prefix: seq<Word>, lim: Limits)
  {
    && (prefix == [] <==> st.group == [])
    && (prefix == [] ==> st.done == [])
    && Concat(st.done) + st.group == prefix
    && NoSplitInside(st.group, lim)
    && WellGrouped(st.done, lim)
    && (st.done != [] && st.group != [] ==> SplitBefore(st.done[|st.done| - 1], st.group[0], lim))
  }

  lemma ConcatSnoc(gs: seq<seq<Word>>, g: seq<Word>)
    ensures Concat(gs + [g]) == Concat(gs) + g
  {
    assert (gs + [g])[..|gs|] == gs;
  }

  lemma StepOk(st: ScanState, prefix: seq<Word>, w: Word, lim: Limits)
    requires AllTimed(st.group) && w.time.Some?
    requires ScanOk(st, prefix, lim)
    ensures ScanOk(Step(st, w, lim), prefix + [w], lim)
  {
    if st.group == [] {
      assert Concat([]) + [w] == [] + [w];
    } else if SplitBefore(st.group, w, lim) {
      StepCommits(st, prefix, w, lim);
    } else {
      StepExtends(st, prefix, w, lim);
    }
  }

  /** A split commits the open group and opens a new one with the word. */
  lemma StepCommits(st: ScanState, prefix: seq<Word>, w: Word, lim: Limits)
    requires AllTimed(st.group) && w.time.Some? && st.group != []
    requires ScanOk(st, prefix, lim) && SplitBefore(st.group, w, lim)
    ensures ScanOk(ScanState(st.done + [st.group], [w]), prefix + [w], lim)
  {
    ConcatSnoc(st.done, st.group);
    var d := st.done + [st.group];
    assert forall i :: 0 <= i < |st.done| ==> d[i] == st.done[i];
    assert d[|st.done|] == st.group;
  }

  /** Without a split the word joins the open group. */
  lemma StepExtends(st: ScanState, prefix: seq<Word>, w: Word, lim: Limits)
    requires AllTimed(st.group) && w.time.Some? && st.group != []
    requires ScanOk(st, prefix, lim) && !SplitBefore(st.group, w, lim)
    ensures ScanOk(ScanState(st.done, st.group + [w]), prefix + [w], lim)
  {
    var g := st.group + [w];
    assert g[..|st.group|] == st.group;
    assert NoSplitInside(g, lim) by {
      forall k | 1 <= k < |g|
        ensures !SplitBefore(g[..k], g[k], lim)
      {
        if k < |st.group| {
          assert g[..k] == st.group[..k] && g[k] == st.group[k];
        }
      }
    }
    assert Concat(st.done) + g == (Concat(st.done) + st.group) + [w];
  }

  lemma {:induction false} ScanIsOk(ws: seq<Word>, lim: Limits)
    requires AllTimed(ws)
    ensures ScanOk(Scan(ws, lim), ws, lim)
  {
    if ws != [] {
      var p := ws[..|ws| - 1];
      var w := ws[|ws| - 1];
      assert p + [w] == ws;
      assert Scan(ws, lim) == Step(Scan(p, lim), w, lim);
      ScanIsOk(p, lim);
      StepOk(Scan(p, lim), p, w, lim);
    }
  }

  /** The groups are the scan's own: well grouped, and together exactly the stream. */
  lemma GroupsWellFormed(ws: seq<Word>, lim: Limits)
    requires AllTimed(ws)
    ensures WellGrouped(Groups(ws, lim), lim)
    ensures Concat(Groups(ws, lim)) == ws
    ensures ws == [] <==> Groups(ws, lim) == []
  {
    ScanIsOk(ws, lim);
    var st := Scan(ws, lim);
    if st.group != [] {
      ConcatSnoc(st.done, st.group);
      var gs := st.done + [st.group];
      assert forall i :: 0 <= i < |st.done| ==> gs[i] == st.done[i];
    }
  }

  /** With a word limit, no group holds more words than the limit. */
  lemma WordLimitHolds(g: seq<Word>, lim: Limits)
    requires NoSplitInside(g, lim) && lim.maxWords > 0
    ensures |g| <= lim.maxWords
  {
    if |g| > 1 {
      var k := |g| - 1;
      assert !SplitBefore(g[..k], g[k], lim);
    }
  }

  lemma LabelsSnoc(g: seq<Word>, w: Word)
    ensures Labels(g + [w]) == Labels(g) + [w.Label()]
  {
  }

  /** With a positive line width, a group of several words fits the capacity: its
      labels joined by spaces take at most `Capacity` characters. */
  lemma CapacityHolds(g: seq<Word>, lim: Limits)
    requires NoSplitInside(g, lim) && lim.baseLimit > 0 && |g| > 1
    ensures TotalLength(Labels(g)) + |g| - 1 <= Capacity(lim)
    ensures |JoinWith(" ", Labels(g))| <= Capacity(lim)
  {
    var k := |g| - 1;
    assert !SplitBefore(g[..k], g[k], lim);
    assert g == g[..k] + [g[k]];
    LabelsSnoc(g[..k], g[k]);
    TotalLengthAppend(Labels(g[..k]), [g[k].Label()]);
    assert TotalLength([g[k].Label()]) == |g[k].Label()| + TotalLength([]);
    JoinSpaceLength(Labels(g));
  }

  /** Inside a group, consecutive words are at most 0.5 s apart, and at most 0.2 s
      after a word with a sentence mark: a longer silence always starts a new group. */
  lemma SilenceHolds(g: seq<Word>, lim: Limits, k: nat)
    requires NoSplitInside(g, lim) && k + 1 < |g|
    ensures g[k + 1].time.value.start - g[k].time.value.end <= 0.5
    ensures HasSentenceEnd(g[k].Label()) ==> g[k + 1].time.value.start - g[k].time.value.end <= 0.2
  {
    assert !SplitBefore(g[..k + 1], g[k + 1], lim);
    assert g[..k + 1][k] == g[k];
  }

  /** Inside a group, a word with a strong punctuation mark (anywhere in it) is only
      followed by another word while the group up to it is shorter than seven tenths
      of a line. */
  lemma StrongMarkHolds(g: seq<Word>, lim: Limits, k: nat)
    requires NoSplitInside(g, lim) && k + 1 < |g| && lim.baseLimit > 0
    requires HasStrongMark(g[k].Label())
    ensures (CurrentLength(g[..k + 1]) as real) < lim.baseLimit as real * 0.7
  {
    assert !SplitBefore(g[..k + 1], g[k + 1], lim);
    assert g[..k + 1][k] == g[k];
  }
}
