/**
 * `miller_hybrid_split`: the timed words of all segments are grouped, each group
 * becomes one subtitle entry whose text is wrapped and balanced, and a final pass
 * retimes the transitions between entries.
 */
module HybridSplit {
  import opened Wrappers
  import opened Text
  import opened Records
  import opened SegmenterConfig
  import opened LineWrap
  import opened LineBalance
  import opened Grouping

  /** A line count of one or more needs a positive line width. */
  predicate WidthsValid(lim: Limits)
  {
    lim.maxLines >= 1 ==> lim.baseLimit > 0
  }

  /** A group's text before wrapping: its labels joined by spaces, stripped. */
  function GroupText(g: seq<Word>): string
  {
    Strip(JoinWith(" ", Labels(g)))
  }

  /** The lines of a group's entry when lines are limited. */
  function CueLines(g: seq<Word>, lim: Limits): seq<seq<string>>
    requires WidthsValid(lim) && lim.maxLines >= 1
  {
    var txt := GroupText(g);
    if lim.maxLines > 1 then Balanced(Split(txt), |txt|, lim.baseLimit, lim.maxLines)
    else Wrap(Split(txt), lim.baseLimit)
  }

  /** The text of a group's entry: balanced lines for `ml > 1`, a plain wrap at the
      line width for `ml == 1`, and the unwrapped text otherwise. */
  function CueText(g: seq<Word>, lim: Limits): string
    requires WidthsValid(lim)
  {
    if lim.maxLines >= 1 then LinesText(CueLines(g, lim)) else GroupText(g)
  }

  /** The entry of a group: from its first word's start to its last word's end. */
  function GroupCue(g: seq<Word>, lim: Limits): Cue
    requires g != [] && AllTimed(g) && WidthsValid(lim)
  {
    Cue(g[0].time.value.start, g[|g| - 1].time.value.end, CueText(g, lim))
  }

  predicate AllGroupsTimed(gs: seq<seq<Word>>)
  {
    forall i :: 0 <= i < |gs| ==> AllTimed(gs[i])
  }

  /** The entries `commit_group` appends for the groups, in order; an empty group adds none. */
  function CuesOf(gs: seq<seq<Word>>, lim: Limits): seq<Cue>
    requires AllGroupsTimed(gs) && WidthsValid(lim)
  {
    if gs == [] then []
    else
      var g := gs[|gs| - 1];
      CuesOf(gs[..|gs| - 1], lim) + (if g == [] then [] else [GroupCue(g, lim)])
  }

  /** `commit_group`: the entries it appends for one group. */
  method CommitGroup(grp: seq<Word>, lim: Limits) returns (out: seq<Cue>)
    requires AllTimed(grp) && WidthsValid(lim)
    ensures out == (if grp == [] then [] else [GroupCue(grp, lim)])
  {
    if grp == [] {
      return [];
    }
    var txt := Strip(JoinWith(" ", Labels(grp)));
    var text := txt;
    if lim.maxLines > 1 {
      var lines := BalanceLines(Split(txt), |txt|, lim.baseLimit, lim.maxLines);
      text := LinesText(lines);
    } else if lim.maxLines == 1 {
      text := LinesText(Wrap(Split(txt), lim.baseLimit));
    }
    out := [Cue(grp[0].time.value.start, grp[|grp| - 1].time.value.end, text)];
  }

  /** The transitions after the final pass: an entry followed within 0.2 s by the next
      one (or overlapped by it) ends where the next one starts. */
  function Retimed(c: seq<Cue>): (r: seq<Cue>)
    ensures |r| == |c|
  {
    seq(|c|, i requires 0 <= i < |c| => RetimedAt(c, i))
  }

  /** Entry `i` after the final pass. */
  function RetimedAt(c: seq<Cue>, i: nat): Cue
    requires i < |c|
  {
    if i + 1 < |c| && c[i + 1].start - c[i].end < 0.2 then c[i].(end := c[i + 1].start) else c[i]
  }

  /** The final loop, rewriting `end` of the previous entry in place. */
  method Retime(a: array<Cue>)
    modifies a
    ensures a[..] == Retimed(old(a[..]))
  {
    ghost var orig := a[..];
    var i := 1;
    while i < a.Length
      invariant 1 <= i <= a.Length || a.Length == 0
      invariant forall k :: 0 <= k < i - 1 && k < a.Length ==> a[k] == RetimedAt(orig, k)
      invariant forall k :: i - 1 <= k < a.Length ==> a[k] == orig[k]
    {
      if a[i].start - a[i - 1].end < 0.2 {
        a[i - 1] := a[i - 1].(end := a[i].start);
      }
      i := i + 1;
    }
    assert forall k :: 0 <= k < a.Length ==> a[k] == Retimed(orig)[k];
  }

  /** The entries when nothing is regrouped: each segment as it is, its text stripped. */
  function PassThrough(segs: seq<Segment>): (r: seq<Cue>)
    ensures |r| == |segs|
  {
    seq(|segs|, i requires 0 <= i < |segs| => Cue(segs[i].start, segs[i].end, Strip(segs[i].text)))
  }

  /** Whether the segmenter keeps the segments: no timed word, or no limit at all. */
  predicate KeepsSegments(words: seq<Word>, lim: Limits)
  {
    words == [] || (lim.maxWords == 0 && lim.maxLines == 0 && lim.baseLimit == 0)
  }

  /** What `miller_hybrid_split` returns. */
  function HybridSplitResult(segs: seq<Segment>, cfg: Config): seq<Cue>
    requires WidthsValid(ParseConfig(cfg))
  {
    var lim := ParseConfig(cfg);
    var words := TimedWords(segs);
    if KeepsSegments(words, lim) then PassThrough(segs)
    else
      GroupsWellFormed(words, lim);
      assert GroupsTimed(words, lim);
      Retimed(CuesOf(Groups(words, lim), lim))
  }

  method MillerHybridSplit(segs: seq<Segment>, cfg: Config) returns (r: seq<Cue>)
    requires WidthsValid(ParseConfig(cfg))
    ensures r == HybridSplitResult(segs, cfg)
  {
    var lim := ParseConfig(cfg);
    var words := CollectTimedWords(segs);
    if KeepsSegments(words, lim) {
      return PassThrough(segs);
    }
    var cues := GroupAndCommit(words, lim);
    var a := new Cue[|cues|](k requires 0 <= k < |cues| => cues[k]);
    assert a[..] == cues;
    Retime(a);
    r := a[..];
  }

  /** The scan over the words, committing each group as soon as the next word splits it off. */
  method GroupAndCommit(words: seq<Word>, lim: Limits) returns (cues: seq<Cue>)
    requires AllTimed(words) && WidthsValid(lim)
    ensures GroupsTimed(words, lim) && cues == CuesOf(Groups(words, lim), lim)
  {
    cues := [];
    var group: seq<Word> := [];
    ghost var done: seq<seq<Word>> := [];
    var i := 0;
    while i < |words|
      invariant 0 <= i <= |words|
      invariant ScanState(done, group) == Scan(words[..i], lim)
      invariant AllGroupsTimed(done)
      invariant cues == CuesOf(done, lim)
    {
      var w := words[i];
      ScanSnoc(words, i, lim);
      if group == [] {
        group := [w];
      } else if SplitBefore(group, w, lim) {
        var out := CommitGroup(group, lim);
        CuesOfSnoc(done, group, lim);
        cues := cues + out;
        done := done + [group];
        group := [w];
      } else {
        group := group + [w];
      }
      i := i + 1;
    }
    var out := CommitGroup(group, lim);
    CuesOfSnoc(done, group, lim);
    cues := cues + out;
    LastGroup(words, done, group, lim);
  }

  lemma ScanSnoc(words: seq<Word>, i: nat, lim: Limits)
    requires AllTimed(words) && i < |words|
    ensures Scan(words[..i + 1], lim) == Step(Scan(words[..i], lim), words[i], lim)
  {
    assert words[..i + 1][..i] == words[..i];
  }

  lemma CuesOfSnoc(gs: seq<seq<Word>>, g: seq<Word>, lim: Limits)
    requires AllGroupsTimed(gs) && AllTimed(g) && WidthsValid(lim)
    ensures AllGroupsTimed(gs + [g])
    ensures CuesOf(gs + [g], lim) == CuesOf(gs, lim) + (if g == [] then [] else [GroupCue(g, lim)])
  {
    assert (gs + [g])[..|gs|] == gs;
  }

  lemma LastGroup(words: seq<Word>, done: seq<seq<Word>>, group: seq<Word>, lim: Limits)
    requires AllTimed(words) && WidthsValid(lim) && AllGroupsTimed(done) && AllTimed(group)
    requires ScanState(done, group) == Scan(words[..|words|], lim)
    ensures GroupsTimed(words, lim)
    ensures CuesOf(Groups(words, lim), lim) == CuesOf(done + [group], lim)
  {
    assert words[..|words|] == words;
    CuesOfSnoc(done, group, lim);
    if group == [] {
      assert CuesOf(done + [group], lim) == CuesOf(done, lim);
    }
  }

  /** Every group of a timed stream is timed. */
  predicate GroupsTimed(words: seq<Word>, lim: Limits)
    requires AllTimed(words)
  {
    AllGroupsTimed(Groups(words, lim))
  }

  // ---------------------------------------------------------------------------
  // Properties
  // ---------------------------------------------------------------------------

  /** The final pass keeps every start and text and the count; afterwards every
      transition is either seamless or at least 0.2 s long. */
  lemma RetimedTransitions(c: seq<Cue>, i: nat)
    requires i < |c|
    ensures Retimed(c)[i].start == c[i].start && Retimed(c)[i].text == c[i].text
    ensures i + 1 < |c| ==>
      var gap := Retimed(c)[i + 1].start - Retimed(c)[i].end;
      gap == 0.0 || (gap >= 0.2 && Retimed(c)[i].end == c[i].end)
    ensures i + 1 == |c| ==> Retimed(c)[i] == c[i]
  {
  }

  /** One entry per non-empty group, in order. */
  lemma {:induction false} CuesOfGroups(gs: seq<seq<Word>>, lim: Limits)
    requires AllGroupsTimed(gs) && WidthsValid(lim)
    requires forall i :: 0 <= i < |gs| ==> gs[i] != []
    ensures |CuesOf(gs, lim)| == |gs|
    ensures forall i :: 0 <= i < |gs| ==> CuesOf(gs, lim)[i] == GroupCue(gs[i], lim)
  {
    if gs != [] {
      var p := gs[..|gs| - 1];
      CuesOfGroups(p, lim);
      var c := CuesOf(gs, lim);
      assert c == CuesOf(p, lim) + [GroupCue(gs[|gs| - 1], lim)];
      forall i | 0 <= i < |gs|
        ensures c[i] == GroupCue(gs[i], lim)
      {
        if i < |p| {
          assert p[i] == gs[i];
          assert c[i] == CuesOf(p, lim)[i];
        }
      }
    }
  }

  /** In the regrouping case there is one entry per group; each starts at its first
      word's start and ends at its last word's end or, after the final pass, at the
      next entry's start; its text is built from the group's words. */
  lemma HybridSplitEntries(segs: seq<Segment>, cfg: Config, i: nat)
    requires WidthsValid(ParseConfig(cfg))
    requires !KeepsSegments(TimedWords(segs), ParseConfig(cfg))
    ensures |HybridSplitResult(segs, cfg)| == |Groups(TimedWords(segs), ParseConfig(cfg))|
    ensures i < |HybridSplitResult(segs, cfg)| ==>
      var g := Groups(TimedWords(segs), ParseConfig(cfg))[i];
      var e := HybridSplitResult(segs, cfg)[i];
      g != [] && AllTimed(g) &&
      e.start == g[0].time.value.start &&
      e.text == CueText(g, ParseConfig(cfg)) &&
      (e.end == g[|g| - 1].time.value.end ||
       (i + 1 < |HybridSplitResult(segs, cfg)| && e.end == HybridSplitResult(segs, cfg)[i + 1].start))
  {
    var lim := ParseConfig(cfg);
    var words := TimedWords(segs);
    GroupsWellFormed(words, lim);
    var gs := Groups(words, lim);
    CuesOfGroups(gs, lim);
    var c := CuesOf(gs, lim);
    if i < |c| {
      RetimedTransitions(c, i);
    }
  }

  /** The lines of an entry hold exactly the words of its text, in order, and with
      `ml > 1` there are at most `ml` of them. */
  lemma CueLinesShape(g: seq<Word>, lim: Limits)
    requires WidthsValid(lim) && lim.maxLines >= 1
    ensures Flatten(CueLines(g, lim)) == Split(GroupText(g))
    ensures lim.maxLines > 1 ==> |CueLines(g, lim)| <= lim.maxLines
  {
    var txt := GroupText(g);
    if lim.maxLines > 1 {
      BalancedShape(Split(txt), |txt|, lim.baseLimit, lim.maxLines);
    } else {
      WrapFlatten(Split(txt), lim.baseLimit);
    }
  }

  /** With `ml == 1` each line is one word or fits the line width. */
  lemma SingleLineWidth(g: seq<Word>, lim: Limits, k: nat)
    requires WidthsValid(lim) && lim.maxLines == 1 && k < |CueLines(g, lim)|
    ensures Fits(CueLines(g, lim)[k], lim.baseLimit)
  {
    WrapGreedy(Split(GroupText(g)), lim.baseLimit);
  }

  /** All three settings given as the text "0" switch the segmenter off, while the
      integer 0 does not: `safe_int` turns a falsy `base_limit` into 75. */
  lemma ZeroSettings(segs: seq<Segment>)
    ensures HybridSplitResult(segs, Config(StrValue("0"), StrValue("0"), StrValue("0"))) == PassThrough(segs)
    ensures ParseConfig(Config(IntValue(0), IntValue(0), IntValue(0))) == Limits(0, 0, 75)
  {
    ZeroStringIsZero(0);
    ZeroStringIsZero(75);
    ZeroIntegerIsDefault(0);
    ZeroIntegerIsDefault(75);
  }
}
