/**
 * The greedy word wrap the segmenter asks of `textwrap.wrap`. A line is held as
 * the list of its words; its text is the words joined by single spaces.
 */
module LineWrap {
  import opened Text

  /** Length of the words of `line` joined by single spaces. */
  function LineLength(line: seq<string>): nat
  {
    if line == [] then 0 else TotalLength(line) + |line| - 1
  }

  /** The words of all lines, in order. */
  function Flatten(lines: seq<seq<string>>): seq<string>
  {
    if lines == [] then [] else lines[0] + Flatten(lines[1..])
  }

  /** The text of the lines: each joined by spaces, the lines joined by newlines. */
  function LinesText(lines: seq<seq<string>>): string
  {
    JoinWith("\n", seq(|lines|, k requires 0 <= k < |lines| => JoinWith(" ", lines[k])))
  }

  /** Greedy filling: `line` is the line being filled, `toks` the words still to place. */
  function WrapFrom(toks: seq<string>, line: seq<string>, width: int): seq<seq<string>>
    requires line != []
    decreases |toks|
  {
    if toks == [] then [line]
    else if LineLength(line) + 1 + |toks[0]| <= width then WrapFrom(toks[1..], line + [toks[0]], width)
    else [line] + WrapFrom(toks[1..], [toks[0]], width)
  }

  /** `textwrap.wrap` over a list of words: each word goes on the current line when
      it still fits within `width`, otherwise it starts the next line. */
  function Wrap(toks: seq<string>, width: int): seq<seq<string>>
  {
    if toks == [] then [] else WrapFrom(toks[1..], [toks[0]], width)
  }

  /** A line fits when it is a single word or its text is at most `width` long. */
  predicate Fits(line: seq<string>, width: int)
  {
    |line| == 1 || LineLength(line) <= width
  }

  /** What a greedy wrap promises: no empty line, every line fits, and no line could
      have taken the first word of the next one. */
  predicate GreedyLines(lines: seq<seq<string>>, width: int)
  {
    (forall k :: 0 <= k < |lines| ==> lines[k] != [] && Fits(lines[k], width)) &&
    (forall k :: 0 <= k < |lines| - 1 ==> LineLength(lines[k]) + 1 + |lines[k + 1][0]| > width)
  }

  // ---------------------------------------------------------------------------
  // Properties
  // ---------------------------------------------------------------------------

  lemma {:induction false} FlattenAppend(a: seq<seq<string>>, b: seq<seq<string>>)
    ensures Flatten(a + b) == Flatten(a) + Flatten(b)
  {
    if a == [] {
      assert a + b == b;
    } else {
      assert (a + b)[1..] == a[1..] + b;
      FlattenAppend(a[1..], b);
    }
  }

  lemma FlattenSingle(line: seq<string>)
    ensures Flatten([line]) == line
  {
    assert [line][1..] == [];
  }

  /** Adding a word to a non-empty line costs a space and the word. */
  lemma LineLengthExtend(line: seq<string>, t: string)
    requires line != []
    ensures LineLength(line + [t]) == LineLength(line) + 1 + |t|
  {
    TotalLengthAppend(line, [t]);
    assert TotalLength([t]) == |t| + TotalLength([]);
  }

  lemma {:induction false} WrapFromFlatten(toks: seq<string>, line: seq<string>, width: int)
    requires line != []
    ensures Flatten(WrapFrom(toks, line, width)) == line + toks
    decreases |toks|
  {
    if toks == [] {
      FlattenSingle(line);
    } else if LineLength(line) + 1 + |toks[0]| <= width {
      WrapFromFlatten(toks[1..], line + [toks[0]], width);
      assert line + [toks[0]] + toks[1..] == line + toks;
    } else {
      WrapFromFlatten(toks[1..], [toks[0]], width);
      FlattenAppend([line], WrapFrom(toks[1..], [toks[0]], width));
      FlattenSingle(line);
      assert [toks[0]] + toks[1..] == toks;
    }
  }

  /** The wrap neither loses, adds nor reorders a word. */
  lemma WrapFlatten(toks: seq<string>, width: int)
    ensures Flatten(Wrap(toks, width)) == toks
  {
    if toks != [] {
      WrapFromFlatten(toks[1..], [toks[0]], width);
      assert [toks[0]] + toks[1..] == toks;
    }
  }

  lemma {:induction false} WrapFromGreedy(toks: seq<string>, line: seq<string>, width: int)
    requires line != [] && Fits(line, width)
    ensures GreedyLines(WrapFrom(toks, line, width), width)
    ensures |WrapFrom(toks, line, width)| >= 1 && WrapFrom(toks, line, width)[0][0] == line[0]
    decreases |toks|
  {
    if toks == [] {
    } else if LineLength(line) + 1 + |toks[0]| <= width {
      LineLengthExtend(line, toks[0]);
      WrapFromGreedy(toks[1..], line + [toks[0]], width);
      assert (line + [toks[0]])[0] == line[0];
    } else {
      WrapFromGreedy(toks[1..], [toks[0]], width);
      GreedyCons(line, WrapFrom(toks[1..], [toks[0]], width), width);
    }
  }

  /** A full line in front of a greedy wrap that it could not take a word from. */
  lemma GreedyCons(line: seq<string>, rest: seq<seq<string>>, width: int)
    requires line != [] && Fits(line, width) && GreedyLines(rest, width)
    requires rest != [] && rest[0] != [] && LineLength(line) + 1 + |rest[0][0]| > width
    ensures GreedyLines([line] + rest, width)
  {
    var r := [line] + rest;
    assert forall k :: 1 <= k < |r| ==> r[k] == rest[k - 1];
  }

  /** Every line of the wrap is non-empty and fits, and the wrap is greedy. */
  lemma WrapGreedy(toks: seq<string>, width: int)
    ensures GreedyLines(Wrap(toks, width), width)
    ensures toks == [] <==> Wrap(toks, width) == []
  {
    if toks != [] {
      WrapFromGreedy(toks[1..], [toks[0]], width);
    }
  }

  /** A text that fits in one line is not broken. */
  lemma {:induction false} WrapShortText(toks: seq<string>, width: int)
    requires toks != [] && LineLength(toks) <= width
    ensures Wrap(toks, width) == [toks]
  {
    WrapFromWhole(toks, 1, width);
    assert toks[..1] == [toks[0]];
  }

  lemma {:induction false} WrapFromWhole(toks: seq<string>, k: nat, width: int)
    requires 1 <= k <= |toks| && LineLength(toks) <= width
    ensures WrapFrom(toks[k..], toks[..k], width) == [toks]
    decreases |toks| - k
  {
    if k < |toks| {
      PrefixLength(toks, k + 1);
      LineLengthExtend(toks[..k], toks[k]);
      assert toks[..k] + [toks[k]] == toks[..k + 1];
      assert toks[k..][1..] == toks[k + 1..];
      WrapFromWhole(toks, k + 1, width);
    } else {
      assert toks[..k] == toks;
    }
  }

  /** A non-empty prefix of a line is no longer than the line. */
  lemma PrefixLength(toks: seq<string>, k: nat)
    requires 1 <= k <= |toks|
    ensures LineLength(toks[..k]) <= LineLength(toks)
  {
    assert toks == toks[..k] + toks[k..];
    TotalLengthAppend(toks[..k], toks[k..]);
  }
}
