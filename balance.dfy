/**
 * The line balancing `commit_group` applies to a group's text when more than one
 * line is allowed: a tentative wrap at a symmetric width, the hard line limit,
 * the anti-dangle move and the conjunction push-down.
 */
module LineBalance {
  import opened Text
  import opened LineWrap

  /** Words that should not end a line. */
  const Conjunctions: seq<string> :=
    ["ve", "ama", "fakat", "çünkü", "veya", "lakin", "ancak",
     "and", "but", "or", "so", "because", "while"]

  /** Punctuation stripped from both ends of a word before it is compared. */
  const Marks: set<char> := {'.', ',', '?', '!', ':', ';'}

  /** `w.lower().strip(".,?!:;") in conjunctions` */
  predicate IsConjunction(w: string)
  {
    StripChars(Lower(w), Marks) in Conjunctions
  }

  function MaxInt(x: int, y: int): int { if x >= y then x else y }
  function MinInt(x: int, y: int): int { if x <= y then x else y }

  /** The number of lines the text would need at `base` characters each, counting a
      remainder only when it exceeds a tenth of a line, capped at `ml`. */
  function TargetLines(total: nat, base: int, ml: int): (t: int)
    requires base > 0 && ml > 1
    ensures 1 <= t <= ml
    ensures t == ml || t == MaxInt(1, total / base + (if (total % base) as real > base as real * 0.1 then 1 else 0))
  {
    var raw := total / base + (if (total % base) as real > base as real * 0.1 then 1 else 0);
    MinInt(MaxInt(1, raw), ml)
  }

  /** The width that spreads the text evenly over `lines` lines, at least 15. */
  function TargetWidth(total: nat, lines: int): (w: int)
    requires lines >= 1
    ensures w >= 15 && w * lines >= total - lines + 1
  {
    MaxInt(15, total / lines)
  }

  /** The last word of a non-empty line. */
  function Last(line: seq<string>): string
    requires line != []
  {
    line[|line| - 1]
  }

  /** The lines after the hard limit: the lines beyond the `ml`-th are appended to it. */
  function Merged(lines: seq<seq<string>>, ml: int): seq<seq<string>>
    requires ml >= 1
  {
    if |lines| > ml then lines[..ml - 1] + [Flatten(lines[ml - 1..])] else lines
  }

  /** Pops the last line and appends it to the one before, while there are more than
      `ml` lines. */
  method MergeOverflow(lines: seq<seq<string>>, ml: int) returns (r: seq<seq<string>>)
    requires ml >= 1
    ensures r == Merged(lines, ml)
  {
    r := lines;
    if |lines| > 0 {
      assert lines[|lines| - 1..] == [lines[|lines| - 1]];
      FlattenSingle(lines[|lines| - 1]);
      assert lines == lines[..|lines| - 1] + [lines[|lines| - 1]];
    }
    while |r| > ml
      invariant |r| <= |lines|
      invariant |lines| > ml ==> |r| >= ml
      invariant |lines| <= ml ==> r == lines
      invariant |r| >= 1 ==> r == lines[..|r| - 1] + [Flatten(lines[|r| - 1..])]
      decreases |r|
    {
      var m := |r|;
      var last := r[m - 1];
      r := r[..m - 1];
      r := r[..m - 2] + [r[m - 2] + last];
      assert lines[m - 2..][1..] == lines[m - 1..];
    }
  }

  /** Anti-dangle: a last line of one word takes the last word of the line before,
      when that line keeps at least one word and the moved word is shorter than 15. */
  function AntiDangle(lines: seq<seq<string>>): seq<seq<string>>
  {
    var n := |lines|;
    if n > 1 && |lines[n - 1]| == 1 && |lines[n - 2]| > 1 && |Last(lines[n - 2])| < 15 then
      var prev := lines[n - 2];
      lines[..n - 2] + [prev[..|prev| - 1], [Last(prev)] + lines[n - 1]]
    else lines
  }

  /** One iteration `j` of the conjunction pass: a line ending in a conjunction hands
      that word to the start of the next line. */
  function ConjStep(lines: seq<seq<string>>, j: nat): seq<seq<string>>
    requires j + 1 < |lines|
  {
    if lines[j] != [] && IsConjunction(Last(lines[j])) then HandOver(lines, j) else lines
  }

  /** Line `j` hands its last word to the start of line `j + 1`. */
  function HandOver(lines: seq<seq<string>>, j: nat): seq<seq<string>>
    requires j + 1 < |lines| && lines[j] != []
  {
    lines[..j] + [lines[j][..|lines[j]| - 1], [Last(lines[j])] + lines[j + 1]] + lines[j + 2..]
  }

  /** The conjunction pass from line `j` on, one step per line but the last. */
  function ConjFrom(lines: seq<seq<string>>, j: nat): seq<seq<string>>
    decreases |lines| - j
  {
    if j + 1 >= |lines| then lines else ConjFrom(ConjStep(lines, j), j + 1)
  }

  /** `for j in range(len(lines)-1)`, rewriting lines `j` and `j+1` in place. */
  method ProtectConjunctions(lines: seq<seq<string>>) returns (r: seq<seq<string>>)
    ensures r == ConjFrom(lines, 0)
  {
    r := lines;
    var j := 0;
    while j + 1 < |r|
      invariant |r| == |lines|
      invariant ConjFrom(r, j) == ConjFrom(lines, 0)
      decreases |r| - j
    {
      if r[j] != [] && IsConjunction(Last(r[j])) {
        var lastWord := Last(r[j]);
        r := r[..j] + [r[j][..|r[j]| - 1], [lastWord] + r[j + 1]] + r[j + 2..];
      }
      j := j + 1;
    }
  }

  /** The lines of a group's words when `ml > 1`: `total` is the length of the group's text. */
  function Balanced(toks: seq<string>, total: nat, base: int, ml: int): seq<seq<string>>
    requires base > 0 && ml > 1
  {
    var width := TargetWidth(total, TargetLines(total, base, ml)) + 5;
    var merged := Merged(Wrap(toks, width), ml);
    if |merged| > 1 then ConjFrom(AntiDangle(merged), 0) else merged
  }

  /** The `ml > 1` branch of `commit_group`, step by step. */
  method BalanceLines(toks: seq<string>, total: nat, base: int, ml: int) returns (lines: seq<seq<string>>)
    requires base > 0 && ml > 1
    ensures lines == Balanced(toks, total, base, ml)
  {
    var targetLines := TargetLines(total, base, ml);
    var targetWidth := TargetWidth(total, targetLines);
    lines := Wrap(toks, targetWidth + 5);
    lines := MergeOverflow(lines, ml);
    if |lines| > 1 {
      lines := AntiDangle(lines);
      lines := ProtectConjunctions(lines);
    }
  }

  // ---------------------------------------------------------------------------
  // Properties
  // ---------------------------------------------------------------------------

  /** The hard limit caps the line count at `ml` and keeps every word in order. */
  lemma MergedShape(lines: seq<seq<string>>, ml: int)
    requires ml >= 1
    ensures |Merged(lines, ml)| == MinInt(|lines|, ml)
    ensures Flatten(Merged(lines, ml)) == Flatten(lines)
  {
    if |lines| > ml {
      assert lines == lines[..ml - 1] + lines[ml - 1..];
      FlattenAppend(lines[..ml - 1], lines[ml - 1..]);
      FlattenAppend(lines[..ml - 1], [Flatten(lines[ml - 1..])]);
      FlattenSingle(Flatten(lines[ml - 1..]));
    }
  }

  /** Anti-dangle keeps the line count and the word sequence. */
  lemma AntiDangleShape(lines: seq<seq<string>>)
    ensures |AntiDangle(lines)| == |lines|
    ensures Flatten(AntiDangle(lines)) == Flatten(lines)
  {
    var n := |lines|;
    if n > 1 && |lines[n - 1]| == 1 && |lines[n - 2]| > 1 && |Last(lines[n - 2])| < 15 {
      var prev := lines[n - 2];
      var a := prev[..|prev| - 1];
      var b := [Last(prev)] + lines[n - 1];
      assert lines == lines[..n - 2] + [prev, lines[n - 1]];
      FlattenAppend(lines[..n - 2], [prev, lines[n - 1]]);
      FlattenAppend(lines[..n - 2], [a, b]);
      FlattenPair(prev, lines[n - 1]);
      FlattenPair(a, b);
      assert a + b == prev + lines[n - 1];
    }
  }

  lemma FlattenPair(x: seq<string>, y: seq<string>)
    ensures Flatten([x, y]) == x + y
  {
    assert [x, y][1..] == [y];
    FlattenSingle(y);
  }

  /** One conjunction step keeps the line count and the word sequence. */
  lemma ConjStepShape(lines: seq<seq<string>>, j: nat)
    requires j + 1 < |lines|
    ensures |ConjStep(lines, j)| == |lines|
    ensures Flatten(ConjStep(lines, j)) == Flatten(lines)
  {
    if lines[j] != [] && IsConjunction(Last(lines[j])) {
      HandOverShape(lines, j);
    }
  }

  lemma HandOverShape(lines: seq<seq<string>>, j: nat)
    requires j + 1 < |lines| && lines[j] != []
    ensures |HandOver(lines, j)| == |lines|
    ensures Flatten(HandOver(lines, j)) == Flatten(lines)
  {
    var x, y := lines[j], lines[j + 1];
    var a := x[..|x| - 1];
    var b := [Last(x)] + y;
    assert a + b == x + y;
    assert lines == lines[..j] + [x, y] + lines[j + 2..];
    ReplacePair(lines[..j], x, y, lines[j + 2..], a, b);
  }

  /** Two neighbouring lines can trade words without changing the word sequence. */
  lemma ReplacePair(pre: seq<seq<string>>, x: seq<string>, y: seq<string>, post: seq<seq<string>>,
                    a: seq<string>, b: seq<string>)
    requires a + b == x + y
    ensures Flatten(pre + [a, b] + post) == Flatten(pre + [x, y] + post)
  {
    FlattenAppend(pre + [x, y], post);
    FlattenAppend(pre, [x, y]);
    FlattenAppend(pre + [a, b], post);
    FlattenAppend(pre, [a, b]);
    FlattenPair(x, y);
    FlattenPair(a, b);
  }

  /** The whole conjunction pass keeps the line count and the word sequence. */
  lemma {:induction false} ConjFromShape(lines: seq<seq<string>>, j: nat)
    ensures |ConjFrom(lines, j)| == |lines|
    ensures Flatten(ConjFrom(lines, j)) == Flatten(lines)
    decreases |lines| - j
  {
    if j + 1 < |lines| {
      ConjStepShape(lines, j);
      ConjFromShape(ConjStep(lines, j), j + 1);
    }
  }

  /** The balanced lines are at most `ml`, as many as the tentative wrap when that is
      within the limit, and hold exactly the group's words in order. */
  lemma BalancedShape(toks: seq<string>, total: nat, base: int, ml: int)
    requires base > 0 && ml > 1
    ensures |Balanced(toks, total, base, ml)| <= ml
    ensures |Balanced(toks, total, base, ml)| ==
            MinInt(|Wrap(toks, TargetWidth(total, TargetLines(total, base, ml)) + 5)|, ml)
    ensures Flatten(Balanced(toks, total, base, ml)) == toks
  {
    var width := TargetWidth(total, TargetLines(total, base, ml)) + 5;
    var wrapped := Wrap(toks, width);
    WrapFlatten(toks, width);
    MergedShape(wrapped, ml);
    var merged := Merged(wrapped, ml);
    if |merged| > 1 {
      AntiDangleShape(merged);
      ConjFromShape(AntiDangle(merged), 0);
    }
  }

  /** Step `k` touches only lines `k` and `k + 1`. */
  lemma ConjStepKeepsPrefix(lines: seq<seq<string>>, k: nat)
    requires k + 1 < |lines|
    ensures |ConjStep(lines, k)| == |lines|
    ensures ConjStep(lines, k)[..k] == lines[..k]
  {
    if lines[k] != [] && IsConjunction(Last(lines[k])) {
      var h := HandOver(lines, k);
      assert h[..k] == lines[..k];
    }
  }

  /** Steps from line `k` on never touch the lines before `k`. */
  lemma {:induction false} ConjFromKeepsPrefix(lines: seq<seq<string>>, k: nat)
    requires k <= |lines|
    ensures |ConjFrom(lines, k)| == |lines|
    ensures ConjFrom(lines, k)[..k] == lines[..k]
    decreases |lines| - k
  {
    if k + 1 < |lines| {
      var stepped := ConjStep(lines, k);
      ConjStepKeepsPrefix(lines, k);
      ConjFromKeepsPrefix(stepped, k + 1);
      var r := ConjFrom(stepped, k + 1);
      assert ConjFrom(lines, k) == r;
      assert r[..k] == r[..k + 1][..k];
      assert stepped[..k] == stepped[..k + 1][..k];
    }
  }

  /** A line `j` (not the last) that ends in a conjunction when its turn comes hands
      that word to the start of line `j + 1`, and no later step gives line `j` a word
      back: after the rest of the pass it is the line without its last word. */
  lemma ConjunctionPushedDown(lines: seq<seq<string>>, j: nat)
    requires j + 1 < |lines| && lines[j] != [] && IsConjunction(Last(lines[j]))
    ensures ConjStep(lines, j)[j] == lines[j][..|lines[j]| - 1]
    ensures ConjStep(lines, j)[j + 1] == [Last(lines[j])] + lines[j + 1]
    ensures |ConjFrom(lines, j)| == |lines|
    ensures ConjFrom(lines, j)[j] == lines[j][..|lines[j]| - 1]
  {
    var stepped := ConjStep(lines, j);
    ConjStepShape(lines, j);
    ConjFromKeepsPrefix(stepped, j + 1);
    assert ConjFrom(lines, j) == ConjFrom(stepped, j + 1);
    assert ConjFrom(stepped, j + 1)[j] == ConjFrom(stepped, j + 1)[..j + 1][j];
  }

  /** Of two lines, a first line ending in a conjunction hands it down to the second. */
  lemma ConjunctionTwoLines(a: seq<string>, c: string, b: seq<string>)
    requires IsConjunction(c)
    ensures ConjFrom([a + [c], b], 0) == [a, [c] + b]
  {
    var lines := [a + [c], b];
    assert Last(lines[0]) == c;
    assert lines[0][..|lines[0]| - 1] == a;
    assert lines[..0] == [] && lines[2..] == [];
    var stepped := ConjStep(lines, 0);
    assert stepped == [a, [c] + b];
  }

  /** "and" is one of the conjunctions. */
  lemma AndIsConjunction()
    ensures IsConjunction("and")
  {
    LowerAnd();
    StripAnd();
    AndListed();
  }

  lemma LowerAnd()
    ensures Lower("and") == "and"
  {
    assert Lower("d") == "d";
    assert Lower("nd") == "n" + Lower("d");
    assert Lower("and") == "a" + Lower("nd");
  }

  lemma StripAnd()
    ensures StripChars("and", Marks) == "and"
  {
    var w := "and";
    assert w[0] == 'a' && w[2] == 'd';
    assert 'a' !in Marks && 'd' !in Marks;
    assert LeftStripOf(w, Marks) == w;
    assert RightStripOf(w, Marks) == w;
  }

  lemma AndListed()
    ensures "and" in Conjunctions
  {
    assert Conjunctions[7] == "and";
  }

  /** The pass moves one word per line and never looks back: a line ending in two
      conjunctions still ends in one afterwards. */
  lemma ConjunctionCanRemain(x: string, c: string, y: seq<string>)
    requires IsConjunction(c)
    ensures ConjFrom([[x, c, c], y], 0) == [[x, c], [c] + y]
    ensures IsConjunction(Last(ConjFrom([[x, c, c], y], 0)[0]))
  {
    ConjunctionTwoLines([x, c], c, y);
    assert [x, c] + [c] == [x, c, c];
  }

  /** A dangling last word takes the previous line's last word with it. */
  lemma AntiDangleExample()
    ensures AntiDangle([["a", "b", "c"], ["d"]]) == [["a", "b"], ["c", "d"]]
  {
    var lines := [["a", "b", "c"], ["d"]];
    assert lines[..0] == [];
    assert lines[0][..2] == ["a", "b"];
    assert |Last(lines[0])| == 1;
    assert [Last(lines[0])] + lines[1] == ["c", "d"];
  }
}
