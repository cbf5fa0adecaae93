/**
 * `get_unique_path`: a file name that is not taken yet, made by counting
 * `stem (1)suffix`, `stem (2)suffix`, ... in the same folder.
 */
module Paths {
  import opened Text

  /** A path as its folder and its final component (`path.parent`, `path.name`). */
  datatype Path = Path(parent: string, name: string)

  /** The index of the dot that starts the suffix, when there is one: the last dot,
      neither the first nor the last character of the name. */
  predicate HasSuffix(name: string)
  {
    var i := RFind(name, '.');
    0 < i < |name| - 1
  }

  /** `PurePath.suffix` of a name. */
  function Suffix(name: string): (r: string)
    ensures r == [] || r[0] == '.'
  {
    var i := RFind(name, '.');
    if 0 < i < |name| - 1 then name[i..] else ""
  }

  /** `PurePath.stem` of a name. */
  function Stem(name: string): string
  {
    var i := RFind(name, '.');
    if 0 < i < |name| - 1 then name[..i] else name
  }

  /** The `counter`-th alternative name. */
  function CandidateName(name: string, counter: nat): string
  {
    Stem(name) + " (" + NatStr(counter) + ")" + Suffix(name)
  }

  function Candidate(p: Path, counter: nat): Path
  {
    Path(p.parent, CandidateName(p.name, counter))
  }

  /** `r` is a path to use for `p` while the paths in `taken` exist: `p` itself when
      it is free, else the alternative with the smallest free counter from 1. */
  ghost predicate UniqueFor(r: Path, p: Path, taken: set<Path>)
  {
    && r !in taken
    && (p !in taken ==> r == p)
    && (p in taken ==> exists k :: k >= 1 && r == Candidate(p, k) && forall j :: 1 <= j < k ==> Candidate(p, j) in taken)
  }

  /** `get_unique_path(p)` while the paths in `existing` exist. */
  method GetUniquePath(p: Path, existing: set<Path>) returns (r: Path)
    ensures UniqueFor(r, p, existing)
  {
    if p !in existing {
      return p;
    }
    var counter := 1;
    ghost var tried: set<Path> := {};
    while Candidate(p, counter) in existing
      invariant counter >= 1
      invariant tried == Candidates(p, counter)
      invariant tried <= existing
      invariant forall j :: 1 <= j < counter ==> Candidate(p, j) in existing
      decreases |existing - tried|
    {
      var c := Candidate(p, counter);
      CandidatesGrow(p, counter);
      assert existing - (tried + {c}) == (existing - tried) - {c};
      tried := tried + {c};
      counter := counter + 1;
    }
    r := Candidate(p, counter);
  }

  /** The alternatives with the counters below `n`. */
  ghost function Candidates(p: Path, n: nat): set<Path>
  {
    set j | 1 <= j < n :: Candidate(p, j)
  }

  lemma CandidatesGrow(p: Path, n: nat)
    requires n >= 1
    ensures Candidates(p, n + 1) == Candidates(p, n) + {Candidate(p, n)}
    ensures Candidate(p, n) !in Candidates(p, n)
  {
    if Candidate(p, n) in Candidates(p, n) {
      var j :| 1 <= j < n && Candidate(p, j) == Candidate(p, n);
      CandidateInjective(p, j, n);
    }
  }

  // ---------------------------------------------------------------------------
  // Properties
  // ---------------------------------------------------------------------------

  /** A name is its stem followed by its suffix. */
  lemma StemSuffix(name: string)
    ensures Stem(name) + Suffix(name) == name
  {
    var i := RFind(name, '.');
    if 0 < i < |name| - 1 {
      assert name[..i] + name[i..] == name;
    }
  }

  lemma MiddleEqual(a: string, m1: string, m2: string, b: string)
    requires a + m1 + b == a + m2 + b
    ensures m1 == m2
  {
    var s1 := a + m1 + b;
    var s2 := a + m2 + b;
    assert |m1| == |m2|;
    assert s1[|a|..|a| + |m1|] == m1;
    assert s2[|a|..|a| + |m2|] == m2;
  }

  /** Different counters give different names. */
  lemma CandidateInjective(p: Path, j: nat, k: nat)
    requires Candidate(p, j) == Candidate(p, k)
    ensures j == k
  {
    var a := Stem(p.name) + " (";
    var b := ")" + Suffix(p.name);
    assert CandidateName(p.name, j) == a + NatStr(j) + b;
    assert CandidateName(p.name, k) == a + NatStr(k) + b;
    MiddleEqual(a, NatStr(j), NatStr(k), b);
    NatStrInjective(j, k);
  }

  /** An alternative is never the original path. */
  lemma CandidateIsNew(p: Path, k: nat)
    ensures Candidate(p, k) != p
  {
    StemSuffix(p.name);
  }

  lemma SuffixDotFirst(y: string)
    requires y != [] && y[0] == '.' && '.' !in y[1..]
    ensures RFind(y, '.') == 0
  {
    assert forall j :: 1 <= j < |y| ==> y[j] == y[1..][j - 1];
  }

  /** An alternative keeps the extension, and its stem is the old stem with the
      counter in parentheses appended. */
  lemma CandidateKeepsSuffix(name: string, k: nat)
    requires HasSuffix(name)
    ensures Suffix(CandidateName(name, k)) == Suffix(name)
    ensures Stem(CandidateName(name, k)) == Stem(name) + " (" + NatStr(k) + ")"
  {
    var i := RFind(name, '.');
    var y := name[i..];
    assert y[0] == '.';
    assert forall j :: 0 <= j < |y| - 1 ==> y[1..][j] == name[i + 1 + j];
    assert '.' !in y[1..];
    SuffixDotFirst(y);
    var x := Stem(name) + " (" + NatStr(k) + ")";
    RFindAppend(x, y, '.');
    assert CandidateName(name, k) == x + y;
    assert (x + y)[..|x|] == x && (x + y)[|x|..] == y;
  }
}
