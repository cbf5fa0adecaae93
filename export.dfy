/**
 * What `save_results` writes: the file names of the ticked formats and the text
 * of each file.
 */
module Export {
  import opened Wrappers
  import opened Text
  import opened Records
  import opened LineWrap
  import opened Timestamp
  import opened Paths
  import opened Locale

  /** The five outputs, in the order the exporter visits them. */
  datatype Format = SentenceSrt | WordSrt | JsonDump | TxtFlat | TxtTime

  const FormatOrder: seq<Format> := [SentenceSrt, WordSrt, JsonDump, TxtFlat, TxtTime]

  function Key(f: Format): string
  {
    match f
    case SentenceSrt => "sentence"
    case WordSrt => "word"
    case JsonDump => "json"
    case TxtFlat => "txt_flat"
    case TxtTime => "txt_time"
  }

  function Ext(f: Format): string
  {
    match f
    case SentenceSrt => "srt"
    case WordSrt => "srt"
    case JsonDump => "json"
    case TxtFlat => "txt"
    case TxtTime => "txt"
  }

  /** What the worker hands over: the name of the input, the entries by sentence,
      the timed words, and `raw` already rendered as JSON text. */
  datatype Result = Result(baseName: string, segmentsS: seq<Cue>, segmentsW: seq<Word>, rawJson: string)

  // ---------------------------------------------------------------------------
  // File names
  // ---------------------------------------------------------------------------

  /** The window's `T(key)`: the translation of `key`, or `key` itself. */
  function T(L: LocaleManager, key: string): (r: string)
    reads L
    ensures key in L.currentLocale ==> r == L.currentLocale[key]
    ensures key !in L.currentLocale ==> r == key
  {
    L.Get(key, Some(key))
  }

  /** The localised suffix `T("suffix_<key>")`, or `_<key>` when it is not translated. */
  function DefaultSuffix(L: LocaleManager, f: Format): string
    reads L
  {
    var key := "suffix_" + Key(f);
    var t := T(L, key);
    if t == key then "_" + Key(f) else t
  }

  /** The name chosen in the naming dialog, else the input name and the suffix. */
  function FileName(L: LocaleManager, f: Format, res: Result, names: map<string, string>): string
    reads L
  {
    if Key(f) in names then names[Key(f)] else res.baseName + DefaultSuffix(L, f)
  }

  /** `out / f"{name}.{ext}"` before it is made unique. */
  function Target(L: LocaleManager, out: string, f: Format, res: Result, names: map<string, string>): Path
    reads L
  {
    Path(out, FileName(L, f, res, names) + "." + Ext(f))
  }

  // ---------------------------------------------------------------------------
  // File contents
  // ---------------------------------------------------------------------------

  /** One SRT entry: its number, the timing line, the text and a blank line. */
  function SrtBlock(i: nat, c: Cue): string
  {
    NatStr(i) + "\n" + FT(c.start) + " --> " + FT(c.end) + "\n" + c.text + "\n\n"
  }

  /** The SRT entries of `cues`, numbered from 1. */
  function SrtText(cues: seq<Cue>): string
  {
    if cues == [] then "" else SrtText(cues[..|cues| - 1]) + SrtBlock(|cues|, cues[|cues| - 1])
  }

  /** `w.get('word', w.get('text', ''))` */
  function WordText(w: Word): string
  {
    w.word.GetOr(w.text.GetOr(""))
  }

  /** A timed word as an SRT entry. */
  function WordCue(w: Word): Cue
    requires w.time.Some?
  {
    Cue(w.time.value.start, w.time.value.end, WordText(w))
  }

  function WordCues(ws: seq<Word>): (r: seq<Cue>)
    requires AllTimed(ws)
    ensures |r| == |ws|
  {
    seq(|ws|, k requires 0 <= k < |ws| => WordCue(ws[k]))
  }

  /** The stripped texts of the entries. */
  function StrippedTexts(cues: seq<Cue>): (r: seq<string>)
    ensures |r| == |cues|
  {
    if cues == [] then [] else [Strip(cues[0].text)] + StrippedTexts(cues[1..])
  }

  /** The plain text: every entry's text stripped, joined by single spaces. */
  function FlatText(cues: seq<Cue>): string
  {
    JoinWith(" ", StrippedTexts(cues))
  }

  /** One line of the timed text file. */
  function TimedLine(c: Cue): string
  {
    "[" + FT(c.start) + "] " + Strip(c.text) + " [" + FT(c.end) + "]\n"
  }

  function TimedText(cues: seq<Cue>): string
  {
    if cues == [] then "" else TimedText(cues[..|cues| - 1]) + TimedLine(cues[|cues| - 1])
  }

  /** The text written for a format. */
  function Content(f: Format, res: Result): string
    requires AllTimed(res.segmentsW)
  {
    match f
    case SentenceSrt => SrtText(res.segmentsS)
    case WordSrt => SrtText(WordCues(res.segmentsW))
    case JsonDump => res.rawJson
    case TxtFlat => FlatText(res.segmentsS)
    case TxtTime => TimedText(res.segmentsS)
  }

  /** The files are opened with `newline="\r\n"`: every `\n` written becomes `\r\n`. */
  function Crlf(s: string): string
  {
    if s == [] then "" else (if s[0] == '\n' then "\r\n" else [s[0]]) + Crlf(s[1..])
  }

  /** The inverse of the translation: every `\r\n` becomes `\n` again and every other
      character, a lone `\r` included, is kept. (Python's universal-newline reading
      would also turn a lone `\r` into `\n`; that reading is not modelled.) */
  function Uncrlf(s: string): string
  {
    if s == [] then ""
    else if |s| >= 2 && s[0] == '\r' && s[1] == '\n' then "\n" + Uncrlf(s[2..])
    else [s[0]] + Uncrlf(s[1..])
  }

  // ---------------------------------------------------------------------------
  // Writing
  // ---------------------------------------------------------------------------

  /** The SRT writing loop: one block per entry, numbered from 1. */
  method WriteSrt(cues: seq<Cue>) returns (text: string)
    ensures text == SrtText(cues)
  {
    text := "";
    var i := 0;
    while i < |cues|
      invariant 0 <= i <= |cues|
      invariant text == SrtText(cues[..i])
    {
      SrtPrefix(cues, i);
      text := text + SrtBlock(i + 1, cues[i]);
      i := i + 1;
    }
    assert cues[..i] == cues;
  }

  /** The timed text writing loop: one line per entry. */
  method WriteTimedText(cues: seq<Cue>) returns (text: string)
    ensures text == TimedText(cues)
  {
    text := "";
    var i := 0;
    while i < |cues|
      invariant 0 <= i <= |cues|
      invariant text == TimedText(cues[..i])
    {
      TimedPrefix(cues, i);
      text := text + TimedLine(cues[i]);
      i := i + 1;
    }
    assert cues[..i] == cues;
  }

  /** The ticked formats, in the exporter's order. */
  function Selected(ticked: set<Format>): seq<Format>
  {
    Keep(FormatOrder, ticked)
  }

  function Keep(fs: seq<Format>, ticked: set<Format>): (r: seq<Format>)
    ensures forall f :: f in r <==> f in fs && f in ticked
  {
    if fs == [] then [] else (if fs[0] in ticked then [fs[0]] else []) + Keep(fs[1..], ticked)
  }

  /** The paths of a list of written files. */
  function PathsOf(files: seq<(Path, string)>): set<Path>
  {
    set k | 0 <= k < |files| :: files[k].0
  }

  /** File `k` of a save: the text of its format, at the unique path of its target
      among the paths that existed when it was written. */
  ghost predicate SavedEntry(L: LocaleManager, out: string, res: Result, names: map<string, string>,
                             existing: set<Path>, chosen: seq<Format>, files: seq<(Path, string)>, k: nat)
    reads L
    requires AllTimed(res.segmentsW) && k < |files| && k < |chosen|
  {
    && files[k].1 == Crlf(Content(chosen[k], res))
    && UniqueFor(files[k].0, Target(L, out, chosen[k], res, names), existing + PathsOf(files[..k]))
  }

  /** `save_results`: for each ticked format in order, the unique path of its target
      and the text written there. Each file exists once written, so later targets are
      made unique against the earlier ones too. */
  method SaveResults(L: LocaleManager, out: string, res: Result, names: map<string, string>,
                     ticked: set<Format>, existing: set<Path>)
    returns (files: seq<(Path, string)>)
    requires AllTimed(res.segmentsW)
    ensures |files| == |Selected(ticked)|
    ensures forall k :: 0 <= k < |files| ==> SavedEntry(L, out, res, names, existing, Selected(ticked), files, k)
    ensures forall j, k :: 0 <= j < k < |files| ==> files[j].0 != files[k].0
    ensures forall k :: 0 <= k < |files| ==> files[k].0 !in existing
  {
    var chosen := Selected(ticked);
    files := [];
    var taken := existing;
    var i := 0;
    while i < |chosen|
      invariant 0 <= i <= |chosen|
      invariant |files| == i
      invariant taken == existing + PathsOf(files)
      invariant forall k :: 0 <= k < i ==> SavedEntry(L, out, res, names, existing, chosen, files, k)
    {
      var path, text := SaveOne(L, out, chosen[i], res, names, taken);
      PathsOfSnoc(files, (path, text));
      SavedSnoc(L, out, res, names, existing, chosen, files, (path, text));
      files := files + [(path, text)];
      taken := taken + {path};
      i := i + 1;
    }
    forall k | 0 <= k < |files|
      ensures files[k].0 !in existing + PathsOf(files[..k])
    {
      assert SavedEntry(L, out, res, names, existing, chosen, files, k);
    }
    FreshEachDistinct(files, existing);
  }

  lemma SavedSnoc(L: LocaleManager, out: string, res: Result, names: map<string, string>,
                  existing: set<Path>, chosen: seq<Format>, files: seq<(Path, string)>, x: (Path, string))
    requires AllTimed(res.segmentsW) && |files| < |chosen|
    requires forall k :: 0 <= k < |files| ==> SavedEntry(L, out, res, names, existing, chosen, files, k)
    requires x.1 == Crlf(Content(chosen[|files|], res))
    requires UniqueFor(x.0, Target(L, out, chosen[|files|], res, names), existing + PathsOf(files))
    ensures forall k :: 0 <= k < |files| + 1 ==> SavedEntry(L, out, res, names, existing, chosen, files + [x], k)
  {
    var fs := files + [x];
    forall k | 0 <= k < |fs|
      ensures SavedEntry(L, out, res, names, existing, chosen, fs, k)
    {
      if k < |files| {
        SavedEntryKept(L, out, res, names, existing, chosen, files, fs, k);
      } else {
        assert fs[k] == x && fs[..k] == files;
      }
    }
  }

  lemma SavedEntryKept(L: LocaleManager, out: string, res: Result, names: map<string, string>,
                       existing: set<Path>, chosen: seq<Format>, files: seq<(Path, string)>,
                       fs: seq<(Path, string)>, k: nat)
    requires AllTimed(res.segmentsW) && k < |files| <= |fs| && k < |chosen|
    requires fs[..|files|] == files
    requires SavedEntry(L, out, res, names, existing, chosen, files, k)
    ensures SavedEntry(L, out, res, names, existing, chosen, fs, k)
  {
    assert fs[k] == files[k] && fs[..k] == files[..k];
  }

  /** One ticked format: its unique path and the text written there. */
  method SaveOne(L: LocaleManager, out: string, f: Format, res: Result, names: map<string, string>, taken: set<Path>)
    returns (path: Path, text: string)
    requires AllTimed(res.segmentsW)
    ensures UniqueFor(path, Target(L, out, f, res, names), taken)
    ensures text == Crlf(Content(f, res))
  {
    path := GetUniquePath(Target(L, out, f, res, names), taken);
    var written: string;
    match f {
      case SentenceSrt => written := WriteSrt(res.segmentsS);
      case WordSrt => written := WriteSrt(WordCues(res.segmentsW));
      case JsonDump => written := res.rawJson;
      case TxtFlat => written := FlatText(res.segmentsS);
      case TxtTime => written := WriteTimedText(res.segmentsS);
    }
    text := Crlf(written);
  }

  // ---------------------------------------------------------------------------
  // Properties
  // ---------------------------------------------------------------------------

  /** Files each written to a path that did not exist before it have distinct paths,
      none of them one that existed before the save. */
  lemma FreshEachDistinct(files: seq<(Path, string)>, existing: set<Path>)
    requires forall k :: 0 <= k < |files| ==> files[k].0 !in existing + PathsOf(files[..k])
    ensures forall j, k :: 0 <= j < k < |files| ==> files[j].0 != files[k].0
    ensures forall k :: 0 <= k < |files| ==> files[k].0 !in existing
  {
    forall j, k | 0 <= j < k < |files|
      ensures files[j].0 != files[k].0
    {
      assert files[..k][j] == files[j];
      assert files[j].0 in PathsOf(files[..k]);
    }
  }

  lemma PathsOfSnoc(files: seq<(Path, string)>, x: (Path, string))
    ensures PathsOf(files + [x]) == PathsOf(files) + {x.0}
  {
    var fs := files + [x];
    assert forall k :: 0 <= k < |files| ==> fs[k] == files[k];
    assert fs[|files|] == x;
  }

  /** Exactly the ticked formats are written, each once. */
  lemma SelectedOrder(ticked: set<Format>)
    ensures forall f :: f in Selected(ticked) <==> f in ticked
    ensures forall j, k :: 0 <= j < k < |Selected(ticked)| ==> Selected(ticked)[j] != Selected(ticked)[k]
  {
    forall f: Format
      ensures f in FormatOrder
    {
      match f {
        case SentenceSrt => assert FormatOrder[0] == f;
        case WordSrt => assert FormatOrder[1] == f;
        case JsonDump => assert FormatOrder[2] == f;
        case TxtFlat => assert FormatOrder[3] == f;
        case TxtTime => assert FormatOrder[4] == f;
      }
    }
    KeepDistinct(FormatOrder, ticked);
  }

  lemma {:induction false} KeepDistinct(fs: seq<Format>, ticked: set<Format>)
    requires forall j, k :: 0 <= j < k < |fs| ==> fs[j] != fs[k]
    ensures forall j, k :: 0 <= j < k < |Keep(fs, ticked)| ==> Keep(fs, ticked)[j] != Keep(fs, ticked)[k]
  {
    if fs != [] {
      var rest := fs[1..];
      assert forall j, k :: 0 <= j < k < |rest| ==> rest[j] == fs[j + 1] && rest[k] == fs[k + 1];
      KeepDistinct(rest, ticked);
      assert fs[0] !in rest;
    }
  }

  /** The name of a format that the dialog does not name carries its suffix: the
      translation when there is one, the English `_<key>` otherwise. */
  lemma SuffixFallback(L: LocaleManager, f: Format, res: Result, names: map<string, string>)
    requires Key(f) !in names
    ensures ("suffix_" + Key(f)) !in L.currentLocale ==> FileName(L, f, res, names) == res.baseName + "_" + Key(f)
    ensures ("suffix_" + Key(f)) in L.currentLocale && L.currentLocale["suffix_" + Key(f)] != "suffix_" + Key(f) ==>
      FileName(L, f, res, names) == res.baseName + L.currentLocale["suffix_" + Key(f)]
  {
  }

  /** The writing of line breaks can be undone: no text is lost or reordered. */
  lemma {:induction false} CrlfRoundTrip(s: string)
    ensures Uncrlf(Crlf(s)) == s
  {
    if s != [] {
      CrlfRoundTrip(s[1..]);
      CrlfHead(s[1..]);
      var rest := Crlf(s[1..]);
      if s[0] == '\n' {
        assert Crlf(s) == "\r\n" + rest;
        assert Crlf(s)[2..] == rest;
      } else {
        assert Crlf(s) == [s[0]] + rest;
        assert Crlf(s)[1..] == rest;
        assert [s[0]] + s[1..] == s;
      }
    }
  }

  lemma CrlfHead(s: string)
    ensures Crlf(s) == [] || Crlf(s)[0] != '\n'
  {
  }

  /** Every line break on disk is a `\r\n` pair. */
  lemma {:induction false} CrlfPairs(s: string)
    ensures forall i :: 0 <= i < |Crlf(s)| && Crlf(s)[i] == '\n' ==> i > 0 && Crlf(s)[i - 1] == '\r'
  {
    if s != [] {
      CrlfPairs(s[1..]);
      var head := if s[0] == '\n' then "\r\n" else [s[0]];
      var rest := Crlf(s[1..]);
      CrlfHead(s[1..]);
      assert Crlf(s) == head + rest;
      forall i | 0 <= i < |head + rest| && (head + rest)[i] == '\n'
        ensures i > 0 && (head + rest)[i - 1] == '\r'
      {
        if i >= |head| {
          assert (head + rest)[i] == rest[i - |head|];
          if i > |head| {
            assert (head + rest)[i - 1] == rest[i - 1 - |head|];
          }
        }
      }
    }
  }

  /** The words of each text. */
  function Splits(xs: seq<string>): (r: seq<seq<string>>)
    ensures |r| == |xs|
  {
    if xs == [] then [] else [Split(xs[0])] + Splits(xs[1..])
  }

  function Texts(cues: seq<Cue>): (r: seq<string>)
    ensures |r| == |cues|
  {
    if cues == [] then [] else [cues[0].text] + Texts(cues[1..])
  }

  /** The plain text holds exactly the words of all entries, in order: stripping and
      joining with single spaces only change the whitespace between them. */
  lemma FlatTextWords(cues: seq<Cue>)
    ensures Split(FlatText(cues)) == Flatten(Splits(Texts(cues)))
  {
    SplitJoin(StrippedTexts(cues));
    StrippedSplits(cues);
  }

  lemma {:induction false} StrippedSplits(cues: seq<Cue>)
    ensures Splits(StrippedTexts(cues)) == Splits(Texts(cues))
  {
    if cues != [] {
      StrippedSplits(cues[1..]);
      SplitStrip(cues[0].text);
      assert StrippedTexts(cues)[0] == Strip(cues[0].text) && StrippedTexts(cues)[1..] == StrippedTexts(cues[1..]);
      assert Texts(cues)[0] == cues[0].text && Texts(cues)[1..] == Texts(cues[1..]);
    }
  }

  lemma JoinTail(xs: seq<string>)
    requires |xs| > 1
    ensures JoinWith(" ", xs) == xs[0] + " " + JoinWith(" ", xs[1..])
  {
  }

  lemma {:induction false} SplitJoin(xs: seq<string>)
    ensures Split(JoinWith(" ", xs)) == Flatten(Splits(xs))
  {
    if xs == [] {
      assert Split("") == [];
    } else {
      var head := Split(xs[0]);
      var parts := Splits(xs[1..]);
      FlattenCons(head, parts);
      if |xs| == 1 {
        assert parts == [];
        assert Split(JoinWith(" ", xs)) == head;
        assert head + [] == head;
      } else {
        SplitJoin(xs[1..]);
        JoinTail(xs);
        SpaceIsBlank();
        SplitGlue(xs[0], " ", JoinWith(" ", xs[1..]));
      }
    }
  }

  lemma FlattenCons(head: seq<string>, parts: seq<seq<string>>)
    ensures Flatten([head] + parts) == head + Flatten(parts)
  {
    assert ([head] + parts)[1..] == parts;
  }

  lemma SpaceIsBlank()
    ensures TrimLeft(" ") == []
  {
    assert " "[1..] == [];
  }

  /** The SRT file opens with the entries before the last, whose number is the count. */
  lemma SrtSnoc(cues: seq<Cue>, c: Cue)
    ensures SrtText(cues + [c]) == SrtText(cues) + SrtBlock(|cues| + 1, c)
  {
    var cs := cues + [c];
    assert cs[..|cs| - 1] == cues && cs[|cs| - 1] == c;
  }

  lemma SrtPrefix(cues: seq<Cue>, i: nat)
    requires i < |cues|
    ensures SrtText(cues[..i + 1]) == SrtText(cues[..i]) + SrtBlock(i + 1, cues[i])
  {
    var cs := cues[..i + 1];
    assert cs[..|cs| - 1] == cues[..i] && cs[|cs| - 1] == cues[i];
  }

  lemma TimedPrefix(cues: seq<Cue>, i: nat)
    requires i < |cues|
    ensures TimedText(cues[..i + 1]) == TimedText(cues[..i]) + TimedLine(cues[i])
  {
    var cs := cues[..i + 1];
    assert cs[..|cs| - 1] == cues[..i] && cs[|cs| - 1] == cues[i];
  }

  /** An SRT block starts with its number, which reads back, and for times from 0 up
      to 100 hours its timing line has the fixed 29-character layout. */
  lemma SrtBlockLayout(i: nat, c: Cue)
    requires 0.0 <= c.start < 360000.0 && 0.0 <= c.end < 360000.0
    ensures
      var b := SrtBlock(i, c);
      var n := |NatStr(i)|;
      && |b| == n + 31 + |c.text| + 2
      && DigitsValue(b[..n]) == i && b[n] == '\n'
      && b[n + 1..n + 30] == FT(c.start) + " --> " + FT(c.end)
      && b[n + 30] == '\n'
      && b[n + 31..] == c.text + "\n\n"
  {
    NatStrValue(i);
    FTWidth(c.start);
    FTWidth(c.end);
    BlockPieces(NatStr(i), FT(c.start), FT(c.end), c.text);
  }

  lemma BlockPieces(num: string, s: string, e: string, text: string)
    requires |s| == 12 && |e| == 12
    ensures
      var b := num + "\n" + s + " --> " + e + "\n" + text + "\n\n";
      var n := |num|;
      && |b| == n + 31 + |text| + 2
      && b[..n] == num && b[n] == '\n' && b[n + 1..n + 30] == s + " --> " + e && b[n + 30] == '\n'
      && b[n + 31..] == text + "\n\n"
  {
    var b := num + "\n" + s + " --> " + e + "\n" + text + "\n\n";
    var line := s + " --> " + e;
    assert b == num + "\n" + line + "\n" + (text + "\n\n");
  }

  /** A line of the timed text file is the bracketed start, the stripped text and the
      bracketed end; for times from 0 up to 100 hours each stamp has 12 characters. */
  lemma TimedLineLayout(c: Cue)
    requires 0.0 <= c.start < 360000.0 && 0.0 <= c.end < 360000.0
    ensures
      var l := TimedLine(c);
      var t := Strip(c.text);
      && |l| == 31 + |t|
      && l[0] == '[' && l[1..13] == FT(c.start) && l[13..15] == "] "
      && l[15..15 + |t|] == t
      && l[15 + |t|..17 + |t|] == " [" && l[17 + |t|..29 + |t|] == FT(c.end) && l[29 + |t|..] == "]\n"
  {
    FTWidth(c.start);
    FTWidth(c.end);
    LinePieces(FT(c.start), Strip(c.text), FT(c.end));
  }

  lemma LinePieces(s: string, t: string, e: string)
    requires |s| == 12 && |e| == 12
    ensures
      var l := "[" + s + "] " + t + " [" + e + "]\n";
      && |l| == 31 + |t|
      && l[0] == '[' && l[1..13] == s && l[13..15] == "] "
      && l[15..15 + |t|] == t
      && l[15 + |t|..17 + |t|] == " [" && l[17 + |t|..29 + |t|] == e && l[29 + |t|..] == "]\n"
  {
    var head := "[" + s + "] ";
    var tail := " [" + e + "]\n";
    assert "[" + s + "] " + t + " [" + e + "]\n" == head + t + tail;
  }

  /** Each timed line follows the ones before it. */
  lemma TimedSnoc(cues: seq<Cue>, c: Cue)
    ensures TimedText(cues + [c]) == TimedText(cues) + TimedLine(c)
  {
    var cs := cues + [c];
    assert cs[..|cs| - 1] == cues && cs[|cs| - 1] == c;
  }

  /** Below 100 hours a timestamp has 12 characters. */
  lemma FTWidth(t: real)
    requires 0.0 <= t < 360000.0
    ensures |FT(t)| == 12
  {
    TimestampFields(t);
    FTIsFormatTimestamp(t);
  }
}
