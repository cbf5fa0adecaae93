# WHIXPI subtitle post-processing, modelled in Dafny

WHIXPI transcribes media files into subtitles. After transcription and word alignment,
a chain of deterministic steps turns the aligned segments into the files the
user gets. This project models that chain and proves properties of it:

* **Timing bridge** (`chronos_seamless_core`, module `Bridge`). One forward pass over
  the intervals. Small gaps are closed, overlaps are clipped and a minimum duration is
  enforced. Only `end` fields are written.
* **Gap distributor** (`waveform_finetune_chronos`, module `GapDistributor`). Inside
  each segment, small gaps between words are shared out between the two words. The
  segment's bounds are then reset from its first and last word.
* **Hybrid segmenter** (`miller_hybrid_split`, modules `SegmenterConfig`, `Grouping`,
  `LineWrap`, `LineBalance`, `HybridSplit`):
  * `safe_int` reads the settings.
  * A left-to-right scan groups the timed words. It splits on word count, character
    capacity, punctuation and silence.
  * Each group's text is wrapped and balanced: a hard line limit, anti-dangle and a
    conjunction push-down.
  * A final pass retimes the transitions between entries.
* **Boundary refinery** (the CPU solver of `diamond_refinery`, module `Refinery`).
  * The audio is padded to whole 512-sample frames.
  * Each interval gets a clamped search window. The solver scans it for frames above
    the voice threshold, snaps to the quietest sample near the first and last voiced
    frame, and accepts a correction only within the drift limits.
  * Degenerate intervals are guarded.
  * Module `WordRefinement` covers the word-level use: every word is flattened into
    one list, refined in one run, and handed back to its segment by count.
* **Timestamps** (`format_timestamp` and its copy `f_t`, module `Timestamp`).
* **Export** (`save_results`, module `Export`). It covers the text of each of the
  five formats, the file names (localised suffixes and names chosen in the dialog),
  making each name unique against the existing files and the ones written before it,
  and the `\r\n` newline translation.
* **Helpers**:
  * `get_unique_path` (module `Paths`), with the files that exist given as a finite set.
  * `LocaleManager` (module `Locale`).
  * The file queue of the main window (module `FileQueue`).

Times are `real` seconds. Python's `int()` (truncation toward zero), `%` with a
positive divisor, `//`, `str.strip`/`split`/`join`/`lower`, `f"{n:02}"` and
`pathlib`'s `stem`/`suffix` are written out in modules `Numbers` and `Text`.

In-place algorithms keep their form:
* The bridge, the gap distributor's inner loop, the solver and the final retiming loop
  are methods over an `array`. Each is proved equal to a function of the old contents.
* `LocaleManager` and the window's file queue are classes whose methods update their
  fields.

Three behaviours of the source are easy to miss. The model follows the code:
* Pairs of words without times are skipped by the gap distributor, but the segment
  bounds are read outside the `try`. A first or last word without times therefore
  raises `KeyError` for the whole call (src/engine/logic.py:90-92).
  `GapDistributor.Finetune` returns `None` then.
* The solver's `continue` on an empty frame window also skips the degenerate-interval
  guard (src/engine/worker.py:560), so such an interval can keep `end <= start`.
* In the word-level refinement a word without times raises while the times are read,
  and the whole list comes back unrefined (src/engine/worker.py:535, 601-604). No
  single word is skipped.

## Model

| member | source | states |
|---|---|---|
| Records.CollectTimedWords | src/engine/worker.py:353-357 | the nested loop returns exactly the timed words of all segments, in order (the same loop as src/engine/logic.py:135-139) |
| Records.FilterTimedMembers | src/engine/worker.py:356-357 | a word is in the timed stream exactly when it is in the input and has a `start` |
| Records.FilterTimedAppend | src/engine/worker.py:354-357 | collecting segment by segment keeps order: the timed words of two lists joined are the timed words of each, joined |
| Records.FilterTimedAll | src/engine/logic.py:135-139 | when every word is timed, nothing is dropped |
| Numbers.Frac | src/engine/logic.py:286 | `seconds % 1` lies in [0, 1) |
| Numbers.Abs | src/engine/worker.py:575 | the absolute value is non-negative and equals x or -x |
| Numbers.Clip | src/engine/worker.py:550-551 | `np.clip` gives a value in [lo, hi], and a value already inside is kept |
| Numbers.TruncBounds | src/engine/worker.py:548-549 | `astype(int)` truncates toward zero: for x >= 0 the result t has 0 <= t <= x < t + 1, for x < 0 it has t - 1 < x <= t <= 0 |
| Numbers.TruncExamples | src/engine/worker.py:548-549 | `astype(int)` truncates toward zero: 2.7 gives 2, -2.7 gives -2, -0.5 gives 0 |
| Text.SplitStrip | src/engine/logic.py:162 | stripping a text does not change its words (`split()`) |
| Text.SplitGlue | src/engine/logic.py:182 | joining two texts with whitespace between them gives the words of the first followed by the words of the second |
| Text.JoinSpaceLength | src/engine/logic.py:234 | a space-joined text is as long as its parts together plus one separator between each two |
| Text.RFind | src/utils/helpers.py:104-105 | the index of the last occurrence of a character, -1 when absent, with nothing equal after it |
| Text.NatStrValue | src/engine/logic.py:291 | the decimal rendering of a number reads back as that number |
| Text.NatStrInjective | src/utils/helpers.py:109 | different numbers have different renderings |
| Text.ZeroPadExact | src/engine/logic.py:291 | `f"{n:0w}"` for n below 10^w has exactly w digits and reads back as n |
| Text.ZeroPadValue | src/engine/logic.py:291 | `f"{n:0w}"` has at least w digits for any n and reads back as n |
| SegmenterConfig.SafeIntOfInt | src/engine/logic.py:121-125 | a non-zero integer setting is returned as it is |
| SegmenterConfig.ZeroIntegerIsDefault | src/engine/logic.py:121-125 | the integer 0 is falsy and gives the default |
| SegmenterConfig.ZeroStringIsZero | src/engine/logic.py:121-125 | the text "0" is truthy and gives 0, not the default |
| SegmenterConfig.SafeIntOfText | src/engine/logic.py:121-125 | a non-empty text gives `int()` of its stripped form, or the default when that raises |
| SegmenterConfig.SafeIntFallsBack | src/engine/logic.py:121-125 | a missing value, the empty text, a non-number and "7.5" all give the default |
| SegmenterConfig.SafeIntOfPaddedDecimal | src/engine/logic.py:123 | a decimal with spaces around it gives its value |
| SegmenterConfig.ParseIntOfIntStr | src/engine/logic.py:123 | `int(str(n))` is n for every integer |
| Bridge.SeamlessCore | src/engine/logic.py:15-51 | the in-place pass leaves the array equal to the bridge function of its old contents |
| Bridge.BridgeKeepsStarts | src/engine/logic.py:29-49 | length, order and every `start` are kept: only `end` fields change |
| Bridge.BridgeMinDuration | src/engine/logic.py:44-49 | every interval, the last one included, lasts at least `min_dur` |
| Bridge.BridgeClosesSmallGap | src/engine/logic.py:33-45 | a gap up to the threshold makes the new end the later of the next start and start + `min_dur` |
| Bridge.BridgeNoOverlapWithRoom | src/engine/logic.py:36-45 | when start + `min_dur` fits before the next start, the interval ends no later than the next starts |
| Bridge.BridgeOverlapOnlyFromMinDuration | src/engine/logic.py:40-45 | an overlap left by the pass comes only from the minimum-duration extension |
| Bridge.BridgeKeepsWideGap | src/engine/logic.py:33-45 | an interval before a wide gap that neither overlaps nor is too short is unchanged |
| Bridge.GapBridgingExample | src/engine/logic.py:36-37 | {1.0, 2.0}, {2.15, 3.0} with threshold 0.2 gives end 2.15 |
| Bridge.MinDurationExample | src/engine/logic.py:48-49 | {5.0, 5.05} with minimum 0.2 gives end 5.2 |
| Bridge.BridgeNotIdempotent | src/engine/logic.py:15-51 | a second pass can change the result of the first: end 0.2 after one pass, 0.5 after two |
| Bridge.BridgeCanLeaveOverlap | src/engine/logic.py:44-45 | the minimum-duration extension can leave an interval ending after the next one starts |
| GapDistributor.DistributeGaps | src/engine/logic.py:76-87 | the in-place pass over the words equals the distribution function of the old words |
| GapDistributor.DistributedPair | src/engine/logic.py:78-85 | for a gap in (0, 0.3) the earlier end grows and the later start shrinks by min(0.4·gap, 0.08), leaving at least 0.2·gap; other gaps are untouched |
| GapDistributor.DistributedKeepsWords | src/engine/logic.py:76-87 | the words keep their number, labels and timedness, and an untimed word is unchanged |
| GapDistributor.WaveformFinetune | src/engine/logic.py:54-96 | the loop over segments returns the finetune function of the input, `None` for the `KeyError` |
| GapDistributor.FinetuneSegmentBounds | src/engine/logic.py:70-92 | a segment without words is kept; otherwise it keeps its text, gets the distributed words, and starts at its first word's start and ends at its last word's end |
| GapDistributor.FinetuneElementwise | src/engine/logic.py:69-96 | the result is the segments refined one by one, in order; it fails exactly when some segment fails |
| GapDistributor.FinetuneFailsFrom | src/engine/logic.py:69-94 | once a prefix of the segments raises, the whole call raises |
| LineWrap.WrapFlatten | src/engine/logic.py:176 | wrapping keeps the words and their order |
| LineWrap.WrapGreedy | src/engine/logic.py:176 | the wrap is greedy: no empty line, every line fits or is one word, and no line could take the next line's first word; no words give no lines |
| LineWrap.WrapShortText | src/engine/logic.py:211 | a text within the width stays on one line |
| LineBalance.TargetLines | src/engine/logic.py:169-170 | `target_lines` lies in [1, ml] and is either ml or the computed count |
| LineBalance.TargetWidth | src/engine/logic.py:173 | `target_w` is at least 15 and at least the integer part of characters per line |
| LineBalance.MergeOverflow | src/engine/logic.py:180-182 | the merge loop returns the merge function of its input |
| LineBalance.MergedShape | src/engine/logic.py:180-182 | after merging there are min(lines, ml) lines holding the same words in order |
| LineBalance.AntiDangleShape | src/engine/logic.py:185-194 | the anti-dangle step keeps the line count and the words in order |
| LineBalance.AntiDangleExample | src/engine/logic.py:187-194 | a one-word last line takes the previous line's last word |
| LineBalance.ProtectConjunctions | src/engine/logic.py:197-205 | the conjunction loop returns the conjunction function of its input |
| LineBalance.ConjStepShape | src/engine/logic.py:198-205 | one conjunction move keeps the line count and the words in order |
| LineBalance.ConjFromShape | src/engine/logic.py:197-205 | the whole conjunction pass keeps the line count and the words in order |
| LineBalance.ConjunctionPushedDown | src/engine/logic.py:198-205 | for any line j but the last: if it ends in a conjunction when step j runs, the step moves that word to the front of line j + 1, and line j keeps the rest to the end of the pass |
| LineBalance.ConjunctionTwoLines | src/engine/logic.py:197-205 | of two lines, a first line ending in a conjunction gives `[a, [c] + b]` |
| LineBalance.ConjunctionCanRemain | src/engine/logic.py:197-205 | a line can still end in a conjunction afterwards: each line moves at most one word |
| LineBalance.AndIsConjunction | src/engine/logic.py:149-152 | "and" is one of the listed conjunctions after lowercasing and stripping punctuation |
| LineBalance.BalanceLines | src/engine/logic.py:165-207 | the balancing for `ml > 1` returns the balance function of the words |
| LineBalance.BalancedShape | src/engine/logic.py:165-207 | at most ml lines, as many as the wrap gave up to ml, holding exactly the words in order |
| Grouping.ScanIsOk | src/engine/logic.py:220-259 | the scan keeps its invariant: finished groups are non-empty and well formed, and together with the open group they are the words seen so far |
| Grouping.GroupsWellFormed | src/engine/logic.py:220-262 | groups are non-empty and no rule splits inside one; their concatenation is the timed-word stream in order, and there are none exactly when there are no words |
| Grouping.WordLimitHolds | src/engine/logic.py:229-230 | with `mw > 0` no group has more than mw words |
| Grouping.CapacityHolds | src/engine/logic.py:232-238 | with `base_l > 0` a group of several words has its labels and separating spaces within `seg_capacity` |
| Grouping.SilenceHolds | src/engine/logic.py:248-253 | inside a group consecutive words are at most 0.5 s apart, and at most 0.2 s after a word with `.`, `?` or `!` in it |
| Grouping.StrongMarkHolds | src/engine/logic.py:240-243 | a word containing `.`, `?`, `!` or `:` inside a group comes where the group was still shorter than 0.7·`base_l` |
| HybridSplit.CommitGroup | src/engine/logic.py:157-217 | an empty group adds nothing; otherwise one entry from the first word's start to the last word's end with the wrapped text |
| HybridSplit.GroupAndCommit | src/engine/logic.py:220-262 | the scan with its commits returns one entry per group of the grouping function, in order |
| HybridSplit.CuesOfGroups | src/engine/logic.py:213-217 | non-empty groups give one entry each, in order |
| HybridSplit.Retime | src/engine/logic.py:265-267 | the in-place final loop equals the retiming function of the old entries |
| HybridSplit.RetimedTransitions | src/engine/logic.py:265-267 | starts and texts are kept; each transition is either closed or keeps a gap of at least 0.2 s with its end unchanged; the last entry is unchanged |
| HybridSplit.MillerHybridSplit | src/engine/logic.py:103-269 | the whole function returns the segmenter result on the parsed settings |
| HybridSplit.HybridSplitEntries | src/engine/logic.py:213-267 | one entry per group; it starts at its first word's start, carries its group's text and ends at its last word's end or at the next entry's start |
| HybridSplit.CueLinesShape | src/engine/logic.py:165-211 | an entry's lines hold exactly the words of its text, in order, and at most ml lines when ml > 1 |
| HybridSplit.SingleLineWidth | src/engine/logic.py:209-211 | with ml == 1 each line is one word or fits `base_l` |
| HybridSplit.ZeroSettings | src/engine/logic.py:127-146 | the settings "0", "0", "0" return the segments as they are with stripped texts, while integer zeros give base_l 75 |
| Timestamp.FTIsFormatTimestamp | src/ui/main_window.py:1050-1054 | `f_t` computes the same string as `format_timestamp` for every input |
| Timestamp.ClockArithmetic | src/engine/logic.py:287-290 | minutes and seconds are below 60, and h·3600 + m·60 + s gives back the whole seconds |
| Timestamp.FormatLayout | src/engine/logic.py:286-291 | for s >= 0 the text is hours, minutes and seconds padded to 2 digits and milliseconds padded to 3, separated by `:`, `:` and `,` |
| Timestamp.TimestampFields | src/engine/logic.py:286-291 | for s >= 0 the separators sit in place, every field is digits, M < 60, S < 60, mmm < 1000, H·3600 + M·60 + S = floor(s), and below 100 hours the text has 12 characters |
| Timestamp.TimestampOfZero | src/engine/logic.py:276-291 | 0 gives "00:00:00,000" |
| Timestamp.TimestampExample | src/engine/logic.py:276-291 | 3725.5 gives "01:02:05,500" |
| Refinery.PaddingIsMinimal | src/engine/worker.py:509-514 | the padded length is the smallest multiple of 512 not below the length, so there are ceil(n/512) frames |
| Refinery.FrameIndex | src/engine/worker.py:548-551 | a frame index is clipped into [0, frames] |
| Refinery.FirstHit | src/engine/worker.py:563-566 | the first frame in the window above 0.08, with none before it, or none at all |
| Refinery.LastHit | src/engine/worker.py:563-567 | the last frame in the window above 0.08, with none after it, or none at all |
| Refinery.HitsAgree | src/engine/worker.py:565-567 | both scans find a frame exactly when one is voiced, the first no later than the last |
| Refinery.ArgMinAbs | src/engine/worker.py:575 | `np.argmin(np.abs(...))`: an index of least magnitude, the first such one |
| Refinery.SnapQuietest | src/engine/worker.py:573-581 | the snap is the first quietest sample within 1200 samples of the raw boundary, or the raw boundary when that window is empty |
| Refinery.MovedStaysClear | src/engine/worker.py:540-546 | a moved start is not before `prev_ends[i]` (the previous original end + 0.02, or 0), and a moved end is not after `next_starts[i]` − 0.01 (the next original start − 0.02, or the audio's duration) |
| Refinery.StartDrift | src/engine/worker.py:583-587 | unless the previous interval ends (plus 0.02 s) more than the limit after this one starts, a start is either kept or moved by less than 0.30 s (sentence) or 0.15 s (word) |
| Refinery.EndDrift | src/engine/worker.py:584-592 | unless the next interval starts (less 0.03 s) more than 0.5 s before this one ends, an end is kept, moved by less than 0.5 s, or set to start + 0.1 by the guard |
| Refinery.SkippedUnchanged | src/engine/worker.py:559-560 | an empty frame window leaves the interval completely unchanged |
| Refinery.SkipKeepsDegenerate | src/engine/worker.py:560 | the skip also bypasses the guard: {1.0, 0.5} stays as it is |
| Refinery.ScannedPositive | src/engine/worker.py:591-592 | every interval that is scanned ends after it starts |
| Refinery.SilentWindow | src/engine/worker.py:563-565 | a window with no frame above 0.08 changes the interval only through the degenerate guard |
| Refinery.RefineAt | src/engine/worker.py:559-592 | one iteration of the solver loop computes the refinement of interval i from the original starts and ends |
| Refinery.Solve | src/engine/worker.py:534-592 | the in-place solver loop leaves the array equal to the refinement of its old contents |
| Refinery.DiamondRefinery | src/engine/worker.py:478-520 | the intervals are refined when the model loaded, the run is not cancelled and there is audio; otherwise they are returned as they were |
| WordRefinement.RefineWordArray | src/engine/worker.py:329 | the solver in word mode applied to the flat list's times, or the list unchanged |
| WordRefinement.RefineSegmentWords | src/engine/worker.py:322-337 | flattening, refining and redistributing gives the word-refinement function of the segments |
| WordRefinement.CollectAllWords | src/engine/worker.py:322-325 | the flat list is every segment's words, segment after segment |
| WordRefinement.HandBack | src/engine/worker.py:331-337 | the distribution loop hands each segment the next as many refined words as it had |
| WordRefinement.RedistributionKeepsCounts | src/engine/worker.py:333-337 | every segment gets back as many words as it had, and keeps its own start, end and text |
| WordRefinement.RedistributionKeepsOrder | src/engine/worker.py:331-337 | the first i segments hold exactly the first words of the list, in order |
| WordRefinement.RedistributedWords | src/engine/worker.py:331-337 | together the redistributed segments hold exactly the list handed back |
| WordRefinement.RedistributeOwnWords | src/engine/worker.py:331-337 | handing the segments their own words back changes nothing |
| WordRefinement.RefinedWordsShape | src/engine/worker.py:329 | the refined list is as long as the input, and each word keeps its label, text and timedness |
| WordRefinement.WordRefinedShape | src/engine/worker.py:322-337 | segments keep their number, times, texts and word counts, and their words read back as the refined flat list |
| WordRefinement.WordRefinedIdle | src/engine/worker.py:327-337 | a run that does not proceed, or an untimed word, leaves every segment as it was |
| WordRefinement.TimedAfterRefinement | src/engine/worker.py:353-357 | `segments_w` read after the refinement is the refined flat list without its untimed words |
| Paths.GetUniquePath | src/utils/helpers.py:99-112 | a free path is returned as it is; otherwise `stem (k)suffix` in the same folder for the smallest k >= 1 not taken; the result is never taken |
| Paths.StemSuffix | src/utils/helpers.py:104-105 | a name is its stem followed by its suffix |
| Paths.CandidateInjective | src/utils/helpers.py:109 | different counters give different names, so the loop meets a new name each time |
| Paths.CandidateIsNew | src/utils/helpers.py:109 | an alternative name is never the original path |
| Paths.CandidateKeepsSuffix | src/utils/helpers.py:103-109 | an alternative keeps the suffix, and its stem is the old stem with ` (k)` appended |
| Locale.LocaleManager.constructor | src/utils/helpers.py:235-236 | a new manager has an empty table and the language code "tr" |
| Locale.LocaleManager.LoadLocale | src/utils/helpers.py:248-259 | the code is always recorded; the table is replaced and true returned exactly when the file loads |
| Locale.LocaleManager.Get | src/utils/helpers.py:261-272 | a present key gives its translation; an absent key gives the default when one is given, else the key |
| Locale.AvailableLanguages | src/utils/helpers.py:281-288 | the loop returns the listed languages, in listing order |
| Locale.LanguagesMembers | src/utils/helpers.py:283-285 | a language is listed exactly when some file ending in `.json` names it |
| Locale.LanguagesCount | src/utils/helpers.py:283-285 | at most one language per file |
| Locale.CodeOfFile | src/utils/helpers.py:284-285 | the file `<code>.json` lists the language `code`, for a code without a dot |
| Locale.OtherFilesIgnored | src/utils/helpers.py:284 | a file not ending in `.json` lists nothing |
| FileQueue.MainWindow.constructor | src/ui/main_window.py:83 | the queue starts empty |
| FileQueue.MainWindow.AddFiles | src/ui/main_window.py:877-889 | the queue becomes the old queue with the offered paths added (the dialog's pick when none are given), and stays free of empty and repeated paths |
| FileQueue.MainWindow.RemoveFromQueue | src/ui/main_window.py:922-926 | an index in range drops exactly that entry and keeps the rest in order; any other index changes nothing |
| FileQueue.MainWindow.ClearQueue | src/ui/main_window.py:891-895 | the queue becomes empty |
| FileQueue.AddedDistinct | src/ui/main_window.py:884-886 | adding keeps the queue free of empty and repeated paths |
| FileQueue.AddedExtends | src/ui/main_window.py:884-886 | the old entries stay in front, unchanged and in order |
| FileQueue.AddedMembers | src/ui/main_window.py:884-886 | a path ends up queued exactly when it was queued before or was offered and is not empty |
| FileQueue.AddedIdempotent | src/ui/main_window.py:884-886 | offering the same paths again adds nothing |
| FileQueue.AddedNothingNew | src/ui/main_window.py:884-886 | offering only queued or empty paths leaves the queue as it is |
| FileQueue.RemovedDistinct | src/ui/main_window.py:924-925 | removing keeps the queue free of repeats and forgets exactly the removed path |
| Export.T | src/ui/main_window.py:240-242 | the translation of a key, or the key itself when there is none |
| Export.SuffixFallback | src/ui/main_window.py:1067-1071 | without a chosen name, the file name is the base name and the translated suffix, or `_<key>` when the suffix is not translated |
| Export.SelectedOrder | src/ui/main_window.py:1056-1065 | exactly the ticked formats are written, each once, in the exporter's order |
| Export.WriteSrt | src/ui/main_window.py:1075-1082 | the SRT loop writes the SRT text of the entries (of the timed words for the word file) |
| Export.SrtSnoc | src/ui/main_window.py:1076-1077 | entry i is written as block i, after the blocks before it, numbered from 1 |
| Export.SrtBlockLayout | src/ui/main_window.py:1077 | a block is its number, which reads back, a newline, the 29-character timing line `start --> end`, a newline, the text and a blank line |
| Export.WriteTimedText | src/ui/main_window.py:1091-1093 | the timed-text loop writes one line per entry |
| Export.TimedSnoc | src/ui/main_window.py:1092-1093 | each timed line follows the ones before it |
| Export.TimedLineLayout | src/ui/main_window.py:1093 | a timed line is `[start] `, the stripped text, ` [end]` and a newline, each stamp 12 characters |
| Export.FlatTextWords | src/ui/main_window.py:1089 | the words of the flat text are the words of the entry texts, in order |
| Export.CrlfRoundTrip | src/ui/main_window.py:1074 | the `\r\n` translation loses nothing: turning each `\r\n` back into `\n` gives the text that was written |
| Export.CrlfPairs | src/ui/main_window.py:1074 | every newline in a written file is preceded by a carriage return |
| Export.SaveOne | src/ui/main_window.py:1066-1093 | one ticked format is written at the unique path of its target, with its content in `\r\n` newlines |
| Export.FreshEachDistinct | src/ui/main_window.py:1072 | paths each new against the existing files and the earlier ones are pairwise distinct and new |
| Export.SaveResults | src/ui/main_window.py:1044-1096 | one file per ticked format, in order; each holds its format's text at the unique path of its target among the files that exist when it is written; no two share a path and none overwrites an existing file |

## Left out

- Transcription, alignment, model loading and downloading, VAD inference and batching on the GPU are not modelled: they are foreign libraries and devices. The probability map (one value per 512-sample frame) and the audio samples are inputs.
- `analyze_vad_params` is not modelled: its statistics never reach the values it returns, so the fixed threshold 0.08, pads 0.5/0.5 and end drift 0.5 are constants here. The fallback values 0.15/0.1/0.2/0.4 used when it raises are not modelled.
- Exceptions inside `diamond_refinery` other than the ones modelled are not modelled; they return the input, like a run that does not proceed. An empty audio is folded into "does not proceed", because the empty probability map makes the concatenation raise.
- Threads, processes, queues and the log messages are not modelled. Cancellation is the `cancelled` flag of a run.
- Refinery.Solve: `round(..., 3)` on the new times is not modelled, and neither are other floating-point effects. Times are exact reals.
- LineWrap.Wrap: `textwrap.wrap` is modelled as a greedy wrap over the words of the text. Breaking of over-long words, hyphen splitting and its other whitespace rules are not modelled.
- HybridSplit.MillerHybridSplit: requires `base_l > 0` whenever `ml >= 1`. With `base_l == 0` the source divides by zero (line 169) or hands `textwrap` a width of 0 (line 211), and the settings dialog never offers it.
- HybridSplit.CommitGroup: `last_text` (src/engine/logic.py:225) is computed and never used, so it is not modelled.
- Records.Word: a word has both `start` and `end` or neither. The aligner's records are not modelled with only one of them.
- GapDistributor.WaveformFinetune: the source changes the caller's dictionaries in place, including the ones handled before a `KeyError`. The model returns new values and `None` for the error.
- The widgets, settings files, icons, drag and drop, the queue display refresh, the file dialog, the folder listing, `mkdir`, opening the explorer and the exception handler of `save_results` are not modelled. The dialog's pick, the listing and the set of existing files are parameters.
- Export.CrlfRoundTrip: reading a file back with universal newlines, which also turns a lone `\r` into `\n`, is not modelled; the lemma states that the translation itself is reversible.
- Export.Content: the JSON file's text is a parameter (`rawJson`). JSON serialisation is not modelled.
- Locale.LocaleManager.LoadLocale: finding the locales folder, opening the file and parsing JSON are not modelled. The parsed table is a parameter, and translations are taken to be strings.
- Text.Lower: lower-casing covers the ASCII and Latin-1 capitals and the Turkish Ğ, Ş and İ. Full Unicode case mapping is not modelled, and neither are Unicode digits in `int()`.
- Paths.Path: a path is its folder and its final name. Path normalisation and names containing separators are not modelled.
