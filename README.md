# split_aud: a verified model of `split_audio`

split_aud cuts an audio track to match a video that an AviSynth or VapourSynth script has
edited. `split_audio` reads the script for the frame ranges it keeps. The first form it
looks for is trim calls such as `Trim(clip, 120, 480)`. Failing those, it looks for
Python-style slices such as `clip[120:-30]`. The frames become timecodes. mkvmerge splits
the audio at those timecodes, taking the sync delay from a `DELAY <n>ms` tag in the audio's
path: the first one anywhere in it, directory names included. The pieces between kept
ranges are dropped, and mkvmerge appends the remaining pieces into the output.

This project models that pipeline in Dafny, up to the two mkvmerge calls:

- `Patterns` holds the three regular expressions of the program as hand-written matchers:
  - the trim call `[tT]rim\((?:\w+, ?)?(\d+), ?(\d+)\)`;
  - the clip slice `clip\[(\d+): ?(-?\d+)\]`;
  - the delay tag `DELAY (-?\d+)ms`.

  Each matcher is proved sound (what it reports is a match whose text is there). It is
  also proved complete (every match there is the one it reports), so each pattern has
  exactly one way to match at a position.
- `Scanner` holds the regex crate's leftmost-first search over any matcher:
  - `FindFirst` is `captures`;
  - `Scan` is `captures_iter`, and it is proved to be the only sequence of matches that is
    in order, does not overlap, and misses none.
- `Extraction` turns the matches into cut frames:
  - each trim call gives START then END;
  - clip slices are used only when there is no trim call;
  - a slice END of E ≥ 0 gives frame E − 1, and E < 0 gives total + E, clamped at 0;
  - the total frame count comes from a probe of the audio that is asked at most once,
    with its answer cached.
- `Selection` is the loop that picks which pieces to keep, by parity, depending on whether
  the first cut point is `00:00:00.000`.
- `Merge` builds the append arguments of the merge call.
- `Delay` reads the delay from the audio's path.
- `SplitAudio` is the whole pipeline, and it fails when the script has no cut point.

Numerals are unbounded and the character classes `\d` and `\w` are ASCII.

## Model

| member | source | states |
|---|---|---|
| `Numerals.Pad3` | src/main.rs:165 | the `{:03}` spelling of a piece number reads back as the number and is exactly max(3, its decimal length) digits: three digits below 1000, the plain decimal spelling from 100 on |
| `Numerals.DecimalLength` | src/main.rs:165 | numbers below 1000 have at most three decimal digits, and numbers from 100 have at least three |
| `Numerals.NumeralOfDecimal` | src/main.rs:165 | reading the decimal spelling of n gives back n |
| `Numerals.ZeroPad` | src/main.rs:165 | zero padding keeps a numeral's value and reaches the requested width |
| `Scanner.FindFirst` | src/main.rs:53 | `captures`: the reported match really is one, starts at or after the search start, and no match starts before it; None only when no match starts anywhere |
| `Scanner.FindFirstIs` | src/main.rs:53 | a match with no match before it is the one `captures` reports |
| `Scanner.ScanIsMatchSequence` | src/main.rs:70 | `captures_iter` reports real matches, in text order, non-overlapping, and misses no match outside them |
| `Scanner.ScanUnique` | src/main.rs:70 | a sequence of matches has that behaviour if and only if it is what `captures_iter` reports |
| `Scanner.MatchSequenceOrdered` | src/main.rs:70 | every reported match starts no earlier than any earlier one ends |
| `Scanner.MatchSequenceHead` | src/main.rs:70 | the first reported match is the leftmost match |
| `Scanner.MatchSequenceTail` | src/main.rs:70 | after the first match, the rest is what `captures_iter` reports from its end |
| `Patterns.TrimSound` | src/main.rs:69 | a trim call the matcher reports is a well-formed trim token whose text stands at that position |
| `Patterns.SliceSound` | src/main.rs:88 | a clip slice the matcher reports is well-formed and its text stands there |
| `Patterns.DelaySound` | src/main.rs:52 | a delay tag the matcher reports is well-formed and its text stands there |
| `Patterns.ParseAtSound` | src/main.rs:52-88 | every matcher reports only well-formed tokens of its own pattern whose text stands at the position |
| `Patterns.IdentAttemptFails` | src/main.rs:69 | without a clip name, the attempt to read the first bound as `\w+, ?` must fail, so the optional group is not taken |
| `Patterns.TrimArgsComplete` | src/main.rs:69 | the arguments of any well-formed trim call, with or without a clip name, are read back exactly |
| `Patterns.TrimComplete` | src/main.rs:69 | any well-formed trim call standing at a position is exactly what the matcher reports there |
| `Patterns.SliceComplete` | src/main.rs:88 | any well-formed clip slice standing at a position is exactly what the matcher reports there |
| `Patterns.DelayComplete` | src/main.rs:52 | any well-formed delay tag standing at a position is exactly what the matcher reports there |
| `Patterns.ParseAtComplete` | src/main.rs:52-88 | the three patterns each match deterministically: the token whose text stands at a position is the one reported |
| `Patterns.MatcherFits` | src/main.rs:70 | every match is non-empty and lies inside the text |
| `Patterns.MatcherReports` | src/main.rs:70-71 | a reported match is a well-formed token of the pattern that ends where its text ends |
| `Extraction.TotalFrames` | src/main.rs:11-39 | the probe's frame count is never negative: a spawn failure, a failed exit or a negative floored product gives 0, and a non-negative floor is returned as it is |
| `Extraction.TrimMatches` | src/main.rs:69-70 | every trim match is a well-formed trim call |
| `Extraction.SliceMatches` | src/main.rs:88-90 | every slice match is a well-formed clip slice |
| `Extraction.TrimMatchesUnique` | src/main.rs:69-70 | the trim matches are exactly the sequence `captures_iter` reports for the trim pattern |
| `Extraction.SliceMatchesUnique` | src/main.rs:88-90 | the slice matches are exactly the sequence `captures_iter` reports for the slice pattern |
| `Extraction.TrimLoop` | src/main.rs:70-84 | the trim loop pushes the cut frames of the trim matches, START then END, in order |
| `Extraction.ExtractTrimFrames` | src/main.rs:67-84 | trim mode yields the trim frames of the script's trim calls |
| `Extraction.ResolveEnd` | src/main.rs:97-116 | a slice END resolves to E − 1 or total + E, clamped at 0; the oracle is asked only for a negative END with nothing cached, and its answer is cached |
| `Extraction.SliceLoop` | src/main.rs:89-126 | the slice loop yields START and resolved END of each slice, in order, and asks the oracle once if some END is negative and never otherwise |
| `Extraction.ExtractSliceFrames` | src/main.rs:86-127 | slice mode yields the slice frames of the script's clip slices and asks the oracle at most once |
| `Extraction.ExtractCutFrames` | src/main.rs:65-127 | trim mode first, slice mode only when it found nothing; the oracle is asked once exactly when slice mode runs and meets a negative END |
| `Extraction.TrimFramesShape` | src/main.rs:70-84 | trim mode gives 2 frames per trim call, the 2k-th the START and the (2k+1)-th the END of the k-th call, with no sorting or deduplication |
| `Extraction.SliceFramesShape` | src/main.rs:90-125 | slice mode gives 2 frames per slice: its START, then its resolved END |
| `Extraction.EndFrameOfSlice` | src/main.rs:97-116 | END without a minus gives END − 1, with a minus gives total − digits, clamped at 0; `clip[S:0]` and `clip[S:-0]` give 0 and need no total |
| `Extraction.HasNegativeEndIff` | src/main.rs:99-103 | the total is needed if and only if some clip slice has a negative END |
| `Extraction.CutFramesShape` | src/main.rs:67-129 | twice as many cut frames as matches of the mode in use; none at all exactly when there is neither a trim call nor a clip slice |
| `Extraction.TrimModeIgnoresSlices` | src/main.rs:86 | once a trim call is found, clip slices and the total play no part |
| `Selection.SelectPieces` | src/main.rs:153-168 | the loop sets `use_first` exactly when the first cut point is `00:00:00.000` and collects the files of the kept pieces, in order; the early exit cannot be taken |
| `Selection.KeptPiecesClosedForm` | src/main.rs:159-166 | the k-th kept piece is 2k + 1 with `use_first` and 2k + 2 without, and there are ⌈N/2⌉ or ⌊N/2⌋ of them |
| `Selection.KeptPiecesMembers` | src/main.rs:155-166 | piece j is kept if and only if 1 ≤ j ≤ N and index j − 1 has the parity `use_first` calls for; piece N + 1 never is |
| `Selection.KeptPiecesAscending` | src/main.rs:155-166 | kept pieces are in strictly increasing order |
| `Selection.KeptPiecesOfPairs` | src/main.rs:162 | an even number of cut points keeps half of them, whichever the parity |
| `Selection.KeptPiecesExamples` | src/main.rs:155-166 | two cut points from 00:00:00.000 keep piece 1; two from elsewhere keep piece 2; one from elsewhere keeps none |
| `Selection.PieceFileInjective` | src/main.rs:164-165 | different piece numbers name different files |
| `Selection.PieceFilesAt` | src/main.rs:163-166 | the k-th file is the file of the k-th kept piece |
| `Merge.MergeArgs` | src/main.rs:177-183 | one argument per file, and every argument after the first starts with `+` |
| `Merge.MergeRoundTrip` | src/main.rs:177-183 | dropping the `+` of the later arguments gives back the files, in order |
| `Merge.MergeArgsInjective` | src/main.rs:173-184 | different file lists give different argument lists |
| `Delay.DelayOfFirst` | src/main.rs:52-55 | the first delay tag in the path gives the delay, negative with a minus sign, whatever follows it |
| `Delay.DelayOfAbsent` | src/main.rs:56-58 | a path without a delay tag has delay 0 |
| `Delay.DelayOfSound` | src/main.rs:53-55 | a non-zero delay is the value of a delay tag that stands in the path |
| `Delay.DelayOfExample` | src/main.rs:52-55 | `track DELAY -24ms.aac` has delay −24 |
| `SplitAudio.SplitAudio` | src/main.rs:50-184 | the pipeline produces the plan of `Plan`, or fails as it does, and asks the oracle once exactly when slice mode meets a negative END |
| `SplitAudio.PlanFails` | src/main.rs:129-131 | there is no plan, and so no split or merge, if and only if the script has neither a trim call nor a clip slice |
| `SplitAudio.PlanPieceCount` | src/main.rs:153-168 | the merge appends one piece per match of the mode in use, half the number of cut points |
| `SplitAudio.PlanMergeFiles` | src/main.rs:153-184 | `use_first` holds exactly when the first cut frame's timecode is 00:00:00.000, and the k-th appended file is piece 2k + 1 or 2k + 2 accordingly |

## Left out

- The ffprobe and mkvmerge process calls and their output (src/main.rs:12-31, 135-150, 170-188). This is process I/O. The probe is the `ProbeOutcome` parameter. The plan records the delay, the timecodes and the append arguments of the two mkvmerge calls. It does not record the input audio path or the `-o` output paths those calls are also given (src/main.rs:136-145, 171-172).
- The floating-point work: the f64 duration times the frame rate in `get_total_frames`, and the f32 and chrono conversion of a frame into an `HH:MM:SS.mmm` timecode. The probe's floored product is the `floor` of `ProbeOutcome.Duration`. The timecode conversion is the parameter `tc`, taken as total. The conversion's panic is not modelled. `NaiveTime::from_num_seconds_from_midnight_opt(..).unwrap()` panics for a frame at or beyond 24 hours of audio (src/main.rs:80-81, 119-123). That panic comes before any mkvmerge call, and for such scripts the model returns a plan where the program aborts. `SplitAudio` applies `tc` to the finished list of cut frames, where the source applies it inside each loop. With a total `tc`, the cut points are the same.
- The panic when ffprobe's output does not parse as a number (src/main.rs:33-36). This is external process output.
- Reading the script file and deleting the temporary pieces by a directory scan (src/main.rs:61-63, 190-200). This is filesystem I/O. The script's text is a parameter.
- `Path::with_extension`: the model takes `stem`, the output path without its extension, and appends `.split-NNN.mka` to it.
- The command line and its frame-rate parsing in `main`. This is argument handling.
- Panics of `parse().unwrap()` on numerals too large for `usize` or `isize`: numerals are unbounded here. Unicode `\d` and `\w` are not modelled; both classes are ASCII.
