/**
 * `split_audio`: from the input audio's path and the edit script to the plan of the two
 * mkvmerge calls, the split at the cut points and the merge of the kept pieces.
 *
 * The delay comes from the audio's path, the cut frames from the script (trim calls,
 * else clip slices), and each cut frame becomes a timecode through `tc`, the frame to
 * `HH:MM:SS.mmm` conversion at the chosen frame rate. A script with no cut point is an
 * error, raised before either mkvmerge call. Otherwise the kept pieces alternate with
 * the cut points, and the merge call appends their files.
 */
module SplitAudio {
  import opened Wrappers
  import opened Extraction
  import opened Selection
  import opened Merge
  import opened Delay

  /** What the two mkvmerge calls are given. */
  datatype MergePlan = MergePlan(
    delay: int,               // `--sync 0:<delay>` of the split call, in milliseconds
    cutTimes: seq<string>,    // `--split timecodes:<...>` of the split call, in order
    useFirst: bool,           // whether the first piece is kept
    mergeArgs: seq<string>)   // the files the merge call appends

  /** Why no plan is made: the script has no cut point ("No trims found in avs file"). */
  datatype SplitError = NoTrimsFound

  /** The timecodes of the cut frames, in order. */
  function TimeCodes(frames: seq<nat>, tc: nat -> string): (times: seq<string>)
    ensures |times| == |frames|
  {
    seq(|frames|, k requires 0 <= k < |frames| => tc(frames[k]))
  }

  /** The outcome of `split_audio`, given the total frame count of the audio. */
  function Plan(inputAud: string, script: string, stem: string, total: int, tc: nat -> string)
    : Result<MergePlan, SplitError>
  {
    var frames := CutFrames(script, total);
    if frames == [] then Err(NoTrimsFound)
    else
      var times := TimeCodes(frames, tc);
      var useFirst := UseFirst(times);
      Ok(MergePlan(DelayOf(inputAud), times, useFirst,
                   MergeArgs(PieceFiles(stem, KeptPieces(|times|, useFirst)))))
  }

  /**
   * `split_audio` up to its process calls. `probe` is what probing the audio would report
   * and `probes` how often it is asked; `stem` is the output path without its extension.
   */
  method SplitAudio(inputAud: string, script: string, stem: string, probe: ProbeOutcome, tc: nat -> string)
    returns (r: Result<MergePlan, SplitError>, probes: nat)
    ensures r == Plan(inputAud, script, stem, TotalFrames(probe), tc)
    ensures probes == if NeedsTotal(script) then 1 else 0
  {
    var delay := DelayOf(inputAud);
    var frames;
    frames, probes := ExtractCutFrames(script, probe);
    var cutTimes := TimeCodes(frames, tc);
    if cutTimes == [] {
      return Err(NoTrimsFound), probes;
    }
    var files, useFirst := SelectPieces(cutTimes, stem);
    r := Ok(MergePlan(delay, cutTimes, useFirst, MergeArgs(files)));
  }

  /** There is no plan exactly when the script has neither a trim call nor a clip slice. */
  lemma PlanFails(inputAud: string, script: string, stem: string, total: int, tc: nat -> string)
    ensures Plan(inputAud, script, stem, total, tc).Err? <==>
      TrimMatches(script) == [] && SliceMatches(script) == []
  {
    CutFramesShape(script, total);
  }

  /**
   * The merge call appends one piece per match of the mode in use: the cut points come in
   * pairs, so half of them are kept whichever parity is chosen.
   */
  lemma PlanPieceCount(inputAud: string, script: string, stem: string, total: int, tc: nat -> string)
    requires Plan(inputAud, script, stem, total, tc).Ok?
    ensures var plan := Plan(inputAud, script, stem, total, tc).value;
      var trims := TrimMatches(script);
      |plan.cutTimes| == 2 * |plan.mergeArgs| &&
      |plan.mergeArgs| == if trims != [] then |trims| else |SliceMatches(script)|
  {
    CutFramesShape(script, total);
    var trims := TrimMatches(script);
    var pairs := if trims != [] then |trims| else |SliceMatches(script)|;
    var times := TimeCodes(CutFrames(script, total), tc);
    var useFirst := UseFirst(times);
    var files := PieceFiles(stem, KeptPieces(|times|, useFirst));
    assert Plan(inputAud, script, stem, total, tc).value.mergeArgs == MergeArgs(files);
    assert |times| == 2 * pairs;
    KeptPiecesOfPairs(pairs, useFirst);
  }

  /**
   * The k-th file the merge call appends is piece 2k + 1 when the first cut point is the
   * beginning of the audio, and piece 2k + 2 otherwise.
   */
  lemma PlanMergeFiles(inputAud: string, script: string, stem: string, total: int, tc: nat -> string, k: nat)
    requires Plan(inputAud, script, stem, total, tc).Ok?
    requires k < |Plan(inputAud, script, stem, total, tc).value.mergeArgs|
    ensures var plan := Plan(inputAud, script, stem, total, tc).value;
      (plan.useFirst <==> tc(CutFrames(script, total)[0]) == Zero) &&
      MergeInputs(plan.mergeArgs)[k] == PieceFile(stem, 2 * k + if plan.useFirst then 1 else 2)
  {
    var plan := Plan(inputAud, script, stem, total, tc).value;
    var pieces := KeptPieces(|plan.cutTimes|, plan.useFirst);
    MergeRoundTrip(PieceFiles(stem, pieces));
    KeptPiecesClosedForm(|plan.cutTimes|, plan.useFirst);
    PieceFilesAt(stem, pieces, k);
  }
}
