/**
 * Cut-point extraction from the edit script, and the frame-count oracle.
 *
 * Trim calls are scanned first; each contributes its start frame and then its end frame.
 * Only when no trim call is found are clip slices scanned: each contributes its start
 * frame and its end frame, where a non-negative end is exclusive (so the frame is one
 * less) and a negative end counts back from the total frame count. Negative frames
 * become 0. The total frame count comes from probing the audio, and is asked for at
 * most once: the first negative end asks, and later ones reuse the answer.
 */
module Extraction {
  import opened Wrappers
  import opened Numerals
  import opened Patterns
  import opened Scanner

  /** How the probe of the audio's duration ended. */
  datatype ProbeOutcome =
    | SpawnFailed               // the probing process could not be started
    | ExitFailed                // it ran and exited unsuccessfully
    | Duration(floor: int)      // it reported a duration; `floor` is ⌊seconds × framerate⌋

  /** The total frame count of the audio, as `get_total_frames` computes it from the probe. */
  function TotalFrames(probe: ProbeOutcome): (total: int)
    ensures total >= 0
    ensures !probe.Duration? ==> total == 0
    ensures probe.Duration? && probe.floor >= 0 ==> total == probe.floor
    ensures probe.Duration? && probe.floor < 0 ==> total == 0
  {
    match probe
    case SpawnFailed => 0
    case ExitFailed => 0
    case Duration(floor) => if floor < 0 then 0 else floor
  }

  /** A negative frame becomes frame 0. */
  function Clamp(x: int): nat {
    if x < 0 then 0 else x
  }

  /**
   * The frame a clip slice's END stands for: exclusive when non-negative, so one frame
   * earlier, and counted back from `total` when negative; a negative frame becomes 0.
   */
  function EndFrame(end: int, total: int): nat {
    Clamp(if end < 0 then total + end else end - 1)
  }

  /** The value of the START group of a clip slice; other matches have none. */
  function StartValue(t: Token): nat {
    if t.Slice? then Numeral(t.start) else 0
  }

  /** The value of the END group of a clip slice; other matches have none. */
  function EndValue(t: Token): int {
    if t.Slice? then SignedValue(t.negative, t.end) else 0
  }

  /** All matches are well-formed tokens of pattern `p`. */
  predicate AllOf(ms: seq<Found<Token>>, p: Pattern) {
    forall k :: 0 <= k < |ms| ==> ms[k].token.PatternOf() == p && WellFormed(ms[k].token)
  }

  /** The trim calls of the script, in the order `captures_iter` reports them. */
  function TrimMatches(script: string): (ms: seq<Found<Token>>)
    ensures AllOf(ms, TrimCall)
  {
    MatcherFits(TrimCall, script);
    ScanTokens(TrimCall, script, 0);
    Scan(MatcherOf(TrimCall, script), |script|, 0)
  }

  /** The clip slices of the script, in the order `captures_iter` reports them. */
  function SliceMatches(script: string): (ms: seq<Found<Token>>)
    ensures AllOf(ms, ClipSlice)
  {
    MatcherFits(ClipSlice, script);
    ScanTokens(ClipSlice, script, 0);
    Scan(MatcherOf(ClipSlice, script), |script|, 0)
  }

  lemma ScanTokens(p: Pattern, s: string, i: nat)
    requires i <= |s| && Fits(MatcherOf(p, s), |s|)
    ensures AllOf(Scan(MatcherOf(p, s), |s|, i), p)
  {
    var ms := Scan(MatcherOf(p, s), |s|, i);
    forall k | 0 <= k < |ms| ensures ms[k].token.PatternOf() == p && WellFormed(ms[k].token) {
      MatcherReports(p, s, ms[k]);
    }
  }

  /** The trim matches are the one sequence of matches `captures_iter` can report. */
  lemma TrimMatchesUnique(script: string, ms: seq<Found<Token>>)
    ensures IsMatchSequence(MatcherOf(TrimCall, script), |script|, 0, ms) <==> ms == TrimMatches(script)
  {
    MatcherFits(TrimCall, script);
    ScanUnique(MatcherOf(TrimCall, script), |script|, 0, ms);
  }

  /** The clip slices are the one sequence of matches `captures_iter` can report. */
  lemma SliceMatchesUnique(script: string, ms: seq<Found<Token>>)
    ensures IsMatchSequence(MatcherOf(ClipSlice, script), |script|, 0, ms) <==> ms == SliceMatches(script)
  {
    MatcherFits(ClipSlice, script);
    ScanUnique(MatcherOf(ClipSlice, script), |script|, 0, ms);
  }

  /** The cut frames one trim call contributes: its START, then its END. */
  function TrimCaptures(t: Token): seq<nat> {
    match t
    case Trim(_, _, bounds) => [Numeral(bounds.first), Numeral(bounds.second)]
    case _ => []
  }

  /** The cut frames one clip slice contributes: its START, then its resolved END. */
  function SliceCaptures(t: Token, total: int): seq<nat> {
    if t.Slice? then [StartValue(t), EndFrame(EndValue(t), total)] else []
  }

  /** The cut frames of a sequence of trim calls, in text order. */
  function TrimFrames(ms: seq<Found<Token>>): seq<nat> {
    if ms == [] then [] else TrimFrames(ms[..|ms| - 1]) + TrimCaptures(ms[|ms| - 1].token)
  }

  /** The cut frames of a sequence of clip slices, in text order. */
  function SliceFrames(ms: seq<Found<Token>>, total: int): seq<nat> {
    if ms == [] then [] else SliceFrames(ms[..|ms| - 1], total) + SliceCaptures(ms[|ms| - 1].token, total)
  }

  /** Some clip slice has a negative end. */
  predicate HasNegativeEnd(ms: seq<Found<Token>>) {
    ms != [] && (HasNegativeEnd(ms[..|ms| - 1]) || EndValue(ms[|ms| - 1].token) < 0)
  }

  /** The cut frames of a script, given the total frame count of the audio. */
  function CutFrames(script: string, total: int): seq<nat> {
    var trims := TrimMatches(script);
    if trims != [] then TrimFrames(trims) else SliceFrames(SliceMatches(script), total)
  }

  /** Extracting the cut frames of this script asks the oracle for the total frame count. */
  predicate NeedsTotal(script: string) {
    TrimMatches(script) == [] && HasNegativeEnd(SliceMatches(script))
  }

  /** The trim-mode loop of `split_audio` over the trim calls: start then end of each. */
  method TrimLoop(trims: seq<Found<Token>>) returns (frames: seq<nat>)
    ensures frames == TrimFrames(trims)
  {
    frames := [];
    for k := 0 to |trims|
      invariant frames == TrimFrames(trims[..k])
    {
      assert trims[..k + 1][..k] == trims[..k];
      frames := frames + TrimCaptures(trims[k].token);
    }
    assert trims[..|trims|] == trims;
  }

  /** Trim mode: the cut frames of every trim call of the script, in order. */
  method ExtractTrimFrames(script: string) returns (frames: seq<nat>)
    ensures frames == TrimFrames(TrimMatches(script))
  {
    frames := TrimLoop(TrimMatches(script));
  }

  /**
   * The frame of a clip slice's END. A negative end needs the total frame count: the
   * cached one when there is one, otherwise the oracle is asked (`asked`) and its answer
   * is cached, as `get_or_insert_with` does.
   */
  method ResolveEnd(end: int, cached: Option<int>, probe: ProbeOutcome)
    returns (frame: nat, cached': Option<int>, asked: bool)
    requires cached.Some? ==> cached.value == TotalFrames(probe)
    ensures frame == EndFrame(end, TotalFrames(probe))
    ensures cached'.Some? ==> cached'.value == TotalFrames(probe)
    ensures cached'.Some? <==> cached.Some? || end < 0
    ensures asked <==> cached.None? && end < 0
  {
    cached' := cached;
    asked := false;
    if end < 0 {
      if cached'.None? {
        cached' := Some(TotalFrames(probe));
        asked := true;
      }
      frame := Clamp(cached'.value + end);
    } else {
      frame := Clamp(end - 1);
    }
  }

  /**
   * The slice-mode loop of `split_audio` over the clip slices: start and resolved end
   * of each. `probes` is how many times the frame-count oracle was asked; its answer is
   * cached, so that is at most once.
   */
  method SliceLoop(slices: seq<Found<Token>>, probe: ProbeOutcome) returns (frames: seq<nat>, probes: nat)
    requires AllOf(slices, ClipSlice)
    ensures frames == SliceFrames(slices, TotalFrames(probe))
    ensures probes == if HasNegativeEnd(slices) then 1 else 0
  {
    var cached: Option<int> := None;
    frames := [];
    probes := 0;
    for k := 0 to |slices|
      invariant frames == SliceFrames(slices[..k], TotalFrames(probe))
      invariant cached.Some? ==> cached.value == TotalFrames(probe)
      invariant cached.Some? <==> HasNegativeEnd(slices[..k])
      invariant probes == if cached.Some? then 1 else 0
    {
      var t := slices[k].token;
      var endFrame, asked;
      endFrame, cached, asked := ResolveEnd(EndValue(t), cached, probe);
      probes := probes + if asked then 1 else 0;
      ghost var done := slices[..k + 1];
      assert done[..k] == slices[..k] && done[k] == slices[k];
      assert SliceFrames(done, TotalFrames(probe)) == frames + SliceCaptures(t, TotalFrames(probe));
      frames := frames + [StartValue(t), endFrame];
    }
    assert slices[..|slices|] == slices;
  }

  /** Slice mode: the cut frames of every clip slice of the script, in order. */
  method ExtractSliceFrames(script: string, probe: ProbeOutcome) returns (frames: seq<nat>, probes: nat)
    ensures frames == SliceFrames(SliceMatches(script), TotalFrames(probe))
    ensures probes == if HasNegativeEnd(SliceMatches(script)) then 1 else 0
  {
    frames, probes := SliceLoop(SliceMatches(script), probe);
  }

  /**
   * The extraction of `split_audio`: trim mode, then slice mode only when trim mode
   * found nothing. `probes` is how many times the frame-count oracle was asked.
   */
  method ExtractCutFrames(script: string, probe: ProbeOutcome) returns (frames: seq<nat>, probes: nat)
    ensures frames == CutFrames(script, TotalFrames(probe))
    ensures probes == if NeedsTotal(script) then 1 else 0
  {
    frames := ExtractTrimFrames(script);
    probes := 0;
    if frames == [] {
      TrimFramesShape(TrimMatches(script));
      frames, probes := ExtractSliceFrames(script, probe);
    }
  }

  // What the extraction yields, stated on the matches.

  /** Each trim call contributes two cut frames, START then END, in text order. */
  lemma {:induction false} TrimFramesShape(ms: seq<Found<Token>>)
    requires AllOf(ms, TrimCall)
    ensures |TrimFrames(ms)| == 2 * |ms|
    ensures forall k :: 0 <= k < |ms| ==>
      TrimFrames(ms)[2 * k] == Numeral(ms[k].token.bounds.first) &&
      TrimFrames(ms)[2 * k + 1] == Numeral(ms[k].token.bounds.second)
  {
    if ms != [] {
      var init := ms[..|ms| - 1];
      assert AllOf(init, TrimCall) by {
        forall k | 0 <= k < |init| ensures init[k] == ms[k] { }
      }
      TrimFramesShape(init);
      forall k | 0 <= k < |ms| - 1 ensures init[k] == ms[k] { }
    }
  }

  /** Each clip slice contributes two cut frames, START then its resolved END, in text order. */
  lemma {:induction false} SliceFramesShape(ms: seq<Found<Token>>, total: int)
    requires AllOf(ms, ClipSlice)
    ensures |SliceFrames(ms, total)| == 2 * |ms|
    ensures forall k :: 0 <= k < |ms| ==>
      SliceFrames(ms, total)[2 * k] == Numeral(ms[k].token.start) &&
      SliceFrames(ms, total)[2 * k + 1] == EndFrame(EndValue(ms[k].token), total)
  {
    if ms != [] {
      var init := ms[..|ms| - 1];
      assert AllOf(init, ClipSlice) by {
        forall k | 0 <= k < |init| ensures init[k] == ms[k] { }
      }
      SliceFramesShape(init, total);
      forall k | 0 <= k < |ms| - 1 ensures init[k] == ms[k] { }
    }
  }

  /**
   * The END frame of `clip[S:E]` in terms of the text of E: one before E when E has no
   * minus sign, `total` minus the digits when it has one, and never below 0. `-0` reads
   * as 0, which is not negative, so it gives frame 0 like `clip[S:0]` and does not
   * need the total.
   */
  lemma EndFrameOfSlice(t: Token, total: int)
    requires t.Slice?
    ensures EndValue(t) < 0 <==> t.negative && Numeral(t.end) > 0
    ensures EndFrame(EndValue(t), total) ==
      if t.negative && Numeral(t.end) > 0 then Clamp(total - Numeral(t.end))
      else Clamp(Numeral(t.end) - 1)
    ensures Numeral(t.end) == 0 ==> EndFrame(EndValue(t), total) == 0
  {
  }

  /** The total frame count is needed exactly when some clip slice has a negative END. */
  lemma {:induction false} HasNegativeEndIff(ms: seq<Found<Token>>)
    ensures HasNegativeEnd(ms) <==> exists k :: 0 <= k < |ms| && EndValue(ms[k].token) < 0
  {
    if ms != [] {
      var init := ms[..|ms| - 1];
      HasNegativeEndIff(init);
      if HasNegativeEnd(init) {
        var k :| 0 <= k < |init| && EndValue(init[k].token) < 0;
        assert ms[k] == init[k];
      }
      if exists k :: 0 <= k < |ms| && EndValue(ms[k].token) < 0 {
        var k :| 0 <= k < |ms| && EndValue(ms[k].token) < 0;
        if k < |init| {
          assert ms[k] == init[k];
        }
      }
    }
  }

  /**
   * Two frames per match of the mode in use, and none at all exactly when the script has
   * neither a trim call nor a clip slice.
   */
  lemma CutFramesShape(script: string, total: int)
    ensures var trims := TrimMatches(script);
      |CutFrames(script, total)| == 2 * (if trims != [] then |trims| else |SliceMatches(script)|)
    ensures CutFrames(script, total) == [] <==> TrimMatches(script) == [] && SliceMatches(script) == []
  {
    TrimFramesShape(TrimMatches(script));
    SliceFramesShape(SliceMatches(script), total);
  }

  /**
   * Once a script has a trim call, its clip slices and the total frame count play no
   * part: scripts with the same trim calls have the same cut frames.
   */
  lemma TrimModeIgnoresSlices(script: string, other: string, total: int, otherTotal: int)
    requires TrimMatches(script) != [] && TrimMatches(other) == TrimMatches(script)
    ensures CutFrames(other, otherTotal) == CutFrames(script, total)
  {
  }
}
