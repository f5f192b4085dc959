/**
 * The audio delay named in the input file's path.
 *
 * Audio demuxed from a video often carries its sync offset in the file name, as in
 * `track DELAY -24ms.aac`. The first `DELAY (-?\d+)ms` in the path gives the delay in
 * milliseconds, negative with a minus sign; a path without one has delay 0.
 */
module Delay {
  import opened Wrappers
  import opened Numerals
  import opened Scanner
  import opened Patterns

  /** The signed value of a delay tag; other tokens have none. */
  function TagValue(t: Token): int {
    if t.Delay? then SignedValue(t.negative, t.digits) else 0
  }

  /** The delay of the audio at `path`: the value of its first delay tag, else 0. */
  function DelayOf(path: string): int {
    match FindFirst(MatcherOf(DelayTag, path), |path|, 0)
    case Some(f) => TagValue(f.token)
    case None => 0
  }

  /** A delay tag at `i` with none before it gives the delay, whatever follows. */
  lemma DelayOfFirst(path: string, i: nat, t: Token)
    requires t.Delay? && WellFormed(t) && TextAt(path, i, Render(t))
    requires forall q :: 0 <= q < i ==> ParseAt(DelayTag, path, q).None?
    ensures DelayOf(path) == SignedValue(t.negative, t.digits)
  {
    var m := MatcherOf(DelayTag, path);
    ParseAtComplete(DelayTag, path, i, t);
    var f := Found(i, i + |Render(t)|, t);
    assert Reports(m, f);
    forall q | 0 <= q < i ensures m(q).None? {
      assert ParseAt(DelayTag, path, q).None?;
    }
    FindFirstIs(m, |path|, 0, f);
  }

  /** A path with no delay tag anywhere has delay 0. */
  lemma DelayOfAbsent(path: string)
    requires forall q :: 0 <= q < |path| ==> ParseAt(DelayTag, path, q).None?
    ensures DelayOf(path) == 0
  {
    var m := MatcherOf(DelayTag, path);
    forall q | 0 <= q < |path| ensures m(q).None? {
      assert ParseAt(DelayTag, path, q).None?;
    }
  }

  /** A non-zero delay is the value of a delay tag that stands in the path. */
  lemma DelayOfSound(path: string)
    ensures DelayOf(path) != 0 ==>
      exists i: nat, t: Token :: t.Delay? && WellFormed(t) && TextAt(path, i, Render(t)) &&
        DelayOf(path) == SignedValue(t.negative, t.digits)
  {
    match FindFirst(MatcherOf(DelayTag, path), |path|, 0)
    case Some(f) => MatcherReports(DelayTag, path, f);
    case None =>
  }

  /** `track DELAY -24ms.aac` is 24 milliseconds early. */
  lemma DelayOfExample()
    ensures DelayOf("track DELAY -24ms.aac") == -24
  {
    var path := "track DELAY -24ms.aac";
    var t := Delay(true, "24");
    assert Render(t) == "DELAY -24ms";
    forall q | 0 <= q < 6 ensures ParseAt(DelayTag, path, q).None? {
      assert path[q + 0] != "DELAY "[0];
    }
    DelayOfFirst(path, 6, t);
    assert "24"[..1] == "2" && "2"[..0] == "";
    assert Numeral("24") == 24;
  }
}
