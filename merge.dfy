/**
 * The argument list of the final `mkvmerge` call, which appends the kept pieces: the
 * first file is given as it is and each later one with a `+` in front, which makes
 * mkvmerge append it to the previous one instead of adding it as a new track.
 */
module Merge {

  /** The append arguments for `files`, in their order. */
  function MergeArgs(files: seq<string>): (args: seq<string>)
    ensures |args| == |files|
    ensures forall i :: 0 < i < |args| ==> |args[i]| > 0 && args[i][0] == '+'
  {
    seq(|files|, i requires 0 <= i < |files| => if i == 0 then files[i] else "+" + files[i])
  }

  /** The files an append argument list names: the `+` of every later argument dropped. */
  function MergeInputs(args: seq<string>): (files: seq<string>)
    ensures |files| == |args|
  {
    seq(|args|, i requires 0 <= i < |args| =>
      if i > 0 && |args[i]| > 0 && args[i][0] == '+' then args[i][1..] else args[i])
  }

  /** The arguments name exactly the kept files, in order. */
  lemma MergeRoundTrip(files: seq<string>)
    ensures MergeInputs(MergeArgs(files)) == files
  {
    var args := MergeArgs(files);
    forall i | 0 <= i < |files| ensures MergeInputs(args)[i] == files[i] {
      if i > 0 {
        assert args[i] == "+" + files[i];
        assert args[i][1..] == files[i];
      }
    }
  }

  /** Different file lists give different argument lists. */
  lemma MergeArgsInjective(files: seq<string>, others: seq<string>)
    requires MergeArgs(files) == MergeArgs(others)
    ensures files == others
  {
    MergeRoundTrip(files);
    MergeRoundTrip(others);
  }
}
