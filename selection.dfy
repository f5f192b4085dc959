/**
 * Which of the split pieces are put back together.
 *
 * Splitting the audio at N cut points gives N + 1 pieces, numbered from 1. The cut
 * points come in START/END pairs, so the kept pieces alternate. When the first cut
 * point is the very beginning of the audio (`use_first`), the kept pieces are
 * 1, 3, 5, ...; otherwise piece 1, before the first START, is dropped and the kept
 * pieces are 2, 4, 6, .... Piece i + 1 is kept for the cut point of index i with the
 * right parity, so the piece after the last cut point is never kept.
 */
module Selection {
  import opened Numerals

  /** The timecode of the very beginning of the audio. */
  const Zero := "00:00:00.000"

  /** Whether the first piece is kept: the first cut point is the beginning of the audio. */
  predicate UseFirst(cutTimes: seq<string>) {
    |cutTimes| > 0 && cutTimes[0] == Zero
  }

  /** Whether the piece after the cut point of index `i` is kept. */
  predicate Kept(i: nat, useFirst: bool) {
    if useFirst then i % 2 == 0 else i % 2 == 1
  }

  /** The numbers of the kept pieces among those after the first `n` cut points, in order. */
  function KeptPieces(n: nat, useFirst: bool): seq<nat> {
    if n == 0 then []
    else KeptPieces(n - 1, useFirst) + (if Kept(n - 1, useFirst) then [n] else [])
  }

  /** The file `mkvmerge --split` writes piece `n` to, beside the output `stem`. */
  function PieceFile(stem: string, n: nat): string {
    stem + ".split-" + Pad3(n) + ".mka"
  }

  /** The files of the given pieces. */
  function PieceFiles(stem: string, pieces: seq<nat>): (files: seq<string>)
    ensures |files| == |pieces|
  {
    if pieces == [] then []
    else PieceFiles(stem, pieces[..|pieces| - 1]) + [PieceFile(stem, pieces[|pieces| - 1])]
  }

  /**
   * The selection loop of `split_audio`: walks the cut points, sets `useFirst` at the
   * first one when it is the beginning of the audio, and collects the file of piece
   * i + 1 for each index i of the right parity.
   */
  method SelectPieces(cutTimes: seq<string>, stem: string) returns (files: seq<string>, useFirst: bool)
    ensures useFirst == UseFirst(cutTimes)
    ensures files == PieceFiles(stem, KeptPieces(|cutTimes|, useFirst))
  {
    files := [];
    useFirst := false;
    for i := 0 to |cutTimes|
      invariant i > 0 ==> useFirst == UseFirst(cutTimes)
      invariant i == 0 ==> !useFirst
      invariant files == PieceFiles(stem, KeptPieces(i, useFirst))
    {
      // The loop's early exit on `i == cut_times.len()` cannot be taken inside the loop.
      assert !(i == |cutTimes| && useFirst);
      if i == 0 && cutTimes[i] == Zero {
        useFirst := true;
      }
      ghost var kept := KeptPieces(i, useFirst);
      assert files == PieceFiles(stem, kept);
      if (useFirst && i % 2 == 0) || (!useFirst && i % 2 == 1) {
        PieceFilesSnoc(stem, kept, i + 1);
        files := files + [PieceFile(stem, i + 1)];
        assert KeptPieces(i + 1, useFirst) == kept + [i + 1];
      } else {
        assert KeptPieces(i + 1, useFirst) == kept + [];
        assert kept + [] == kept;
      }
    }
  }

  lemma PieceFilesSnoc(stem: string, pieces: seq<nat>, n: nat)
    ensures PieceFiles(stem, pieces + [n]) == PieceFiles(stem, pieces) + [PieceFile(stem, n)]
  {
    assert (pieces + [n])[..|pieces|] == pieces;
  }

  /**
   * The kept pieces in closed form: 1, 3, 5, ... with `useFirst`, 2, 4, 6, ... without,
   * one per cut point of the right parity.
   */
  lemma {:induction false} KeptPiecesClosedForm(n: nat, useFirst: bool)
    ensures |KeptPieces(n, useFirst)| == if useFirst then (n + 1) / 2 else n / 2
    ensures forall k :: 0 <= k < |KeptPieces(n, useFirst)| ==>
      KeptPieces(n, useFirst)[k] == 2 * k + (if useFirst then 1 else 2)
  {
    if n > 0 {
      KeptPiecesClosedForm(n - 1, useFirst);
    }
  }

  /**
   * Piece j is kept exactly when it follows a cut point (1 <= j <= n) whose index j - 1
   * has the right parity; in particular piece n + 1, after the last cut point, never is.
   */
  lemma KeptPiecesMembers(n: nat, useFirst: bool, j: nat)
    ensures j in KeptPieces(n, useFirst) <==> 1 <= j <= n && Kept(j - 1, useFirst)
  {
    var ps := KeptPieces(n, useFirst);
    KeptPiecesClosedForm(n, useFirst);
    if 1 <= j <= n && Kept(j - 1, useFirst) {
      var k := if useFirst then (j - 1) / 2 else (j - 2) / 2;
      assert ps[k] == j;
    }
  }

  /** The kept pieces are in increasing order. */
  lemma KeptPiecesAscending(n: nat, useFirst: bool, j: nat, k: nat)
    requires j < k < |KeptPieces(n, useFirst)|
    ensures KeptPieces(n, useFirst)[j] < KeptPieces(n, useFirst)[k]
  {
    KeptPiecesClosedForm(n, useFirst);
  }

  /**
   * Two cut points starting at the beginning keep piece 1 only, of pieces 1 to 3; two
   * elsewhere keep piece 2 only. A single cut point elsewhere keeps nothing: piece 2
   * follows the last cut point.
   */
  lemma KeptPiecesExamples()
    ensures KeptPieces(2, UseFirst([Zero, "00:00:05.000"])) == [1]
    ensures KeptPieces(2, UseFirst(["00:00:02.500", "00:00:05.000"])) == [2]
    ensures KeptPieces(1, UseFirst(["00:00:02.500"])) == []
  {
    assert UseFirst([Zero, "00:00:05.000"]);
    assert KeptPieces(1, true) == [1];
    assert "00:00:02.500"[7] != Zero[7];
    assert !UseFirst(["00:00:02.500", "00:00:05.000"]);
    assert !UseFirst(["00:00:02.500"]);
    assert KeptPieces(1, false) == [];
    assert KeptPieces(2, false) == [] + [2];
  }

  /** An even number of cut points keeps half of them as pieces, whichever the parity. */
  lemma KeptPiecesOfPairs(pairs: nat, useFirst: bool)
    ensures |KeptPieces(2 * pairs, useFirst)| == pairs
  {
    KeptPiecesClosedForm(2 * pairs, useFirst);
  }

  /** Different pieces are written to different files. */
  lemma PieceFileInjective(stem: string, a: nat, b: nat)
    requires PieceFile(stem, a) == PieceFile(stem, b)
    ensures a == b
  {
    var fa := PieceFile(stem, a);
    var fb := PieceFile(stem, b);
    assert |Pad3(a)| == |fa| - |stem| - 11;
    assert |Pad3(a)| == |Pad3(b)|;
    assert Pad3(a) == fa[|stem| + 7..|fa| - 4];
    assert Pad3(b) == fb[|stem| + 7..|fb| - 4];
  }

  /** The files of pieces: the k-th is the file of the k-th piece. */
  lemma {:induction false} PieceFilesAt(stem: string, pieces: seq<nat>, k: nat)
    requires k < |pieces|
    ensures PieceFiles(stem, pieces)[k] == PieceFile(stem, pieces[k])
    decreases |pieces|
  {
    if k < |pieces| - 1 {
      PieceFilesAt(stem, pieces[..|pieces| - 1], k);
    }
  }
}
