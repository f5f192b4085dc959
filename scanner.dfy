/**
 * Leftmost-first searching, as the regex crate does it, over any matcher.
 *
 * A matcher says, for each position of a text of length `n`, which match starts there
 * (its end and what it matched), if any. `FindFirst` is `Regex::captures`: the match
 * with the leftmost start. `Scan` is `Regex::captures_iter`: the leftmost match, then the
 * leftmost match that starts at or after its end, and so on, so matches never overlap.
 * `IsMatchSequence` states that behaviour declaratively, and `ScanUnique` shows it has
 * exactly one solution.
 */
module Scanner {
  import opened Wrappers

  /** A match that starts at a known position: where it ends and what it matched. */
  datatype Match<T> = Match(end: nat, token: T)

  /** For each position, the match that starts there, if any. */
  type Matcher<T> = nat -> Option<Match<T>>

  /** Every match of `m` is non-empty text inside a text of length `n`. */
  ghost predicate Fits<T>(m: Matcher<T>, n: nat) {
    forall q: nat :: m(q).Some? ==> q < m(q).value.end <= n
  }

  /** A match found by a search: where it starts, where it ends, and what it matched. */
  datatype Found<T> = Found(at: nat, end: nat, token: T)

  /** `m` reports `f` at its position. */
  ghost predicate Reports<T>(m: Matcher<T>, f: Found<T>) {
    m(f.at) == Some(Match(f.end, f.token))
  }

  /** The leftmost match that starts at or after `i`. */
  function FindFirst<T>(m: Matcher<T>, n: nat, i: nat): (r: Option<Found<T>>)
    requires i <= n
    ensures r.Some? ==> i <= r.value.at < n && Reports(m, r.value)
    ensures r.Some? ==> forall q :: i <= q < r.value.at ==> m(q).None?
    ensures r.None? ==> forall q :: i <= q < n ==> m(q).None?
    decreases n - i
  {
    if i == n then None
    else
      match m(i)
      case Some(hit) => Some(Found(i, hit.end, hit.token))
      case None => FindFirst(m, n, i + 1)
  }

  /** The leftmost match is determined by where the first match is. */
  lemma {:induction false} FindFirstIs<T>(m: Matcher<T>, n: nat, i: nat, f: Found<T>)
    requires i <= f.at < n && Reports(m, f)
    requires forall q :: i <= q < f.at ==> m(q).None?
    ensures FindFirst(m, n, i) == Some(f)
    decreases f.at - i
  {
    if i < f.at {
      FindFirstIs(m, n, i + 1, f);
    }
  }

  /** Position `q` lies inside none of the matches. */
  predicate Uncovered<T>(ms: seq<Found<T>>, q: nat) {
    forall k :: 0 <= k < |ms| ==> !(ms[k].at <= q < ms[k].end)
  }

  /**
   * The matches `captures_iter` reports from `i` on: each is a real match, they are in
   * text order without overlapping, and no match starts at a position outside them.
   */
  ghost predicate IsMatchSequence<T>(m: Matcher<T>, n: nat, i: nat, ms: seq<Found<T>>) {
    AllReported(m, i, ms) && InOrder(ms) && NoneMissed(m, n, i, ms)
  }

  /** Each element is a match of `m` that starts at or after `i`. */
  ghost predicate AllReported<T>(m: Matcher<T>, i: nat, ms: seq<Found<T>>) {
    forall k :: 0 <= k < |ms| ==> i <= ms[k].at && Reports(m, ms[k])
  }

  /** Each element starts no earlier than the previous one ends. */
  predicate InOrder<T>(ms: seq<Found<T>>) {
    forall k :: 0 <= k < |ms| - 1 ==> ms[k].end <= ms[k + 1].at
  }

  /** No match of `m` starts at or after `i` outside the elements. */
  ghost predicate NoneMissed<T>(m: Matcher<T>, n: nat, i: nat, ms: seq<Found<T>>) {
    forall q :: i <= q < n && Uncovered(ms, q) ==> m(q).None?
  }

  /** All non-overlapping matches from `i` on, leftmost first. */
  function Scan<T>(m: Matcher<T>, n: nat, i: nat): (ms: seq<Found<T>>)
    requires Fits(m, n) && i <= n
    ensures forall k :: 0 <= k < |ms| ==> i <= ms[k].at && Reports(m, ms[k])
    decreases n - i
  {
    match FindFirst(m, n, i)
    case None => []
    case Some(f) => [f] + Scan(m, n, f.end)
  }

  /** The leftmost match followed by a match sequence from its end is a match sequence. */
  lemma MatchSequenceCons<T>(m: Matcher<T>, n: nat, i: nat, f: Found<T>, rest: seq<Found<T>>)
    requires Fits(m, n) && i <= n && FindFirst(m, n, i) == Some(f)
    requires IsMatchSequence(m, n, f.end, rest)
    ensures IsMatchSequence(m, n, i, [f] + rest)
  {
    assert f.end <= n;
    ConsReported(m, i, f, rest);
    ConsInOrder(f, rest);
    ConsLeavesNoGap(m, n, i, f, rest);
  }

  lemma ConsReported<T>(m: Matcher<T>, i: nat, f: Found<T>, rest: seq<Found<T>>)
    requires i <= f.at < f.end && Reports(m, f) && AllReported(m, f.end, rest)
    ensures AllReported(m, i, [f] + rest)
  {
    var ms := [f] + rest;
    forall k | 0 <= k < |ms| ensures i <= ms[k].at && Reports(m, ms[k]) {
      if k > 0 { assert ms[k] == rest[k - 1]; }
    }
  }

  lemma ConsInOrder<T>(f: Found<T>, rest: seq<Found<T>>)
    requires InOrder(rest) && forall k :: 0 <= k < |rest| ==> f.end <= rest[k].at
    ensures InOrder([f] + rest)
  {
    var ms := [f] + rest;
    forall k | 0 <= k < |ms| - 1 ensures ms[k].end <= ms[k + 1].at {
      assert ms[k + 1] == rest[k];
      if k > 0 { assert ms[k] == rest[k - 1]; }
    }
  }

  lemma ConsLeavesNoGap<T>(m: Matcher<T>, n: nat, i: nat, f: Found<T>, rest: seq<Found<T>>)
    requires i <= f.at && (forall q :: i <= q < f.at ==> m(q).None?)
    requires NoneMissed(m, n, f.end, rest)
    ensures NoneMissed(m, n, i, [f] + rest)
  {
    var ms := [f] + rest;
    forall q | i <= q < n && Uncovered(ms, q) ensures m(q).None? {
      assert !(ms[0].at <= q < ms[0].end);
      if q >= f.end {
        forall k | 0 <= k < |rest| ensures !(rest[k].at <= q < rest[k].end) {
          assert ms[k + 1] == rest[k];
        }
      }
    }
  }

  /** `Scan` behaves as `captures_iter` does. */
  lemma {:induction false} ScanIsMatchSequence<T>(m: Matcher<T>, n: nat, i: nat)
    requires Fits(m, n) && i <= n
    ensures IsMatchSequence(m, n, i, Scan(m, n, i))
    decreases n - i
  {
    match FindFirst(m, n, i)
    case None =>
    case Some(f) =>
      ScanIsMatchSequence(m, n, f.end);
      MatchSequenceCons(m, n, i, f, Scan(m, n, f.end));
  }

  /** Matches in a match sequence start no earlier than the end of any earlier match. */
  lemma {:induction false} MatchSequenceOrdered<T>(m: Matcher<T>, n: nat, i: nat, ms: seq<Found<T>>, j: nat, k: nat)
    requires Fits(m, n) && IsMatchSequence(m, n, i, ms)
    requires j < k < |ms|
    ensures ms[j].end <= ms[k].at
    decreases k - j
  {
    if j + 1 < k {
      MatchSequenceOrdered(m, n, i, ms, j + 1, k);
      assert Reports(m, ms[j + 1]);
    }
  }

  /** The first element of a match sequence is the leftmost match. */
  lemma MatchSequenceHead<T>(m: Matcher<T>, n: nat, i: nat, ms: seq<Found<T>>)
    requires Fits(m, n) && i <= n && IsMatchSequence(m, n, i, ms) && ms != []
    ensures FindFirst(m, n, i) == Some(ms[0])
  {
    var f := ms[0];
    assert Reports(m, f);
    forall q | i <= q < f.at ensures m(q).None? {
      forall k | 0 <= k < |ms| ensures !(ms[k].at <= q < ms[k].end) {
        if k > 0 { MatchSequenceOrdered(m, n, i, ms, 0, k); }
      }
    }
    FindFirstIs(m, n, i, f);
  }

  /** What follows the first match of a match sequence is a match sequence from its end. */
  lemma MatchSequenceTail<T>(m: Matcher<T>, n: nat, i: nat, ms: seq<Found<T>>)
    requires Fits(m, n) && i <= n && IsMatchSequence(m, n, i, ms) && ms != []
    ensures ms[0].end <= n && IsMatchSequence(m, n, ms[0].end, ms[1..])
  {
    assert Reports(m, ms[0]);
    TailReported(m, n, i, ms);
    TailInOrder(ms);
    TailLeavesNoGap(m, n, i, ms);
  }

  lemma TailReported<T>(m: Matcher<T>, n: nat, i: nat, ms: seq<Found<T>>)
    requires Fits(m, n) && IsMatchSequence(m, n, i, ms) && ms != []
    ensures AllReported(m, ms[0].end, ms[1..])
  {
    var rest := ms[1..];
    forall k | 0 <= k < |rest| ensures ms[0].end <= rest[k].at && Reports(m, rest[k]) {
      assert rest[k] == ms[k + 1];
      MatchSequenceOrdered(m, n, i, ms, 0, k + 1);
    }
  }

  lemma TailInOrder<T>(ms: seq<Found<T>>)
    requires InOrder(ms) && ms != []
    ensures InOrder(ms[1..])
  {
    var rest := ms[1..];
    forall k | 0 <= k < |rest| - 1 ensures rest[k].end <= rest[k + 1].at {
      assert rest[k] == ms[k + 1] && rest[k + 1] == ms[k + 2];
    }
  }

  lemma TailLeavesNoGap<T>(m: Matcher<T>, n: nat, i: nat, ms: seq<Found<T>>)
    requires Fits(m, n) && IsMatchSequence(m, n, i, ms) && ms != []
    ensures NoneMissed(m, n, ms[0].end, ms[1..])
  {
    var rest := ms[1..];
    assert Reports(m, ms[0]);
    forall q | ms[0].end <= q < n && Uncovered(rest, q) ensures m(q).None? {
      forall k | 0 <= k < |ms| ensures !(ms[k].at <= q < ms[k].end) {
        if k > 0 { assert ms[k] == rest[k - 1]; }
      }
    }
  }

  /** `Scan` is the only sequence of matches with the behaviour of `captures_iter`. */
  lemma {:induction false} ScanUnique<T>(m: Matcher<T>, n: nat, i: nat, ms: seq<Found<T>>)
    requires Fits(m, n) && i <= n
    ensures IsMatchSequence(m, n, i, ms) <==> ms == Scan(m, n, i)
    decreases n - i
  {
    ScanIsMatchSequence(m, n, i);
    if IsMatchSequence(m, n, i, ms) {
      if ms == [] {
        assert forall q :: i <= q < n ==> Uncovered(ms, q);
      } else {
        MatchSequenceHead(m, n, i, ms);
        MatchSequenceTail(m, n, i, ms);
        ScanUnique(m, n, ms[0].end, ms[1..]);
        assert ms == [ms[0]] + ms[1..];
      }
    }
  }
}
