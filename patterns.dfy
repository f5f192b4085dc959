/**
 * The three regular expressions of split_aud as hand-written matchers.
 *
 *   trim call   `[tT]rim\((?:\w+, ?)?(\d+), ?(\d+)\)`
 *   clip slice  `clip\[(\d+): ?(-?\d+)\]`
 *   delay tag   `DELAY (-?\d+)ms`
 *
 * Each one resolves without real choice: `\w+` and `\d+` are always followed by a
 * character outside their class, so they take the longest run, and an optional
 * ` ` or `-` must be followed by a digit, so whether it is taken is forced. A match
 * is therefore described by a `Token`, the text it matches is `Render(token)`, and
 * `ParseAt` returns the one token whose text starts at a position, if any
 * (soundness in `ParseAtSound`, completeness in `ParseAtComplete`).
 */
module Patterns {
  import opened Wrappers
  import opened Numerals
  import opened Scanner

  datatype Pattern = TrimCall | ClipSlice | DelayTag

  /** The optional `\w+, ?` argument of a trim call, usually the clip name. */
  datatype Ident = Ident(word: string, gap: bool)

  /** The `(\d+), ?(\d+)\)` tail of a trim call. */
  datatype Bounds = Bounds(first: string, gap: bool, second: string)

  datatype Token =
    | Trim(lead: char, ident: Option<Ident>, bounds: Bounds)
    | Slice(start: string, gap: bool, negative: bool, end: string)
    | Delay(negative: bool, digits: string)
  {
    function PatternOf(): Pattern {
      match this
      case Trim(_, _, _) => TrimCall
      case Slice(_, _, _, _) => ClipSlice
      case Delay(_, _) => DelayTag
    }
  }

  function Space(gap: bool): string { if gap then " " else "" }

  function Minus(negative: bool): string { if negative then "-" else "" }

  /** A separator and the optional space after it: `, ?` or `: ?`. */
  function Sep(c: char, gap: bool): string { [c] + Space(gap) }

  predicate IdentWellFormed(id: Ident) {
    |id.word| > 0 && AllIn(id.word, Word)
  }

  predicate BoundsWellFormed(b: Bounds) {
    IsDigits(b.first) && IsDigits(b.second)
  }

  /** The tokens the regular expressions can produce. */
  predicate WellFormed(t: Token) {
    match t
    case Trim(lead, ident, bounds) =>
      (lead == 't' || lead == 'T') &&
      (ident.Some? ==> IdentWellFormed(ident.value)) &&
      BoundsWellFormed(bounds)
    case Slice(start, _, _, end) => IsDigits(start) && IsDigits(end)
    case Delay(_, digits) => IsDigits(digits)
  }

  function RenderIdent(id: Ident): string {
    id.word + Sep(',', id.gap)
  }

  function RenderIdentOpt(ident: Option<Ident>): string {
    if ident.Some? then RenderIdent(ident.value) else ""
  }

  function RenderBounds(b: Bounds): string {
    b.first + (Sep(',', b.gap) + (b.second + ")"))
  }

  /** The text of a trim call after `rim(`. */
  function TrimArgs(ident: Option<Ident>, bounds: Bounds): string {
    RenderIdentOpt(ident) + RenderBounds(bounds)
  }

  /** The text of a slice after `clip[`. */
  function SliceArgs(t: Token): string
    requires t.Slice?
  {
    t.start + (Sep(':', t.gap) + (Minus(t.negative) + (t.end + "]")))
  }

  /** The text of a delay tag after `DELAY `. */
  function DelayArgs(negative: bool, digits: string): string {
    Minus(negative) + (digits + "ms")
  }

  /** The text a token stands for. */
  function Render(t: Token): (r: string)
    ensures |r| > 0
  {
    match t
    case Trim(lead, ident, bounds) => [lead] + ("rim(" + TrimArgs(ident, bounds))
    case Slice(_, _, _, _) => "clip[" + SliceArgs(t)
    case Delay(negative, digits) => "DELAY " + DelayArgs(negative, digits)
  }

  /** `w` occurs in `s` at position `i`. */
  predicate TextAt(s: string, i: nat, w: string) {
    i + |w| <= |s| && forall k :: 0 <= k < |w| ==> s[i + k] == w[k]
  }

  lemma TextAtConcat(s: string, i: nat, a: string, b: string)
    requires TextAt(s, i, a) && TextAt(s, i + |a|, b)
    ensures TextAt(s, i, a + b)
  {
    forall k | 0 <= k < |a + b| ensures s[i + k] == (a + b)[k] {
      if k >= |a| {
        assert s[i + |a| + (k - |a|)] == b[k - |a|];
      }
    }
  }

  lemma TextAtSplit(s: string, i: nat, a: string, b: string)
    requires TextAt(s, i, a + b)
    ensures TextAt(s, i, a) && TextAt(s, i + |a|, b)
  {
    forall k | 0 <= k < |a| ensures s[i + k] == a[k] {
      assert s[i + k] == (a + b)[k];
    }
    forall k | 0 <= k < |b| ensures s[i + |a| + k] == b[k] {
      assert s[i + (|a| + k)] == (a + b)[|a| + k];
    }
  }

  /** Skips one optional character `c` at `p`, taking it when it is there. */
  function Optional(s: string, p: nat, c: char): (q: nat)
    requires p <= |s|
    ensures q == p || (q == p + 1 && p < |s| && s[p] == c)
  {
    if p < |s| && s[p] == c then p + 1 else p
  }

  /** Matches `\w+, ?` at `p`. */
  function ParseIdent(s: string, p: nat): (r: Option<Ident>)
    requires p <= |s|
    ensures r.Some? ==> p + |RenderIdent(r.value)| <= |s|
  {
    var w := RunEnd(s, p, Word);
    if w == p || w == |s| || s[w] != ',' then None
    else Some(Ident(s[p..w], Optional(s, w + 1, ' ') == w + 2))
  }

  /** Matches `(\d+), ?(\d+)\)` at `p`. */
  function ParseBounds(s: string, p: nat): Option<Bounds>
    requires p <= |s|
  {
    var a := RunEnd(s, p, Digit);
    if a == p || a == |s| || s[a] != ',' then None
    else
      var q := Optional(s, a + 1, ' ');
      var b := RunEnd(s, q, Digit);
      if b == q || b == |s| || s[b] != ')' then None
      else Some(Bounds(s[p..a], q == a + 2, s[q..b]))
  }

  /** Matches `\w+, ?(\d+), ?(\d+)\)` at `p`: the trim arguments with an identifier. */
  function ParseWithIdent(s: string, p: nat): Option<(Option<Ident>, Bounds)>
    requires p <= |s|
  {
    match ParseIdent(s, p)
    case Some(id) => (
      match ParseBounds(s, p + |RenderIdent(id)|)
      case Some(bounds) => Some((Some(id), bounds))
      case None => None)
    case None => None
  }

  /** Matches `(?:\w+, ?)?(\d+), ?(\d+)\)` at `p`, trying the optional identifier first. */
  function ParseTrimArgs(s: string, p: nat): Option<(Option<Ident>, Bounds)>
    requires p <= |s|
  {
    var withIdent := ParseWithIdent(s, p);
    if withIdent.Some? then withIdent
    else
      match ParseBounds(s, p)
      case Some(bounds) => Some((None, bounds))
      case None => None
  }

  /** Matches the trim-call pattern at `i`. */
  function ParseTrim(s: string, i: nat): Option<Token>
    requires i <= |s|
  {
    if i < |s| && (s[i] == 't' || s[i] == 'T') && TextAt(s, i + 1, "rim(") then
      match ParseTrimArgs(s, i + 5)
      case Some(args) => Some(Trim(s[i], args.0, args.1))
      case None => None
    else None
  }

  /** Matches `(\d+): ?(-?\d+)\]` at `p`. */
  function ParseSliceArgs(s: string, p: nat): Option<Token>
    requires p <= |s|
  {
    var a := RunEnd(s, p, Digit);
    if a == p || a == |s| || s[a] != ':' then None
    else
      var q := Optional(s, a + 1, ' ');
      var m := Optional(s, q, '-');
      var b := RunEnd(s, m, Digit);
      if b == m || b == |s| || s[b] != ']' then None
      else Some(Slice(s[p..a], q == a + 2, m == q + 1, s[m..b]))
  }

  /** Matches the clip-slice pattern at `i`. */
  function ParseSlice(s: string, i: nat): Option<Token>
    requires i <= |s|
  {
    if TextAt(s, i, "clip[") then ParseSliceArgs(s, i + 5) else None
  }

  /** Matches the delay-tag pattern at `i`. */
  function ParseDelay(s: string, i: nat): Option<Token>
    requires i <= |s|
  {
    if TextAt(s, i, "DELAY ") then
      var m := Optional(s, i + 6, '-');
      var b := RunEnd(s, m, Digit);
      if b == m || !TextAt(s, b, "ms") then None
      else Some(Delay(m == i + 7, s[m..b]))
    else None
  }

  /** The match of pattern `p` that starts at `i`, if there is one. */
  function ParseAt(p: Pattern, s: string, i: nat): Option<Token> {
    if i > |s| then None
    else
      match p
      case TrimCall => ParseTrim(s, i)
      case ClipSlice => ParseSlice(s, i)
      case DelayTag => ParseDelay(s, i)
  }

  // Soundness: what a matcher reports is a well-formed token whose text is there.

  /** The longest run of class `k` at `p` is text of that class standing at `p`. */
  lemma RunText(s: string, p: nat, k: CharClass)
    requires p <= |s|
    ensures var e := RunEnd(s, p, k); TextAt(s, p, s[p..e]) && AllIn(s[p..e], k)
  {
  }

  /** The separator `c` at `a`, with the space taken when the next position is `a + 2`. */
  lemma SepText(s: string, a: nat, c: char, q: nat)
    requires a < q <= a + 2 && q <= |s| && s[a] == c && (q == a + 2 ==> s[a + 1] == ' ')
    ensures TextAt(s, a, Sep(c, q == a + 2)) && a + |Sep(c, q == a + 2)| == q
  {
  }

  /** The optional minus sign at `q`, taken when the next position is `q + 1`. */
  lemma MinusText(s: string, q: nat, m: nat)
    requires q <= m <= q + 1 && m <= |s| && (m == q + 1 ==> s[q] == '-')
    ensures TextAt(s, q, Minus(m == q + 1)) && q + |Minus(m == q + 1)| == m
  {
  }

  lemma CharText(s: string, i: nat, w: string)
    requires |w| == 1 && i < |s| && s[i] == w[0]
    ensures TextAt(s, i, w)
  {
  }

  lemma IdentSound(s: string, p: nat)
    requires p <= |s|
    ensures var r := ParseIdent(s, p);
      r.Some? ==> IdentWellFormed(r.value) && TextAt(s, p, RenderIdent(r.value))
  {
    if ParseIdent(s, p).Some? {
      var w := RunEnd(s, p, Word);
      var q := Optional(s, w + 1, ' ');
      RunText(s, p, Word);
      SepText(s, w, ',', q);
      TextAtConcat(s, p, s[p..w], Sep(',', q == w + 2));
    }
  }

  lemma BoundsSound(s: string, p: nat)
    requires p <= |s|
    ensures var r := ParseBounds(s, p);
      r.Some? ==> BoundsWellFormed(r.value) && TextAt(s, p, RenderBounds(r.value))
  {
    if ParseBounds(s, p).Some? {
      var a := RunEnd(s, p, Digit);
      var q := Optional(s, a + 1, ' ');
      BoundsText(s, p, a, q, RunEnd(s, q, Digit));
    }
  }

  /** The text of the bounds found at these positions stands at `p`. */
  lemma BoundsText(s: string, p: nat, a: nat, q: nat, b: nat)
    requires p < a && a + 1 <= q <= a + 2 && q < b < |s|
    requires a == RunEnd(s, p, Digit) && b == RunEnd(s, q, Digit)
    requires s[a] == ',' && (q == a + 2 ==> s[a + 1] == ' ') && s[b] == ')'
    ensures var bounds := Bounds(s[p..a], q == a + 2, s[q..b]);
      BoundsWellFormed(bounds) && TextAt(s, p, RenderBounds(bounds))
  {
    RunText(s, p, Digit);
    RunText(s, q, Digit);
    CharText(s, b, ")");
    TextAtConcat(s, q, s[q..b], ")");
    SepText(s, a, ',', q);
    TextAtConcat(s, a, Sep(',', q == a + 2), s[q..b] + ")");
    TextAtConcat(s, p, s[p..a], Sep(',', q == a + 2) + (s[q..b] + ")"));
  }

  lemma WithIdentSound(s: string, p: nat)
    requires p <= |s|
    ensures var r := ParseWithIdent(s, p);
      r.Some? ==>
        r.value.0.Some? && IdentWellFormed(r.value.0.value) && BoundsWellFormed(r.value.1) &&
        TextAt(s, p, TrimArgs(r.value.0, r.value.1))
  {
    WithIdentParts(s, p);
    if ParseWithIdent(s, p).Some? {
      var id := ParseIdent(s, p).value;
      var q := p + |RenderIdent(id)|;
      IdentSound(s, p);
      BoundsSound(s, q);
      TextAtConcat(s, p, RenderIdent(id), RenderBounds(ParseBounds(s, q).value));
    }
  }

  /** What the attempt with an identifier is made of: the identifier, then the bounds. */
  lemma WithIdentParts(s: string, p: nat)
    requires p <= |s|
    ensures var r := ParseWithIdent(s, p);
      r.Some? ==>
        ParseIdent(s, p).Some? && r.value.0 == ParseIdent(s, p) &&
        ParseBounds(s, p + |RenderIdent(ParseIdent(s, p).value)|) == Some(r.value.1)
  {
  }

  lemma TrimArgsSound(s: string, p: nat)
    requires p <= |s|
    ensures var r := ParseTrimArgs(s, p);
      r.Some? ==>
        (r.value.0.Some? ==> IdentWellFormed(r.value.0.value)) && BoundsWellFormed(r.value.1) &&
        TextAt(s, p, TrimArgs(r.value.0, r.value.1))
  {
    if ParseWithIdent(s, p).Some? {
      WithIdentSound(s, p);
    } else if ParseBounds(s, p).Some? {
      BoundsSound(s, p);
      assert TrimArgs(None, ParseBounds(s, p).value) == RenderBounds(ParseBounds(s, p).value);
    }
  }

  lemma TrimSound(s: string, i: nat)
    requires i <= |s|
    ensures var r := ParseTrim(s, i);
      r.Some? ==> r.value.Trim? && WellFormed(r.value) && TextAt(s, i, Render(r.value))
  {
    if ParseTrim(s, i).Some? {
      TrimArgsSound(s, i + 5);
      var args := ParseTrimArgs(s, i + 5).value;
      CharText(s, i, [s[i]]);
      TextAtConcat(s, i + 1, "rim(", TrimArgs(args.0, args.1));
      TextAtConcat(s, i, [s[i]], "rim(" + TrimArgs(args.0, args.1));
    }
  }

  lemma SliceArgsSound(s: string, p: nat)
    requires p <= |s|
    ensures var r := ParseSliceArgs(s, p);
      r.Some? ==> r.value.Slice? && WellFormed(r.value) && TextAt(s, p, SliceArgs(r.value))
  {
    if ParseSliceArgs(s, p).Some? {
      var a := RunEnd(s, p, Digit);
      var q := Optional(s, a + 1, ' ');
      var m := Optional(s, q, '-');
      var b := RunEnd(s, m, Digit);
      SliceArgsText(s, p, a, q, m, b);
    }
  }

  /** The text of the slice found at these positions stands at `p`. */
  lemma SliceArgsText(s: string, p: nat, a: nat, q: nat, m: nat, b: nat)
    requires p < a && a + 1 <= q <= a + 2 && q <= m <= q + 1 && m < b < |s|
    requires a == RunEnd(s, p, Digit) && b == RunEnd(s, m, Digit)
    requires s[a] == ':' && (q == a + 2 ==> s[a + 1] == ' ') && (m == q + 1 ==> s[q] == '-') && s[b] == ']'
    ensures var t := Slice(s[p..a], q == a + 2, m == q + 1, s[m..b]);
      WellFormed(t) && TextAt(s, p, SliceArgs(t))
  {
    var tail := Minus(m == q + 1) + (s[m..b] + "]");
    SliceTailText(s, q, m, b);
    RunText(s, p, Digit);
    SepText(s, a, ':', q);
    TextAtConcat(s, a, Sep(':', q == a + 2), tail);
    TextAtConcat(s, p, s[p..a], Sep(':', q == a + 2) + tail);
  }

  /** The `-?\d+\]` part of a slice text. */
  lemma SliceTailText(s: string, q: nat, m: nat, b: nat)
    requires q <= m <= q + 1 && m < b < |s| && b == RunEnd(s, m, Digit)
    requires (m == q + 1 ==> s[q] == '-') && s[b] == ']'
    ensures IsDigits(s[m..b]) && TextAt(s, q, Minus(m == q + 1) + (s[m..b] + "]"))
  {
    RunText(s, m, Digit);
    CharText(s, b, "]");
    TextAtConcat(s, m, s[m..b], "]");
    MinusText(s, q, m);
    TextAtConcat(s, q, Minus(m == q + 1), s[m..b] + "]");
  }

  lemma SliceSound(s: string, i: nat)
    requires i <= |s|
    ensures var r := ParseSlice(s, i);
      r.Some? ==> r.value.Slice? && WellFormed(r.value) && TextAt(s, i, Render(r.value))
  {
    if ParseSlice(s, i).Some? {
      SliceArgsSound(s, i + 5);
      TextAtConcat(s, i, "clip[", SliceArgs(ParseSlice(s, i).value));
    }
  }

  lemma DelaySound(s: string, i: nat)
    requires i <= |s|
    ensures var r := ParseDelay(s, i);
      r.Some? ==> r.value.Delay? && WellFormed(r.value) && TextAt(s, i, Render(r.value))
  {
    if ParseDelay(s, i).Some? {
      var m := Optional(s, i + 6, '-');
      DelayText(s, i, m, RunEnd(s, m, Digit));
    }
  }

  /** The text of the delay tag found at these positions stands at `i`. */
  lemma DelayText(s: string, i: nat, m: nat, b: nat)
    requires i + 6 <= m <= i + 7 && m < b <= |s| && b == RunEnd(s, m, Digit)
    requires TextAt(s, i, "DELAY ") && (m == i + 7 ==> s[i + 6] == '-') && TextAt(s, b, "ms")
    ensures var t := Delay(m == i + 7, s[m..b]);
      WellFormed(t) && TextAt(s, i, Render(t))
  {
    RunText(s, m, Digit);
    TextAtConcat(s, m, s[m..b], "ms");
    MinusText(s, i + 6, m);
    TextAtConcat(s, i + 6, Minus(m == i + 7), s[m..b] + "ms");
    TextAtConcat(s, i, "DELAY ", DelayArgs(m == i + 7, s[m..b]));
  }

  /** A match `ParseAt` reports is a well-formed token of the pattern whose text stands at `i`. */
  lemma ParseAtSound(p: Pattern, s: string, i: nat)
    ensures var r := ParseAt(p, s, i);
      r.Some? ==> r.value.PatternOf() == p && WellFormed(r.value) && TextAt(s, i, Render(r.value))
  {
    if i <= |s| {
      match p
      case TrimCall => TrimSound(s, i);
      case ClipSlice => SliceSound(s, i);
      case DelayTag => DelaySound(s, i);
    }
  }

  /** The matcher of pattern `p` on text `s`, for leftmost-first searching. */
  function MatcherOf(p: Pattern, s: string): Matcher<Token> {
    (q: nat) =>
      match ParseAt(p, s, q)
      case Some(t) => Some(Match(q + |Render(t)|, t))
      case None => None
  }

  /** Every match the matcher reports is non-empty and lies within the text. */
  lemma MatcherFits(p: Pattern, s: string)
    ensures Fits(MatcherOf(p, s), |s|)
  {
    forall q: nat | MatcherOf(p, s)(q).Some?
      ensures q < MatcherOf(p, s)(q).value.end <= |s|
    {
      ParseAtSound(p, s, q);
    }
  }

  /** A match the matcher of `p` reports is a well-formed token whose text is there. */
  lemma MatcherReports(p: Pattern, s: string, f: Found<Token>)
    requires Reports(MatcherOf(p, s), f)
    ensures f.token.PatternOf() == p && WellFormed(f.token)
    ensures f.end == f.at + |Render(f.token)| && TextAt(s, f.at, Render(f.token))
  {
    ParseAtSound(p, s, f.at);
  }

  // Completeness: the matchers find every match, so each pattern resolves deterministically.

  lemma TextAtSlice(s: string, i: nat, w: string)
    requires TextAt(s, i, w)
    ensures s[i..i + |w|] == w
  {
  }

  lemma TextAtChar(s: string, i: nat, w: string, k: nat)
    requires TextAt(s, i, w) && k < |w|
    ensures s[i + k] == w[k]
  {
  }

  lemma {:induction false} RunEndOfText(s: string, i: nat, w: string, k: CharClass)
    requires TextAt(s, i, w) && AllIn(w, k)
    requires i + |w| < |s| && !InClass(s[i + |w|], k)
    ensures RunEnd(s, i, k) == i + |w|
  {
    forall p | i <= p < i + |w| ensures InClass(s[p], k) {
      TextAtChar(s, i, w, p - i);
    }
    RunEndAt(s, i, |w|, k);
  }

  /** A separator in the text, followed by something other than a space, is skipped whole. */
  lemma SepAt(s: string, a: nat, c: char, gap: bool)
    requires TextAt(s, a, Sep(c, gap))
    requires a + |Sep(c, gap)| < |s| && s[a + |Sep(c, gap)|] != ' '
    ensures s[a] == c && Optional(s, a + 1, ' ') == a + |Sep(c, gap)|
  {
    TextAtChar(s, a, Sep(c, gap), 0);
    if gap { TextAtChar(s, a, Sep(c, gap), 1); }
  }

  /** A minus sign in the text, followed by something other than `-`, is skipped whole. */
  lemma MinusAt(s: string, q: nat, negative: bool)
    requires TextAt(s, q, Minus(negative))
    requires q + |Minus(negative)| < |s| && s[q + |Minus(negative)|] != '-'
    ensures Optional(s, q, '-') == q + |Minus(negative)|
  {
    if negative { TextAtChar(s, q, Minus(negative), 0); }
  }

  /** A numeral in the text, followed by a non-digit, is the longest run of digits there. */
  lemma NumeralAt(s: string, p: nat, w: string)
    requires IsDigits(w) && TextAt(s, p, w) && p + |w| < |s| && !InClass(s[p + |w|], Digit)
    ensures RunEnd(s, p, Digit) == p + |w| && s[p..p + |w|] == w
  {
    RunEndOfText(s, p, w, Digit);
    TextAtSlice(s, p, w);
  }

  /** The pieces of a bounds text: the first numeral, `, ?`, the second numeral, `)`. */
  lemma BoundsPieces(s: string, p: nat, b: Bounds)
    requires BoundsWellFormed(b) && TextAt(s, p, RenderBounds(b))
    ensures var a := p + |b.first|; var q := a + |Sep(',', b.gap)|;
      TextAt(s, p, b.first) && TextAt(s, a, Sep(',', b.gap)) &&
      TextAt(s, q, b.second) && q < |s| && s[q] == b.second[0] &&
      q + |b.second| < |s| && s[q + |b.second|] == ')'
  {
    var a := p + |b.first|;
    var q := a + |Sep(',', b.gap)|;
    TextAtSplit(s, p, b.first, Sep(',', b.gap) + (b.second + ")"));
    TextAtSplit(s, a, Sep(',', b.gap), b.second + ")");
    TextAtSplit(s, q, b.second, ")");
    TextAtChar(s, q + |b.second|, ")", 0);
    TextAtChar(s, q, b.second, 0);
  }

  lemma BoundsComplete(s: string, p: nat, b: Bounds)
    requires BoundsWellFormed(b) && TextAt(s, p, RenderBounds(b))
    ensures ParseBounds(s, p) == Some(b)
  {
    BoundsPieces(s, p, b);
    BoundsPositions(s, p, b);
    var a := p + |b.first|;
    var q := a + |Sep(',', b.gap)|;
    BoundsAt(s, p, a, q, q + |b.second|);
  }

  /** Where the pieces of a bounds text lie, as the matcher finds them. */
  lemma BoundsPositions(s: string, p: nat, b: Bounds)
    requires BoundsWellFormed(b)
    requires var a := p + |b.first|; var q := a + |Sep(',', b.gap)|;
      TextAt(s, p, b.first) && TextAt(s, a, Sep(',', b.gap)) &&
      TextAt(s, q, b.second) && q < |s| && s[q] == b.second[0] &&
      q + |b.second| < |s| && s[q + |b.second|] == ')'
    ensures var a := p + |b.first|; var q := a + |Sep(',', b.gap)|; var e := q + |b.second|;
      p < a && a + 1 <= q <= a + 2 && q < e < |s| &&
      RunEnd(s, p, Digit) == a && s[a] == ',' && Optional(s, a + 1, ' ') == q &&
      RunEnd(s, q, Digit) == e && s[e] == ')' &&
      s[p..a] == b.first && (q == a + 2) == b.gap && s[q..e] == b.second
  {
    var a := p + |b.first|;
    SepAt(s, a, ',', b.gap);
    NumeralAt(s, p, b.first);
    NumeralAt(s, a + |Sep(',', b.gap)|, b.second);
  }

  /** The bounds' parse from the positions of their pieces and the characters around them. */
  lemma BoundsAt(s: string, p: nat, a: nat, q: nat, e: nat)
    requires p < a && a + 1 <= q <= a + 2 && q < e < |s|
    requires RunEnd(s, p, Digit) == a && s[a] == ',' && Optional(s, a + 1, ' ') == q
    requires RunEnd(s, q, Digit) == e && s[e] == ')'
    ensures ParseBounds(s, p) == Some(Bounds(s[p..a], q == a + 2, s[q..e]))
  {
  }

  lemma IdentComplete(s: string, p: nat, id: Ident)
    requires IdentWellFormed(id) && TextAt(s, p, RenderIdent(id))
    requires p + |RenderIdent(id)| < |s| && s[p + |RenderIdent(id)|] != ' '
    ensures ParseIdent(s, p) == Some(id)
  {
    var w := p + |id.word|;
    TextAtSplit(s, p, id.word, Sep(',', id.gap));
    SepAt(s, w, ',', id.gap);
    RunEndOfText(s, p, id.word, Word);
    TextAtSlice(s, p, id.word);
  }

  /**
   * Without an identifier, `\w+, ?` still matches the first bound, but what follows it
   * then ends in `)` where a second `,` is needed, so the attempt with an identifier fails.
   */
  lemma IdentAttemptFails(s: string, p: nat, bounds: Bounds)
    requires BoundsWellFormed(bounds) && TextAt(s, p, RenderBounds(bounds))
    ensures ParseWithIdent(s, p) == None
  {
    BoundsPieces(s, p, bounds);
    var fake := Ident(bounds.first, bounds.gap);
    var r := p + |RenderIdent(fake)|;
    TextAtConcat(s, p, bounds.first, Sep(',', bounds.gap));
    IdentComplete(s, p, fake);
    RunEndOfText(s, r, bounds.second, Digit);
    BoundsFailAt(s, r, r + |bounds.second|);
    WithIdentFailsAt(s, p, fake);
  }

  /** The attempt with an identifier fails when the bounds after the identifier do. */
  lemma WithIdentFailsAt(s: string, p: nat, id: Ident)
    requires p <= |s| && ParseIdent(s, p) == Some(id)
    requires ParseBounds(s, p + |RenderIdent(id)|) == None
    ensures ParseWithIdent(s, p) == None
  {
  }

  /** A digit run ending in `)` is not the start of `(\d+), ?(\d+)\)`. */
  lemma BoundsFailAt(s: string, r: nat, e: nat)
    requires r <= e < |s| && RunEnd(s, r, Digit) == e && s[e] == ')'
    ensures ParseBounds(s, r) == None
  {
  }

  /** The trim arguments with an identifier. */
  lemma TrimArgsWithIdent(s: string, p: nat, id: Ident, bounds: Bounds)
    requires IdentWellFormed(id) && BoundsWellFormed(bounds)
    requires TextAt(s, p, RenderIdent(id) + RenderBounds(bounds))
    ensures ParseTrimArgs(s, p) == Some((Some(id), bounds))
  {
    TextAtSplit(s, p, RenderIdent(id), RenderBounds(bounds));
    var q := p + |RenderIdent(id)|;
    BoundsPieces(s, q, bounds);
    TextAtChar(s, q, bounds.first, 0);
    IdentComplete(s, p, id);
    BoundsComplete(s, q, bounds);
  }

  /** The trim arguments without an identifier. */
  lemma TrimArgsWithoutIdent(s: string, p: nat, bounds: Bounds)
    requires BoundsWellFormed(bounds) && TextAt(s, p, RenderBounds(bounds))
    ensures ParseTrimArgs(s, p) == Some((None, bounds))
  {
    IdentAttemptFails(s, p, bounds);
    BoundsComplete(s, p, bounds);
  }

  lemma TrimArgsComplete(s: string, p: nat, ident: Option<Ident>, bounds: Bounds)
    requires ident.Some? ==> IdentWellFormed(ident.value)
    requires BoundsWellFormed(bounds)
    requires TextAt(s, p, TrimArgs(ident, bounds))
    ensures ParseTrimArgs(s, p) == Some((ident, bounds))
  {
    if ident.Some? {
      TrimArgsWithIdent(s, p, ident.value, bounds);
    } else {
      assert TrimArgs(ident, bounds) == RenderBounds(bounds);
      TrimArgsWithoutIdent(s, p, bounds);
    }
  }

  /** The trim call's parse from its lead letter, its `rim(` and its parsed arguments. */
  lemma TrimFromArgs(s: string, i: nat, lead: char, args: (Option<Ident>, Bounds))
    requires i < |s| && s[i] == lead && (lead == 't' || lead == 'T')
    requires TextAt(s, i + 1, "rim(") && ParseTrimArgs(s, i + 5) == Some(args)
    ensures ParseTrim(s, i) == Some(Trim(lead, args.0, args.1))
  {
  }

  lemma TrimComplete(s: string, i: nat, t: Token)
    requires t.Trim? && WellFormed(t) && TextAt(s, i, Render(t))
    ensures ParseTrim(s, i) == Some(t)
  {
    var args := TrimArgs(t.ident, t.bounds);
    TextAtSplit(s, i, [t.lead], "rim(" + args);
    TextAtSplit(s, i + 1, "rim(", args);
    TextAtChar(s, i, [t.lead], 0);
    TrimArgsComplete(s, i + 5, t.ident, t.bounds);
    TrimFromArgs(s, i, t.lead, (t.ident, t.bounds));
  }

  /** The pieces of a slice text: the start, `: ?`, the optional `-`, the end, `]`. */
  lemma SlicePieces(s: string, p: nat, t: Token)
    requires t.Slice? && WellFormed(t) && TextAt(s, p, SliceArgs(t))
    ensures var a := p + |t.start|; var q := a + |Sep(':', t.gap)|; var m := q + |Minus(t.negative)|;
      TextAt(s, p, t.start) && TextAt(s, a, Sep(':', t.gap)) && TextAt(s, q, Minus(t.negative)) &&
      TextAt(s, m, t.end) && m < |s| && s[m] == t.end[0] &&
      m + |t.end| < |s| && s[m + |t.end|] == ']'
  {
    var a := p + |t.start|;
    var q := a + |Sep(':', t.gap)|;
    var m := q + |Minus(t.negative)|;
    TextAtSplit(s, p, t.start, Sep(':', t.gap) + (Minus(t.negative) + (t.end + "]")));
    TextAtSplit(s, a, Sep(':', t.gap), Minus(t.negative) + (t.end + "]"));
    TextAtSplit(s, q, Minus(t.negative), t.end + "]");
    TextAtSplit(s, m, t.end, "]");
    TextAtChar(s, m + |t.end|, "]", 0);
    TextAtChar(s, m, t.end, 0);
  }

  /** The slice's parse from the positions of its pieces and the characters around them. */
  lemma SliceArgsAt(s: string, p: nat, a: nat, q: nat, m: nat, b: nat)
    requires p < a && a + 1 <= q <= a + 2 && q <= m <= q + 1 && m < b < |s|
    requires RunEnd(s, p, Digit) == a && s[a] == ':' && Optional(s, a + 1, ' ') == q
    requires Optional(s, q, '-') == m && RunEnd(s, m, Digit) == b && s[b] == ']'
    ensures ParseSliceArgs(s, p) == Some(Slice(s[p..a], q == a + 2, m == q + 1, s[m..b]))
  {
  }

  lemma SliceArgsComplete(s: string, p: nat, t: Token)
    requires t.Slice? && WellFormed(t) && TextAt(s, p, SliceArgs(t))
    ensures ParseSliceArgs(s, p) == Some(t)
  {
    var a := p + |t.start|;
    var q := a + |Sep(':', t.gap)|;
    var m := q + |Minus(t.negative)|;
    SlicePieces(s, p, t);
    SlicePositions(s, p, t);
    SliceArgsAt(s, p, a, q, m, m + |t.end|);
  }

  /** Where the pieces of a slice text lie, as the matcher finds them. */
  lemma SlicePositions(s: string, p: nat, t: Token)
    requires t.Slice? && WellFormed(t)
    requires var a := p + |t.start|; var q := a + |Sep(':', t.gap)|; var m := q + |Minus(t.negative)|;
      TextAt(s, p, t.start) && TextAt(s, a, Sep(':', t.gap)) && TextAt(s, q, Minus(t.negative)) &&
      TextAt(s, m, t.end) && m < |s| && s[m] == t.end[0] &&
      m + |t.end| < |s| && s[m + |t.end|] == ']'
    ensures var a := p + |t.start|; var q := a + |Sep(':', t.gap)|; var m := q + |Minus(t.negative)|;
      var b := m + |t.end|;
      p < a && a + 1 <= q <= a + 2 && q <= m <= q + 1 && m < b < |s| &&
      RunEnd(s, p, Digit) == a && s[a] == ':' && Optional(s, a + 1, ' ') == q &&
      Optional(s, q, '-') == m && RunEnd(s, m, Digit) == b && s[b] == ']' &&
      s[p..a] == t.start && (q == a + 2) == t.gap && (m == q + 1) == t.negative && s[m..b] == t.end
  {
    var a := p + |t.start|;
    var q := a + |Sep(':', t.gap)|;
    var m := q + |Minus(t.negative)|;
    if t.negative {
      TextAtChar(s, q, Minus(t.negative), 0);
    }
    SepAt(s, a, ':', t.gap);
    MinusAt(s, q, t.negative);
    NumeralAt(s, p, t.start);
    NumeralAt(s, m, t.end);
  }

  lemma SliceComplete(s: string, i: nat, t: Token)
    requires t.Slice? && WellFormed(t) && TextAt(s, i, Render(t))
    ensures ParseSlice(s, i) == Some(t)
  {
    TextAtSplit(s, i, "clip[", SliceArgs(t));
    SliceArgsComplete(s, i + 5, t);
  }

  lemma DelayComplete(s: string, i: nat, t: Token)
    requires t.Delay? && WellFormed(t) && TextAt(s, i, Render(t))
    ensures ParseDelay(s, i) == Some(t)
  {
    var m := i + 6 + |Minus(t.negative)|;
    var e := m + |t.digits|;
    TextAtSplit(s, i, "DELAY ", DelayArgs(t.negative, t.digits));
    TextAtSplit(s, i + 6, Minus(t.negative), t.digits + "ms");
    TextAtSplit(s, m, t.digits, "ms");
    TextAtChar(s, m, t.digits, 0);
    TextAtChar(s, e, "ms", 0);
    MinusAt(s, i + 6, t.negative);
    RunEndOfText(s, m, t.digits, Digit);
    TextAtSlice(s, m, t.digits);
  }

  /** Whatever well-formed match text stands at `i` is the match `ParseAt` reports there. */
  lemma ParseAtComplete(p: Pattern, s: string, i: nat, t: Token)
    requires t.PatternOf() == p && WellFormed(t) && TextAt(s, i, Render(t))
    ensures ParseAt(p, s, i) == Some(t)
  {
    match t
    case Trim(_, _, _) => TrimComplete(s, i, t);
    case Slice(_, _, _, _) => SliceComplete(s, i, t);
    case Delay(_, _) => DelayComplete(s, i, t);
  }
}
