/**
 * ASCII character classes, maximal runs of a class, and decimal numerals.
 *
 * The regular expressions of split_aud use `\d` and `\w`; the model restricts both
 * to ASCII. Numerals are read as unbounded naturals.
 */
module Numerals {

  /** The two character classes the patterns use: `\d` and `\w`. */
  datatype CharClass = Digit | Word

  predicate InClass(c: char, k: CharClass) {
    match k
    case Digit => '0' <= c <= '9'
    case Word => '0' <= c <= '9' || 'a' <= c <= 'z' || 'A' <= c <= 'Z' || c == '_'
  }

  predicate AllIn(s: string, k: CharClass) {
    forall i :: 0 <= i < |s| ==> InClass(s[i], k)
  }

  /** A non-empty run of decimal digits, the text `\d+` matches. */
  predicate IsDigits(s: string) {
    |s| > 0 && AllIn(s, Digit)
  }

  /** The end of the longest run of class `k` that starts at `i`. */
  function RunEnd(s: string, i: nat, k: CharClass): (j: nat)
    requires i <= |s|
    ensures i <= j <= |s|
    ensures forall p :: i <= p < j ==> InClass(s[p], k)
    ensures j == |s| || !InClass(s[j], k)
    decreases |s| - i
  {
    if i < |s| && InClass(s[i], k) then RunEnd(s, i + 1, k) else i
  }

  /** A run of class `k` that is followed by a character outside `k` is the longest run. */
  lemma RunEndAt(s: string, i: nat, n: nat, k: CharClass)
    requires i + n < |s|
    requires forall p :: i <= p < i + n ==> InClass(s[p], k)
    requires !InClass(s[i + n], k)
    ensures RunEnd(s, i, k) == i + n
  {
  }

  /** The value of a decimal digit; other characters, which no numeral holds, count as 0. */
  function DigitValue(c: char): nat {
    if '0' <= c <= '9' then c as int - '0' as int else 0
  }

  function DigitChar(d: nat): (c: char)
    requires d < 10
    ensures '0' <= c <= '9' && DigitValue(c) == d
  {
    ('0' as int + d) as char
  }

  /** The value of a decimal numeral, most significant digit first. */
  function Numeral(s: string): nat {
    if |s| == 0 then 0 else 10 * Numeral(s[..|s| - 1]) + DigitValue(s[|s| - 1])
  }

  /** The value of an optionally negative numeral, as `parse::<isize>` reads it. */
  function SignedValue(negative: bool, digits: string): int {
    if negative then 0 - Numeral(digits) else Numeral(digits)
  }

  /** The shortest decimal spelling of `n`, as `format!("{}", n)` writes it. */
  function Decimal(n: nat): (s: string)
    ensures IsDigits(s)
    ensures |s| > 1 ==> s[0] != '0'
  {
    if n < 10 then [DigitChar(n)] else Decimal(n / 10) + [DigitChar(n % 10)]
  }

  lemma {:induction false} NumeralOfDecimal(n: nat)
    ensures Numeral(Decimal(n)) == n
  {
    if n >= 10 {
      var s := Decimal(n);
      assert s[..|s| - 1] == Decimal(n / 10);
      NumeralOfDecimal(n / 10);
    }
  }

  /** A leading zero does not change the value of a numeral. */
  lemma {:induction false} NumeralLeadingZero(s: string)
    requires AllIn(s, Digit)
    ensures AllIn(['0'] + s, Digit) && Numeral(['0'] + s) == Numeral(s)
  {
    var z := ['0'] + s;
    if |s| > 0 {
      assert z[..|z| - 1] == ['0'] + s[..|s| - 1];
      NumeralLeadingZero(s[..|s| - 1]);
    }
  }

  /** `s` left-padded with '0' up to `width` characters, as the `{:0w}` format does. */
  function ZeroPad(s: string, width: nat): (r: string)
    requires AllIn(s, Digit)
    ensures AllIn(r, Digit) && Numeral(r) == Numeral(s)
    ensures |r| == if |s| >= width then |s| else width
    ensures |s| >= width ==> r == s
    decreases width - |s|
  {
    NumeralLeadingZero(s);
    if |s| >= width then s else ZeroPad(['0'] + s, width)
  }

  /**
   * The decimal spelling of `n` padded to three digits: `format!("{:03}", n)`. Below 1000
   * that is exactly three digits; from 100 on it is the plain decimal spelling.
   */
  function Pad3(n: nat): (s: string)
    ensures IsDigits(s) && Numeral(s) == n
    ensures |s| == if |Decimal(n)| >= 3 then |Decimal(n)| else 3
    ensures n < 1000 ==> |s| == 3
    ensures n >= 100 ==> s == Decimal(n)
  {
    NumeralOfDecimal(n);
    DecimalLength(n);
    ZeroPad(Decimal(n), 3)
  }

  /** The decimal spelling has three digits or fewer below 1000, and three or more from 100. */
  lemma DecimalLength(n: nat)
    ensures n < 1000 ==> |Decimal(n)| <= 3
    ensures n >= 100 ==> |Decimal(n)| >= 3
  {
    if n >= 10 {
      assert |Decimal(n)| == |Decimal(n / 10)| + 1;
      if n >= 100 {
        assert |Decimal(n / 10)| == |Decimal(n / 100)| + 1;
      }
      if n < 1000 && n / 10 >= 10 {
        assert |Decimal(n / 10)| == |Decimal(n / 100)| + 1;
        assert n / 100 < 10;
      }
    }
  }
}
