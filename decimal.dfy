/** Decimal rendering of unsigned integers, as Rust's `Display` for `usize` writes them. */
module Decimal {
  import opened RustTypes

  predicate IsDigit(c: char) {
    '0' <= c <= '9'
  }

  /** A canonical decimal numeral: non-empty, digits only, no leading zero except "0" itself. */
  predicate IsCanonical(s: string) {
    |s| > 0 && (forall i :: 0 <= i < |s| ==> IsDigit(s[i])) && (s[0] == '0' ==> |s| == 1)
  }

  function DigitChar(d: nat): (c: char)
    requires d < 10
    ensures IsDigit(c)
  {
    ('0' as int + d) as char
  }

  function DigitValue(c: char): nat
    requires IsDigit(c)
  {
    c as int - '0' as int
  }

  /** The decimal text of `n`, most significant digit first. */
  function NatToDecimal(n: nat): (s: string)
    ensures IsCanonical(s)
    decreases n
  {
    if n < 10 then [DigitChar(n)] else NatToDecimal(n / 10) + [DigitChar(n % 10)]
  }

  /** The number a string of digits denotes (the reading a caller would parse back). */
  function DecimalValue(s: string): nat
    requires forall i :: 0 <= i < |s| ==> IsDigit(s[i])
  {
    if s == [] then 0 else DecimalValue(s[..|s| - 1]) * 10 + DigitValue(s[|s| - 1])
  }

  /** Reading back the rendering of `n` gives `n`. */
  lemma {:induction false} DecimalRoundTrip(n: nat)
    ensures DecimalValue(NatToDecimal(n)) == n
    decreases n
  {
    var s := NatToDecimal(n);
    if n < 10 {
      assert s[..0] == [];
    } else {
      DecimalRoundTrip(n / 10);
      assert s[..|s| - 1] == NatToDecimal(n / 10);
    }
  }

  lemma {:induction false} LeadingNonZeroIsPositive(s: string)
    requires |s| > 0 && forall i :: 0 <= i < |s| ==> IsDigit(s[i])
    requires s[0] != '0'
    ensures DecimalValue(s) > 0
    decreases |s|
  {
    if |s| > 1 {
      var t := s[..|s| - 1];
      assert t[0] == s[0];
      LeadingNonZeroIsPositive(t);
    }
  }

  /** Every canonical numeral is the rendering of the number it denotes: the rendering is onto
      canonical numerals and, with DecimalRoundTrip, a bijection between `nat` and them. */
  lemma {:induction false} CanonicalIsRendering(s: string)
    requires IsCanonical(s)
    ensures NatToDecimal(DecimalValue(s)) == s
    decreases |s|
  {
    var t, d := s[..|s| - 1], DigitValue(s[|s| - 1]);
    assert DigitChar(d) == s[|s| - 1];
    if |s| == 1 {
      assert t == [];
      assert NatToDecimal(DecimalValue(s)) == [s[0]];
    } else {
      assert t[0] == s[0];
      LeadingNonZeroIsPositive(t);
      CanonicalIsRendering(t);
      var v := DecimalValue(s);
      assert v == DecimalValue(t) * 10 + d;
      assert v / 10 == DecimalValue(t) && v % 10 == d;
      assert s == t + [s[|s| - 1]];
    }
  }

  /** Appending a digit to a positive number's rendering. */
  lemma AppendDigit(n: nat, d: nat)
    requires 0 < n && d < 10
    ensures NatToDecimal(10 * n + d) == NatToDecimal(n) + [DigitChar(d)]
  {
    assert (10 * n + d) / 10 == n;
    assert (10 * n + d) % 10 == d;
  }

  /** `usize::MAX` renders as its twenty digits. */
  lemma UsizeMaxDecimal()
    ensures NatToDecimal(USIZE_MAX) == "18446744073709551615"
  {
    AppendDigit(1, 8);
    AppendDigit(18, 4);
    AppendDigit(184, 4);
    AppendDigit(1844, 6);
    AppendDigit(18446, 7);
    AppendDigit(184467, 4);
    AppendDigit(1844674, 4);
    AppendDigit(18446744, 0);
    AppendDigit(184467440, 7);
    AppendDigit(1844674407, 3);
    AppendDigit(18446744073, 7);
    AppendDigit(184467440737, 0);
    AppendDigit(1844674407370, 9);
    AppendDigit(18446744073709, 5);
    AppendDigit(184467440737095, 5);
    AppendDigit(1844674407370955, 1);
    AppendDigit(18446744073709551, 6);
    AppendDigit(184467440737095516, 1);
    AppendDigit(1844674407370955161, 5);
  }
}
