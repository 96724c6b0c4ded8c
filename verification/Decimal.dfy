/** Decimal digits: printing natural numbers and reading them back. */
module Decimal {

  predicate IsDigit(c: char) {
    '0' <= c <= '9'
  }

  predicate AllDigits(s: string) {
    forall i :: 0 <= i < |s| ==> IsDigit(s[i])
  }

  function DigitChar(d: int): (c: char)
    requires 0 <= d < 10
    ensures IsDigit(c) && DigitValue(c) == d
  {
    ('0' as int + d) as char
  }

  function DigitValue(c: char): (d: int)
    requires IsDigit(c)
    ensures 0 <= d < 10
  {
    c as int - '0' as int
  }

  /** The number a run of digits writes; leading zeros are permitted. */
  function NatOf(s: string): (n: nat)
    requires AllDigits(s)
  {
    if s == [] then 0 else 10 * NatOf(s[..|s| - 1]) + DigitValue(s[|s| - 1])
  }

  /** The shortest decimal form. */
  function Digits(n: nat): (s: string)
    ensures AllDigits(s) && |s| > 0
  {
    if n < 10 then [DigitChar(n)] else Digits(n / 10) + [DigitChar(n % 10)]
  }

  function Zeros(n: nat): (s: string)
    ensures AllDigits(s) && |s| == n
  {
    seq(n, _ => '0')
  }

  /** Rust's `{:0width}`: zeros in front, up to at least `width` digits. */
  function Padded(n: nat, width: nat): (s: string)
    ensures AllDigits(s) && |s| >= width && |s| > 0
  {
    var s := Digits(n);
    if |s| < width then Zeros(width - |s|) + s else s
  }

  function Pow10(k: nat): (p: nat)
    ensures p > 0
  {
    if k == 0 then 1 else 10 * Pow10(k - 1)
  }

  lemma AppendDigit(n: nat, p: nat, front: nat, d: nat)
    ensures 10 * (n * p + front) + d == n * (10 * p) + (10 * front + d)
  {
  }

  lemma {:induction false} NatOfAppend(a: string, b: string)
    requires AllDigits(a) && AllDigits(b)
    ensures AllDigits(a + b)
    ensures NatOf(a + b) == NatOf(a) * Pow10(|b|) + NatOf(b)
  {
    if b == [] {
      assert a + b == a;
    } else {
      var front := b[..|b| - 1];
      NatOfAppend(a, front);
      assert (a + b)[..|a + b| - 1] == a + front;
      AppendDigit(NatOf(a), Pow10(|front|), NatOf(front), DigitValue(b[|b| - 1]));
    }
  }

  lemma {:induction false} ZerosAreZero(n: nat)
    ensures NatOf(Zeros(n)) == 0
  {
    if n > 0 {
      assert Zeros(n)[..n - 1] == Zeros(n - 1);
      ZerosAreZero(n - 1);
    }
  }

  lemma {:induction false} DigitsReadBack(n: nat)
    ensures NatOf(Digits(n)) == n
    ensures n > 0 ==> Digits(n)[0] != '0'
  {
    if n >= 10 {
      DigitsReadBack(n / 10);
      assert Digits(n)[..|Digits(n)| - 1] == Digits(n / 10);
    }
  }

  lemma {:induction false} DigitsFit(n: nat, width: nat)
    requires width > 0
    ensures |Digits(n)| <= width <==> n < Pow10(width)
  {
    if n >= 10 && width > 1 {
      DigitsFit(n / 10, width - 1);
      assert n / 10 < Pow10(width - 1) <==> n < 10 * Pow10(width - 1);
    } else if n >= 10 {
      assert Pow10(1) == 10;
    } else {
      Pow10Grows(width);
    }
  }

  lemma {:induction false} Pow10Grows(width: nat)
    requires width > 0
    ensures Pow10(width) >= 10
  {
    if width > 1 {
      Pow10Grows(width - 1);
    }
  }

  /** A padded number reads back, and is exactly as wide as asked for when it fits. */
  lemma PaddedReadsBack(n: nat, width: nat)
    requires width > 0
    ensures NatOf(Padded(n, width)) == n
    ensures |Padded(n, width)| == width <==> n < Pow10(width)
    ensures |Padded(n, width)| > width ==> Padded(n, width)[0] != '0'
  {
    DigitsReadBack(n);
    DigitsFit(n, width);
    Pow10Grows(width);
    hide NatOf, Digits, Pow10;
    if |Digits(n)| < width {
      ZerosAreZero(width - |Digits(n)|);
      NatOfAppend(Zeros(width - |Digits(n)|), Digits(n));
    }
  }

  lemma {:induction false} NatOfBound(s: string)
    requires AllDigits(s)
    ensures NatOf(s) < Pow10(|s|)
  {
    if s != [] {
      NatOfBound(s[..|s| - 1]);
    }
  }

  // ---- fractions of a second, to nine digits ---------------------------------

  /** The first nine digits, filled up with zeros. */
  function NineDigits(s: string): (r: string)
    ensures |r| == 9
    ensures AllDigits(s) ==> AllDigits(r)
  {
    if |s| >= 9 then s[..9] else s + Zeros(9 - |s|)
  }

  function TrimZeros(s: string): (r: string)
    ensures r <= s
    ensures |r| > 0 ==> r[|r| - 1] != '0'
  {
    if s != [] && s[|s| - 1] == '0' then TrimZeros(s[..|s| - 1]) else s
  }

  lemma {:induction false} TrimmedZerosAreZeros(s: string)
    ensures s == TrimZeros(s) + Zeros(|s| - |TrimZeros(s)|)
  {
    if s != [] && s[|s| - 1] == '0' {
      TrimmedZerosAreZeros(s[..|s| - 1]);
    }
  }

  lemma TenToTheNinth()
    ensures Pow10(2) == 100 && Pow10(9) == 1_000_000_000
  {
    assert Pow10(3) == 1_000;
    assert Pow10(6) == 1_000_000;
  }

  lemma NineDigitsOfTrimmed(s: string)
    requires |s| == 9
    ensures NineDigits(TrimZeros(s)) == s
  {
    TrimmedZerosAreZeros(s);
  }

  lemma TrimmedDigitsAreDigits(s: string)
    requires AllDigits(s)
    ensures AllDigits(TrimZeros(s)) && |TrimZeros(s)| <= |s|
  {
    hide TrimZeros;
  }

  lemma NothingLeftMeansZero(s: string)
    requires AllDigits(s) && TrimZeros(s) == []
    ensures NatOf(s) == 0
  {
    TrimmedZerosAreZeros(s);
    ZerosAreZero(|s|);
    assert s == Zeros(|s|);
  }

  /** Nanoseconds printed to nine digits and trimmed read back unchanged. */
  lemma TrimmedNanosReadBack(n: nat)
    requires 0 < n < 1_000_000_000
    ensures var f := TrimZeros(Padded(n, 9));
            && 0 < |f| <= 9 && AllDigits(f)
            && NatOf(NineDigits(f)) == n
  {
    hide Pow10, Padded, NineDigits, NatOf, TrimZeros, AllDigits;
    var padded := Padded(n, 9);
    TenToTheNinth();
    PaddedReadsBack(n, 9);
    NineDigitsOfTrimmed(padded);
    TrimmedDigitsAreDigits(padded);
    if TrimZeros(padded) == [] {
      NothingLeftMeansZero(padded);
    }
  }
}
