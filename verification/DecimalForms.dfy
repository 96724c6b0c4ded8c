/** The shortest form of a number and of a fraction, which their digits determine. */
module DecimalForms {
  import opened Decimal

  // ---- numerals ---------------------------------------------------------------

  /** Digits without zeros in front. */
  predicate Shortest(s: string) {
    AllDigits(s) && s != "" && (s[0] == '0' ==> |s| == 1)
  }

  lemma {:induction false} ShortestIsDigits(s: string)
    requires Shortest(s)
    ensures s == Digits(NatOf(s))
    ensures s[0] == '0' <==> NatOf(s) == 0
  {
    var n := |s| - 1;
    if n > 0 {
      assert Shortest(s[..n]) && s[..n][0] == s[0];
      ShortestIsDigits(s[..n]);
      assert NatOf(s) / 10 == NatOf(s[..n]) && NatOf(s) % 10 == DigitValue(s[n]);
      assert s == s[..n] + [s[n]];
    } else {
      assert s[..0] == [] && s == [s[0]];
    }
  }

  lemma {:induction false} DigitsAreShortest(n: nat)
    ensures Shortest(Digits(n)) && NatOf(Digits(n)) == n
    ensures n > 0 ==> Digits(n)[0] != '0'
  {
    DigitsReadBack(n);
  }

  /** Digit texts of one length are told apart by their number. */
  lemma {:induction false} SameNumberSameDigits(a: string, b: string)
    requires AllDigits(a) && AllDigits(b) && |a| == |b| && NatOf(a) == NatOf(b)
    ensures a == b
  {
    if a != [] {
      var n := |a| - 1;
      SameNumberSameDigits(a[..n], b[..n]);
      assert a == a[..n] + [a[n]] && b == b[..n] + [b[n]];
    }
  }

  // ---- fractions --------------------------------------------------------------

  lemma {:induction false} Pow10Adds(m: nat, n: nat)
    ensures Pow10(m + n) == Pow10(m) * Pow10(n)
  {
    if m > 0 {
      Pow10Adds(m - 1, n);
      Regrouped(10, Pow10(m - 1), Pow10(n));
    }
  }

  lemma Regrouped(a: nat, b: nat, c: nat)
    ensures a * (b * c) == (a * b) * c
  {
  }

  /** `n` billionths are what fits into `numerator` parts out of `power`. */
  predicate CutShort(n: nat, numerator: nat, power: nat) {
    n * power <= numerator * 1_000_000_000 < (n + 1) * power
  }

  /** A fraction of any length is read as the whole nanoseconds it holds: cut off, not rounded. */
  lemma FractionIsCutOff(f: string)
    requires AllDigits(f)
    ensures CutShort(NatOf(NineDigits(f)), NatOf(f), Pow10(|f|))
  {
    hide NatOf, Pow10, Zeros, CutShort;
    if |f| >= 9 {
      LongFraction(f[..9], f[9..]);
      assert f[..9] + f[9..] == f;
    } else {
      ShortFraction(f);
    }
  }

  lemma LongFraction(front: string, rest: string)
    requires AllDigits(front) && AllDigits(rest) && |front| == 9
    ensures CutShort(NatOf(front), NatOf(front + rest), Pow10(|front + rest|))
  {
    NatOfAppend(front, rest);
    NatOfBound(rest);
    TenToTheNinth();
    Pow10Adds(9, |rest|);
    hide *;
    CutOff(NatOf(front), Pow10(|rest|), NatOf(rest), NatOf(front + rest), Pow10(9 + |rest|));
  }

  lemma ShortFraction(f: string)
    requires AllDigits(f) && |f| < 9
    ensures CutShort(NatOf(f + Zeros(9 - |f|)), NatOf(f), Pow10(|f|))
  {
    NatOfAppend(f, Zeros(9 - |f|));
    ZerosAreZero(9 - |f|);
    TenToTheNinth();
    Pow10Adds(9 - |f|, |f|);
    hide *;
    FilledUp(NatOf(f), Pow10(9 - |f|), Pow10(|f|), NatOf(f + Zeros(9 - |f|)));
  }

  lemma CutOff(n: nat, p: nat, r: nat, all: nat, power: nat)
    requires r < p && all == n * p + r && power == 1_000_000_000 * p
    ensures CutShort(n, all, power)
  {
    Regrouped(n, 1_000_000_000, p);
    Regrouped(1_000_000_000, n, p);
  }

  lemma FilledUp(m: nat, q: nat, p: nat, n: nat)
    requires q * p == 1_000_000_000 && p > 0 && n == m * q
    ensures CutShort(n, m, p)
  {
    Regrouped(m, q, p);
  }

  lemma {:induction false} SomeDigitCounts(s: string, i: nat)
    requires AllDigits(s) && i < |s| && s[i] != '0'
    ensures NatOf(s) > 0
    decreases |s|
  {
    if i < |s| - 1 {
      SomeDigitCounts(s[..|s| - 1], i);
    }
  }

  /** A fraction written as briefly as its nine digits allow. */
  predicate Trimmed(f: string) {
    AllDigits(f) && 0 < |f| <= 9 && f[|f| - 1] != '0'
  }

  lemma {:induction false} TrimmingUndoesZeros(f: string, n: nat)
    requires Trimmed(f)
    ensures TrimZeros(f + Zeros(n)) == f
  {
    if n == 0 {
      assert f + Zeros(0) == f;
    } else {
      var s := f + Zeros(n);
      assert s[..|s| - 1] == f + Zeros(n - 1);
      TrimmingUndoesZeros(f, n - 1);
    }
  }

  lemma TrimmedIsWritten(f: string)
    requires Trimmed(f)
    ensures 0 < NatOf(NineDigits(f)) < 1_000_000_000
    ensures f == TrimZeros(Padded(NatOf(NineDigits(f)), 9))
  {
    hide NatOf, Padded;
    var filled := NineDigits(f);
    assert filled == f + Zeros(9 - |f|);
    TenToTheNinth();
    NatOfBound(filled);
    PaddedReadsBack(NatOf(filled), 9);
    SameNumberSameDigits(filled, Padded(NatOf(filled), 9));
    TrimmingUndoesZeros(f, 9 - |f|);
    SomeDigitCounts(filled, |f| - 1);
  }

  lemma WrittenIsTrimmed(n: nat)
    requires 0 < n < 1_000_000_000
    ensures Trimmed(TrimZeros(Padded(n, 9)))
  {
    TrimmedNanosReadBack(n);
    hide Padded, NatOf, NineDigits;
  }
}
