/** Digits and the natural numbers they stand for. */
module Digits {

  predicate IsDigit(c: char) {
    '0' <= c <= '9'
  }

  predicate AllDigits(s: string) {
    forall i :: 0 <= i < |s| ==> IsDigit(s[i])
  }

  function Natural(digits: string): nat
    requires AllDigits(digits)
  {
    if digits == [] then 0
    else 10 * Natural(digits[..|digits| - 1]) + (digits[|digits| - 1] as int - '0' as int)
  }

  function Pow10(n: nat): nat {
    if n == 0 then 1 else 10 * Pow10(n - 1)
  }

  lemma {:induction false} Pow10Positive(n: nat)
    ensures Pow10(n) > 0
  {
    if n > 0 {
      Pow10Positive(n - 1);
    }
  }

  function DigitChar(d: nat): char
    requires d < 10
  {
    ('0' as int + d) as char
  }

  function NaturalText(n: nat): string {
    if n < 10 then [DigitChar(n)] else NaturalText(n / 10) + [DigitChar(n % 10)]
  }

  /** The last k digits of n, with leading zeros. */
  function Padded(n: nat, k: nat): (s: string)
    ensures |s| == k
  {
    if k == 0 then "" else Padded(n / 10, k - 1) + [DigitChar(n % 10)]
  }

  function Zeros(n: nat): string {
    if n == 0 then "" else Zeros(n - 1) + "0"
  }

  lemma {:induction false} NaturalTextRead(n: nat)
    ensures NaturalText(n) != [] && AllDigits(NaturalText(n)) && Natural(NaturalText(n)) == n
    ensures n > 0 ==> NaturalText(n)[0] != '0'
  {
    if n >= 10 {
      NaturalTextRead(n / 10);
      assert NaturalText(n)[..|NaturalText(n)| - 1] == NaturalText(n / 10);
    } else {
      assert NaturalText(n)[..0] == [];
    }
  }

  /** Digits without a superfluous leading zero are the text of their value. */
  lemma {:induction false} NaturalTextOf(d: string)
    requires d != [] && AllDigits(d) && (|d| > 1 ==> d[0] != '0')
    ensures NaturalText(Natural(d)) == d
    ensures d[0] != '0' ==> Natural(d) > 0
  {
    var front, c := d[..|d| - 1], d[|d| - 1];
    assert d == front + [c];
    if front == [] {
      assert Natural(front) == 0;
    } else {
      NaturalTextOf(front);
      assert Natural(d) / 10 == Natural(front);
    }
  }

  lemma {:induction false} PaddedOf(d: string)
    requires AllDigits(d)
    ensures Padded(Natural(d), |d|) == d
    ensures Natural(d) < Pow10(|d|)
  {
    if d != [] {
      var front, c := d[..|d| - 1], d[|d| - 1];
      PaddedOf(front);
      assert Natural(d) / 10 == Natural(front);
      assert d == front + [c];
    }
  }

  lemma {:induction false} PaddedRead(n: nat, k: nat)
    ensures AllDigits(Padded(n, k))
    ensures n < Pow10(k) ==> Natural(Padded(n, k)) == n
  {
    if k > 0 {
      PaddedRead(n / 10, k - 1);
      assert Padded(n, k)[..k - 1] == Padded(n / 10, k - 1);
    }
  }

  lemma {:induction false} ZerosAreDigits(z: nat)
    ensures |Zeros(z)| == z && AllDigits(Zeros(z))
  {
    if z > 0 {
      ZerosAreDigits(z - 1);
    }
  }

  lemma {:induction false} NaturalOfZeros(d: string, z: nat)
    requires AllDigits(d)
    ensures AllDigits(d + Zeros(z)) && Natural(d + Zeros(z)) == Natural(d) * Pow10(z)
  {
    ZerosAreDigits(z);
    if z == 0 {
      assert d + Zeros(0) == d;
    } else {
      NaturalOfZeros(d, z - 1);
      var t, n, p := d + Zeros(z), Natural(d), Pow10(z - 1);
      assert t[..|t| - 1] == d + Zeros(z - 1);
      assert 10 * (n * p) == n * (10 * p);
    }
  }

  lemma {:induction false} Pow10Sum(a: nat, b: nat)
    ensures Pow10(a + b) == Pow10(a) * Pow10(b)
  {
    if a > 0 {
      Pow10Sum(a - 1, b);
    }
  }

  // ----- division

  lemma {:induction false} MulAtLeast(n: int, d: int)
    requires n >= 0 && d >= 1
    ensures n * d >= n
    decreases d
  {
    if d > 1 {
      MulAtLeast(n, d - 1);
    }
  }

  lemma SameQuotient(n: int, q: int, m: int, p: int, r: int)
    requires n * q + m == n * p + r && 0 <= m < n && 0 <= r < n
    ensures m == r
  {
    assert n * (q - p) == n * q - n * p;
    assert n * (p - q) == n * p - n * q;
    if q > p {
      MulAtLeast(n, q - p);
    } else if q < p {
      MulAtLeast(n, p - q);
    }
  }
}
