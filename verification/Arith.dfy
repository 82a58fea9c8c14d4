// Bytes, powers of two and division with remainder by a variable divisor.

module Arith {
  const U32 := 0x1_0000_0000

  type Byte = b: int | 0 <= b < 256

  lemma MulGe(k: int, d: int)
    requires k >= 1 && d > 0
    ensures k * d >= d
  {
  }

  lemma MulMinus(a: int, b: int, d: int)
    ensures (a - b) * d == a * d - b * d
  {
  }

  /** A number has one quotient and one remainder. */
  lemma DivModUnique(q: int, r: int, p: int, s: int, d: int)
    requires 0 <= r < d && 0 <= s < d && q * d + r == p * d + s
    ensures q == p && r == s
  {
    MulMinus(q, p, d);
    MulMinus(p, q, d);
    if q > p {
      MulGe(q - p, d);
    } else if q < p {
      MulGe(p - q, d);
    }
  }

  lemma ModIs(x: int, q: int, r: int, d: int)
    requires 0 <= r < d && x == q * d + r
    ensures x % d == r && x / d == q
  {
    DivModUnique(q, r, x / d, x % d, d);
  }

  function Power(n: nat): (r: nat)
    ensures r >= 1
  {
    if n == 0 then 1 else 2 * Power(n - 1)
  }

  lemma DivTwice(w: nat, d: nat)
    requires d > 0
    ensures w / 2 / d == w / (2 * d)
  {
    var q, r := w / 2 / d, w / 2 % d;
    Double(q, d);
    ModIs(w, q, 2 * r + w % 2, 2 * d);
  }

  ghost predicate PowerOfTwo(n: nat) {
    n == 1 || (n > 1 && n % 2 == 0 && PowerOfTwo(n / 2))
  }

  /** Of two powers of two the smaller divides the larger. */
  lemma {:induction false} PowersDivide(n: nat, m: nat)
    requires PowerOfTwo(n) && PowerOfTwo(m) && n <= m
    ensures m % n == 0
    decreases n
  {
    if n > 1 {
      PowersDivide(n / 2, m / 2);
      var q := m / 2 / (n / 2);
      assert m == q * n by {
        assert m / 2 == q * (n / 2);
        Double(q, n / 2);
      }
      ModIs(m, q, 0, n);
    }
  }

  lemma Double(q: int, n: int)
    ensures q * (2 * n) == 2 * (q * n)
  {
  }

  lemma Doubled(n: nat)
    requires PowerOfTwo(n)
    ensures PowerOfTwo(2 * n)
  {
    assert 2 * n / 2 == n;
  }

  lemma Times16(n: nat)
    requires PowerOfTwo(n)
    ensures PowerOfTwo(16 * n)
  {
    Doubled(n);
    Doubled(2 * n);
    Doubled(4 * n);
    Doubled(8 * n);
  }

  lemma U32IsPower()
    ensures PowerOfTwo(U32)
  {
    Times16(1);
    Times16(0x10);
    Times16(0x100);
    Times16(0x1000);
    Times16(0x1_0000);
    Times16(0x10_0000);
    Times16(0x100_0000);
    Times16(0x1000_0000);
  }
}
