/** Integer facts shared by the bit codecs, the AXI payload sizes and the
    block-buffer test bench: powers of two and Euclidean division. For a
    positive divisor Dafny's `/` and `%` are Python's `//` and `%`, so
    `x >> n` is `x / Pow2(n)` and `x & (2**n - 1)` is `x % Pow2(n)`. */
module Arith {

  /** 2 to the power `n` (Python's `2**n`, or `1 << n`). */
  function Pow2(n: nat): (p: nat)
    ensures p >= 1
  {
    if n == 0 then 1 else 2 * Pow2(n - 1)
  }

  /** Exponents add. */
  lemma {:induction false} Pow2Add(a: nat, b: nat)
    ensures Pow2(a + b) == Pow2(a) * Pow2(b)
  {
    if b > 0 {
      Pow2Add(a, b - 1);
      assert Pow2(a + b) == 2 * Pow2(a + b - 1);
    }
  }

  /** Larger exponents give larger powers. */
  lemma {:induction false} Pow2Monotone(a: nat, b: nat)
    requires a <= b
    ensures Pow2(a) <= Pow2(b)
  {
    if a < b {
      Pow2Monotone(a, b - 1);
    }
  }

  /** A positive multiple of a positive number is at least that number. */
  lemma MulAtLeast(k: int, d: int)
    requires k >= 1 && d > 0
    ensures k * d >= d
  {
    assert k * d == (k - 1) * d + d;
    assert (k - 1) * d >= 0;
  }

  /** Multiplying by a positive number keeps a strict order. */
  lemma MulLess(a: int, b: int, c: int)
    requires a < b && c > 0
    ensures a * c < b * c
  {
    MulAtLeast(b - a, c);
    assert b * c - a * c == (b - a) * c;
  }

  /** Multiplying by a non-negative number keeps a weak order. */
  lemma MulLeq(a: int, b: int, c: int)
    requires a <= b && c >= 0
    ensures a * c <= b * c
  {
    assert b * c - a * c == (b - a) * c;
  }

  /** Quotient and remainder are the only pair with `x == q * d + r` and
      `0 <= r < d`. */
  lemma DivModUnique(x: int, d: int, q: int, r: int)
    requires d > 0 && 0 <= r < d && x == q * d + r
    ensures x / d == q && x % d == r
  {
    var q0, r0 := x / d, x % d;
    assert x == q0 * d + r0;
    if q0 > q {
      assert (q0 - q) * d == r - r0;
      MulAtLeast(q0 - q, d);
      assert false;
    } else if q0 < q {
      assert (q - q0) * d == r0 - r;
      MulAtLeast(q - q0, d);
      assert false;
    }
  }

  /** Dividing by `p * q` is dividing by `p` and then by `q`; the remainder
      modulo `p * q` is made of the remainder modulo `p` and the next digit
      in base `q`. */
  lemma DivModSplit(x: int, p: int, q: int)
    requires p > 0 && q > 0
    ensures x / (p * q) == (x / p) / q
    ensures x % (p * q) == x % p + ((x / p) % q) * p
  {
    var a, r1 := x / p, x % p;
    var b, r2 := a / q, a % q;
    Regroup(x, p, q, a, r1, b, r2);
    DigitBound(p, q, r1, r2);
    DivModUnique(x, p * q, b, r2 * p + r1);
  }

  /** `x == a * p + r1` with `a == b * q + r2`, regrouped around `p * q`. */
  lemma Regroup(x: int, p: int, q: int, a: int, r1: int, b: int, r2: int)
    requires x == a * p + r1 && a == b * q + r2
    ensures x == b * (p * q) + (r2 * p + r1)
  {
    calc {
      a * p;
      (b * q + r2) * p;
      b * q * p + r2 * p;
      b * (p * q) + r2 * p;
    }
  }

  /** A two-digit number in the mixed base `(q, p)` is below `p * q`. */
  lemma DigitBound(p: int, q: int, r1: int, r2: int)
    requires p > 0 && q > 0 && 0 <= r1 < p && 0 <= r2 < q
    ensures 0 <= r2 * p + r1 < p * q
  {
    assert r2 * p <= (q - 1) * p;
    assert (q - 1) * p == p * q - p;
  }

  /** Every integer is 0 modulo 1. */
  lemma ModOne(x: int)
    ensures x % 1 == 0
  {
    DivModUnique(x, 1, x, 0);
  }

  /** One more binary digit on top: `x mod 2p` from `x mod p`. */
  lemma LowDigitStep(x: int, p: int, low: int, d: int)
    requires p > 0 && low == x % p && d == (x / p) % 2
    ensures low + d * p == x % (2 * p)
  {
    DivModSplit(x, p, 2);
  }

  /** One more binary digit at the bottom: `x mod 2p` from `(x / 2) mod p`. */
  lemma HighDigitStep(x: int, p: int, high: int, d: int)
    requires p > 0 && high == (x / 2) % p && d == x % 2
    ensures high * 2 + d == x % (2 * p)
  {
    DivModSplit(x, 2, p);
  }

  /** The general digit step: `x mod pq` from `x mod p` and the next digit
      in base `q`. */
  lemma DigitStep(x: int, p: int, q: int, low: int, d: int)
    requires p > 0 && q > 0 && low == x % p && d == (x / p) % q
    ensures low + d * p == x % (p * q)
  {
    DivModSplit(x, p, q);
  }

  /** Reducing twice is reducing once. */
  lemma ModOfMod(x: int, d: int)
    requires d > 0
    ensures (x % d) % d == x % d
  {
    DivModUnique(x % d, d, 0, x % d);
  }

  /** `n + 1` chunks of `c` bits span `2^(nc) * 2^c`. */
  lemma Pow2Step(n: nat, c: nat)
    ensures (n + 1) * c == n * c + c
    ensures Pow2((n + 1) * c) == Pow2(n * c) * Pow2(c)
  {
    Pow2Add(n * c, c);
  }
}
