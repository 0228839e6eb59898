/** Powers of two, and division and remainder by them. */
module Pow2 {

  function Exp2(n: nat): (p: nat)
    ensures p >= 1
  {
    if n == 0 then 1 else 2 * Exp2(n - 1)
  }

  lemma {:induction false} Exp2Adds(a: nat, b: nat)
    ensures Exp2(a + b) == Exp2(a) * Exp2(b)
  {
    if a == 0 {
    } else {
      Exp2Adds(a - 1, b);
      assert Exp2(a + b) == 2 * Exp2(a - 1 + b);
    }
  }

  lemma {:induction false} Exp2Monotone(a: nat, b: nat)
    requires a <= b
    ensures Exp2(a) <= Exp2(b)
    ensures a < b ==> 2 * Exp2(a) <= Exp2(b)
    decreases b
  {
    if a < b { Exp2Monotone(a, b - 1); }
  }

  /** Multiplying by d keeps a strict order, with room for one more d. */
  lemma {:induction false} MulStep(a: int, b: int, d: int)
    requires a < b && 0 <= d
    ensures a * d + d <= b * d
    decreases b - a
  {
    assert (a + 1) * d == a * d + d;
    if a + 1 < b { MulStep(a + 1, b, d); }
  }

  lemma MulAssoc(a: int, b: int, c: int)
    ensures a * (b * c) == (a * b) * c
  {
  }

  /** Quotient and remainder are determined by their defining equation. */
  lemma DivModUnique(n: int, d: int, q: int, r: int)
    requires 0 < d && 0 <= r < d && n == q * d + r
    ensures n / d == q && n % d == r
  {
    var q', r' := n / d, n % d;
    assert n == d * q' + r' == q' * d + r';
    if q < q' {
      MulStep(q, q', d);
    } else if q' < q {
      MulStep(q', q, d);
    }
  }

  lemma MultipleOfFactor(n: int, e: int, d: int)
    requires 0 < d && 0 < e * d && n % (e * d) == 0
    ensures n % d == 0
  {
    var q := n / (e * d);
    MulAssoc(q, e, d);
    DivModUnique(n, d, q * e, 0);
  }

  /** A multiple of a power of two is a multiple of every smaller one. */
  lemma AlignedDown(n: nat, a: nat, b: nat)
    requires a <= b && n % Exp2(b) == 0
    ensures n % Exp2(a) == 0
  {
    Exp2Adds(b - a, a);
    MultipleOfFactor(n, Exp2(b - a), Exp2(a));
  }

  /** Moving by one block keeps alignment to that block's size. */
  lemma AlignedNext(n: int, d: int)
    requires 0 < d && n % d == 0
    ensures (n + d) % d == 0 && (n - d) % d == 0
  {
    var q := n / d;
    assert n == q * d;
    assert (q + 1) * d == q * d + d && (q - 1) * d == q * d - d;
    DivModUnique(n + d, d, q + 1, 0);
    DivModUnique(n - d, d, q - 1, 0);
  }

  /** Two different multiples of d are at least d apart. */
  lemma AlignedApart(a: int, b: int, d: int)
    requires 0 < d && a % d == 0 && b % d == 0 && a < b
    ensures a + d <= b
  {
    var p, q := a / d, b / d;
    assert a == p * d && b == q * d;
    if q < p { MulStep(q, p, d); }
    if p < q { MulStep(p, q, d); }
  }

  lemma ModOfMultiplePlus(m: int, e: int, d: int, b: int)
    requires 0 < d
    ensures (m * (e * d) + b) % d == b % d
  {
    MulAssoc(m, e, d);
    var q := b / d;
    assert (m * e + q) * d == (m * e) * d + q * d;
    DivModUnique(m * (e * d) + b, d, m * e + q, b % d);
  }

  lemma ModOfScaled(m: int, e: int, d: int, b: int)
    requires 0 < d && 0 <= b < e
    ensures 0 < e * d
    ensures (e * m + b) % (e * d) == e * (m % d) + b
  {
    var q, r := m / d, m % d;
    MulStep(0, e, d);
    MulStep(r, d, e);
    assert m == q * d + r;
    assert e * (q * d + r) == q * (e * d) + e * r by {
      MulAssoc(e, q, d);
      MulAssoc(q, e, d);
      assert e * (q * d + r) == e * (q * d) + e * r;
    }
    assert d * e == e * d && r * e == e * r;
    DivModUnique(e * m + b, e * d, q, e * r + b);
  }

  /** Splitting off the last byte of a number splits its remainders. */
  lemma ModByLastByte(m: nat, b: nat, h: nat)
    requires b < 256
    ensures h < 8 ==> (256 * m + b) % Exp2(h) == b % Exp2(h)
    ensures h >= 8 ==> (256 * m + b) % Exp2(h) == 256 * (m % Exp2(h - 8)) + b
  {
    assert Exp2(8) == 256;
    if h < 8 {
      Exp2Adds(8 - h, h);
      ModOfMultiplePlus(m, Exp2(8 - h), Exp2(h), b);
    } else {
      Exp2Adds(8, h - 8);
      ModOfScaled(m, 256, Exp2(h - 8), b);
    }
  }
}
