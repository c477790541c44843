/** Powers with a natural exponent: every `**` in the calculator raises a real base to a whole number. */
module Power {

  /** b raised to the n-th power. */
  function Pow(b: real, n: nat): (r: real)
    ensures b == 1.0 ==> r == 1.0
    ensures b != 0.0 ==> r != 0.0
    ensures b > 0.0 ==> r > 0.0
    decreases n
  {
    if n == 0 then 1.0 else b * Pow(b, n - 1)
  }

  lemma MulRearrange(b: real, x: real, y: real)
    ensures b * (x * y) == x * (b * y)
  {
  }

  lemma {:induction false} PowAdd(b: real, i: nat, j: nat)
    ensures Pow(b, i + j) == Pow(b, i) * Pow(b, j)
    decreases j
  {
    if j > 0 {
      var k := i + (j - 1);
      calc {
        Pow(b, i + j);
        { assert i + j == k + 1; }
        b * Pow(b, k);
        { PowAdd(b, i, j - 1); }
        b * (Pow(b, i) * Pow(b, j - 1));
        { MulRearrange(b, Pow(b, i), Pow(b, j - 1)); }
        Pow(b, i) * (b * Pow(b, j - 1));
      }
    }
  }

  /** A base of at least one never shrinks below one. */
  lemma {:induction false} PowAtLeastOne(b: real, n: nat)
    requires b >= 1.0
    ensures Pow(b, n) >= 1.0
    decreases n
  {
    if n > 0 {
      PowAtLeastOne(b, n - 1);
      var p := Pow(b, n - 1);
      assert Pow(b, n) == b * p;
      assert b * p >= 1.0 * p;
    }
  }

  /** A base above one grows strictly with at least one factor. */
  lemma PowAboveOne(b: real, n: nat)
    requires b > 1.0 && n >= 1
    ensures Pow(b, n) > 1.0
  {
    var p := Pow(b, n - 1);
    PowAtLeastOne(b, n - 1);
    assert Pow(b, n) == b * p;
    assert b * p >= b * 1.0;
  }

  /** Products of ordered positive factors are ordered. */
  lemma MulMonotone(a: real, b: real, c: real, d: real)
    requires 0.0 < a <= b && 0.0 < c <= d
    ensures a * c <= b * d
  {
    assert a * c <= b * c;
    assert b * c <= b * d;
  }

  /** For positive bases, raising to the same power preserves order. */
  lemma {:induction false} PowMonotoneBase(b1: real, b2: real, n: nat)
    requires 0.0 < b1 <= b2
    ensures Pow(b1, n) <= Pow(b2, n)
    decreases n
  {
    if n > 0 {
      PowMonotoneBase(b1, b2, n - 1);
      MulMonotone(b1, b2, Pow(b1, n - 1), Pow(b2, n - 1));
    }
  }

  /** Bernoulli-style bound: b^n - 1 <= n (b - 1) b^n for b >= 1. */
  lemma {:induction false} PowGrowthBound(b: real, n: nat)
    requires b >= 1.0
    ensures Pow(b, n) - 1.0 <= (n as real) * (b - 1.0) * Pow(b, n)
    decreases n
  {
    if n > 0 {
      PowGrowthBound(b, n - 1);
      PowAtLeastOne(b, n);
      GrowthStep(b, Pow(b, n - 1), (n - 1) as real);
    }
  }

  /** One step of the Bernoulli-style bound, with the power abstracted as p. */
  lemma GrowthStep(b: real, p: real, k: real)
    requires b >= 1.0 && b * p >= 1.0
    requires p - 1.0 <= k * (b - 1.0) * p
    ensures b * p - 1.0 <= (k + 1.0) * (b - 1.0) * (b * p)
  {
    var d, q := b - 1.0, b * p;
    ScaleLe(b, p - 1.0, k * d * p);
    assert b * (k * d * p) == k * d * q;
    assert q - 1.0 == b * (p - 1.0) + d;
    ScaleLe(d, 1.0, q);
    assert (k + 1.0) * d * q == k * d * q + d * q;
  }

  /** Scaling by a non-negative factor preserves order. */
  lemma ScaleLe(c: real, x: real, y: real)
    requires c >= 0.0 && x <= y
    ensures c * x <= c * y
  {
  }
}
