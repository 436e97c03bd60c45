/** Small facts about products of reals that the solver does not find unaided.
    They carry no meaning of their own; the model's lemmas lean on them. */
module RealArith {

  lemma MulNonneg(a: real, b: real)
    requires 0.0 <= a && 0.0 <= b
    ensures 0.0 <= a * b
  {
  }

  /** Multiplying by a non-negative factor keeps an inequality. */
  lemma MulMono(a: real, b: real, c: real)
    requires a <= b && 0.0 <= c
    ensures a * c <= b * c
  {
    assert b * c - a * c == (b - a) * c;
    MulNonneg(b - a, c);
  }

  /** A factor in [0,1] does not enlarge a non-negative number. */
  lemma MulByFraction(t: real, d: real)
    requires 0.0 <= t <= 1.0 && 0.0 <= d
    ensures 0.0 <= t * d <= d
  {
    MulNonneg(t, d);
    MulMono(t, 1.0, d);
  }

  /** With a positive factor, a product has the sign of the other factor. */
  lemma SignOfProduct(a: real, b: real)
    requires 0.0 < a
    ensures 0.0 <= a * b <==> 0.0 <= b
    ensures a * b <= 0.0 <==> b <= 0.0
  {
    if b < 0.0 {
      MulMono(b, 0.0, a);
      assert a * b < 0.0;
    }
    if 0.0 < b {
      assert 0.0 < a * b;
    }
  }

  /** A positive factor can be cancelled from both sides of `<=`. */
  lemma CancelFactor(a: real, b: real, c: real)
    requires 0.0 < c
    ensures a * c <= b * c <==> a <= b
  {
    assert b * c - a * c == (b - a) * c;
    SignOfProduct(c, b - a);
  }

  /** Non-negative factors that both grow give a product that grows. */
  lemma ProductMono(a: real, b: real, c: real, d: real)
    requires 0.0 <= a <= b && 0.0 <= c <= d
    ensures a * c <= b * d
  {
    MulMono(a, b, c);
    MulMono(c, d, b);
  }

  /** The two weights `1 - t` and `t` of a linear interpolation sum to one. */
  lemma Distribute(x: real, t: real)
    ensures x * (1.0 - t) + x * t == x
  {
  }

  /** Interpolating from `x` towards a larger `y` never goes below `x`. */
  lemma LerpAboveLower(x: real, y: real, t: real)
    requires 0.0 <= t && x <= y
    ensures x <= x * (1.0 - t) + y * t
  {
    MulMono(x, y, t);
    Distribute(x, t);
  }

  /** Interpolating from `x` towards a larger `y` with `t <= 1` never passes `y`. */
  lemma LerpBelowUpper(x: real, y: real, t: real)
    requires t <= 1.0 && x <= y
    ensures x * (1.0 - t) + y * t <= y
  {
    MulMono(x, y, 1.0 - t);
    Distribute(y, t);
  }

  /** A non-zero divisor divides itself once and zero not at all. */
  lemma DivSelf(d: real)
    requires d != 0.0
    ensures d / d == 1.0 && 0.0 / d == 0.0
  {
  }

  /** `MulMono` on natural numbers. */
  lemma MulMonoNat(a: nat, b: nat, c: nat)
    requires a <= b
    ensures a * c <= b * c
  {
    assert b * c == a * c + (b - a) * c;
  }
}
