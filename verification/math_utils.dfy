/**
 * The numeric helpers `lerp` and `normalizeToRange`, over exact reals
 * (the host's double rounding is not modelled).
 */
module MathUtils {

  /** Linear interpolation from `a` to `b` by the alpha `c`. */
  function Lerp(a: real, b: real, c: real): (r: real)
    ensures c == 0.0 ==> r == a
    ensures c == 1.0 ==> r == b
    ensures a == b ==> r == a
    ensures 0.0 <= c <= 1.0 && a <= b ==> a <= r <= b
    ensures 0.0 <= c <= 1.0 && b <= a ==> b <= r <= a
  {
    var r := a + (b - a) * c;
    LerpBounds(a, b, c);
    r
  }

  /** A product of two non-negative reals is non-negative. */
  lemma MulNonNegative(x: real, y: real)
    requires 0.0 <= x && 0.0 <= y
    ensures 0.0 <= x * y
  {
  }

  /** A fraction whose numerator lies between 0 and its positive denominator lies in [0, 1]. */
  lemma FractionInUnit(n: real, d: real)
    requires 0.0 <= n <= d && 0.0 < d
    ensures 0.0 <= n / d <= 1.0
  {
  }

  /** The product of a spread and an alpha in [0, 1] stays between 0 and the spread. */
  lemma LerpBounds(a: real, b: real, c: real)
    ensures 0.0 <= c <= 1.0 && a <= b ==> 0.0 <= (b - a) * c <= b - a
    ensures 0.0 <= c <= 1.0 && b <= a ==> b - a <= (b - a) * c <= 0.0
  {
    if 0.0 <= c <= 1.0 {
      if a <= b {
        MulNonNegative(b - a, c);
        MulNonNegative(b - a, 1.0 - c);
        assert (b - a) * (1.0 - c) == (b - a) - (b - a) * c;
      }
      if b <= a {
        MulNonNegative(a - b, c);
        MulNonNegative(a - b, 1.0 - c);
        assert (a - b) * (1.0 - c) == (a - b) - (a - b) * c;
        assert (b - a) * c == -((a - b) * c);
      }
    }
  }

  /** Maps `constant` from the range [rMin, rMax] onto the range [tMin, tMax]. */
  function NormalizeToRange(constant: real, rMin: real, rMax: real, tMin: real, tMax: real): (r: real)
    requires rMax != rMin
    ensures (r - tMin) * (rMax - rMin) == (constant - rMin) * (tMax - tMin)
    ensures constant == rMin ==> r == tMin
    ensures constant == rMax ==> r == tMax
  {
    var alpha := (constant - rMin) / (rMax - rMin);
    ScaledFraction(constant - rMin, rMax - rMin, tMax - tMin);
    alpha * (tMax - tMin) + tMin
  }

  /** Scaling a fraction and multiplying back by its denominator gives the scaled numerator. */
  lemma ScaledFraction(n: real, d: real, w: real)
    requires d != 0.0
    ensures (n / d) * w * d == n * w
  {
    var q := n / d;
    assert q * d == n;
    assert q * w * d == (q * d) * w;
  }

  /** With ascending ranges, a constant inside the source range lands inside the target range. */
  lemma {:induction false} NormalizeStaysInRange(constant: real, rMin: real, rMax: real, tMin: real, tMax: real)
    requires rMin < rMax && tMin <= tMax
    requires rMin <= constant <= rMax
    ensures tMin <= NormalizeToRange(constant, rMin, rMax, tMin, tMax) <= tMax
  {
    var alpha := (constant - rMin) / (rMax - rMin);
    FractionInUnit(constant - rMin, rMax - rMin);
    LerpBounds(tMin, tMax, alpha);
    assert alpha * (tMax - tMin) == (tMax - tMin) * alpha;
  }

  /** Normalising is interpolating by the normalised alpha: the two helpers agree. */
  lemma {:induction false} NormalizeIsLerpOfAlpha(constant: real, rMin: real, rMax: real, tMin: real, tMax: real)
    requires rMax != rMin
    ensures NormalizeToRange(constant, rMin, rMax, tMin, tMax)
         == Lerp(tMin, tMax, NormalizeToRange(constant, rMin, rMax, 0.0, 1.0))
  {
  }

  /** Normalising an interpolated value onto [0, 1] recovers the alpha. */
  lemma {:induction false} NormalizeInvertsLerp(a: real, b: real, c: real)
    requires a != b
    ensures NormalizeToRange(Lerp(a, b, c), a, b, 0.0, 1.0) == c
  {
    var x := Lerp(a, b, c);
    assert x - a == (b - a) * c;
    assert (x - a) / (b - a) == c;
  }
}
