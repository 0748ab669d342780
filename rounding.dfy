/** Half-up rounding to a number of decimal places, shared by the server
    calculator and the client summary (both define the same `roundHalfUp`).
    Values are reals; the floating-point epsilon bias of the source is not
    modelled, so ties are exact. */
module Rounding {

  /** 10^n as a positive integer. */
  function Pow10(n: nat): (r: nat)
    ensures r >= 1
  {
    if n == 0 then 1 else 10 * Pow10(n - 1)
  }

  /** `Math.round(value * 10^precision) / 10^precision`, where `Math.round`
      rounds half towards positive infinity: floor(x + 1/2). */
  function RoundHalfUp(value: real, precision: nat): real
  {
    (GridIndex(value, precision) as real) / (Pow10(precision) as real)
  }

  /** The grid point `Math.round` picks, counted in steps of 10^-precision. */
  function GridIndex(value: real, precision: nat): int
  {
    (value * (Pow10(precision) as real) + 0.5).Floor
  }

  /** `r` is a whole multiple of 10^-precision. */
  predicate OnGrid(r: real, precision: nat)
  {
    IsWhole(r * (Pow10(precision) as real))
  }

  predicate IsWhole(x: real)
  {
    x.Floor as real == x
  }

  /** The result lies on the grid of 10^-precision and within half a grid
      step of the value, with an exact tie going up: value - step/2 < r <=
      value + step/2. */
  lemma RoundHalfUpIsNearest(value: real, precision: nat)
    ensures OnGrid(RoundHalfUp(value, precision), precision)
    ensures var half := 0.5 / (Pow10(precision) as real);
            value - half < RoundHalfUp(value, precision) <= value + half
  {
    QuotientTimesFactor(GridIndex(value, precision) as real, Pow10(precision) as real, RoundHalfUp(value, precision));
    WholeScaleIsOnGrid(GridIndex(value, precision), precision, RoundHalfUp(value, precision));
    Bracket(value, Pow10(precision) as real, GridIndex(value, precision) as real);
  }

  /** A value that scales to a whole number is on the grid. */
  lemma WholeScaleIsOnGrid(i: int, precision: nat, r: real)
    requires r * (Pow10(precision) as real) == i as real
    ensures OnGrid(r, precision)
  {
    assert IsWhole(i as real);
  }

  /** Nothing else on the grid satisfies the nearest-with-ties-up bounds, so
      the two facts of RoundHalfUpIsNearest determine the result. */
  lemma RoundHalfUpIsUnique(value: real, precision: nat, r: real)
    requires OnGrid(r, precision)
    requires var half := 0.5 / (Pow10(precision) as real);
             value - half < r <= value + half
    ensures r == RoundHalfUp(value, precision)
  {
    RoundHalfUpIsNearest(value, precision);
    SameGridPoint(value, Pow10(precision) as real, r, RoundHalfUp(value, precision));
  }

  /** A value already on the grid is left unchanged. */
  lemma RoundHalfUpKeepsGridValues(value: real, precision: nat)
    requires OnGrid(value, precision)
    ensures RoundHalfUp(value, precision) == value
  {
    RoundHalfUpIsUnique(value, precision, value);
  }

  /** Two whole multiples of 1/factor within the same half-step bounds of a
      value are equal. */
  lemma SameGridPoint(value: real, factor: real, r: real, q: real)
    requires factor > 0.0
    requires IsWhole(r * factor) && IsWhole(q * factor)
    requires value - 0.5 / factor < r <= value + 0.5 / factor
    requires value - 0.5 / factor < q <= value + 0.5 / factor
    ensures r == q
  {
    var a := (r * factor).Floor;
    var b := (q * factor).Floor;
    Unbracket(value, factor, r);
    Unbracket(value, factor, q);
    SameIntegerInHalfOpenUnit(a, b, value * factor - 0.5);
    QuotientOfProduct(r, factor);
    QuotientOfProduct(q, factor);
  }

  /** Two integers in one half-open interval of length 1 coincide. */
  lemma SameIntegerInHalfOpenUnit(a: int, b: int, low: real)
    requires low < a as real <= low + 1.0
    requires low < b as real <= low + 1.0
    ensures a == b
  {
  }

  lemma QuotientTimesFactor(k: real, factor: real, r: real)
    requires factor > 0.0 && r == k / factor
    ensures r * factor == k
  {
  }

  lemma QuotientOfProduct(r: real, factor: real)
    requires factor > 0.0
    ensures (r * factor) / factor == r
  {
  }

  /** From k <= v*f + 1/2 < k + 1 to v - 1/(2f) < k/f <= v + 1/(2f). */
  lemma Bracket(value: real, factor: real, k: real)
    requires factor > 0.0
    requires k <= value * factor + 0.5 < k + 1.0
    ensures value - 0.5 / factor < k / factor <= value + 0.5 / factor
  {
    assert k / factor - (value + 0.5 / factor) == (k - value * factor - 0.5) / factor;
    assert k / factor - (value - 0.5 / factor) == (k - value * factor + 0.5) / factor;
  }

  /** The converse scaling: v - 1/(2f) < r <= v + 1/(2f) gives
      v*f - 1/2 < r*f <= v*f + 1/2. */
  lemma Unbracket(value: real, factor: real, r: real)
    requires factor > 0.0
    requires value - 0.5 / factor < r <= value + 0.5 / factor
    ensures value * factor - 0.5 < r * factor <= value * factor + 0.5
  {
    assert r * factor - (value * factor + 0.5) == (r - (value + 0.5 / factor)) * factor;
    assert r * factor - (value * factor - 0.5) == (r - (value - 0.5 / factor)) * factor;
  }

  /** Rounding half up to 2 places: 2.345 becomes 2.35 (the tie goes up). */
  lemma RoundTieGoesUp()
    ensures RoundHalfUp(2.345, 2) == 2.35
  {
  }

  /** Rounding 1/3 to 4 places gives 0.3333. */
  lemma RoundOneThird()
    ensures RoundHalfUp(1.0 / 3.0, 4) == 0.3333
  {
  }
}
