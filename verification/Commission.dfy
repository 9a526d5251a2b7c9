/**
 Commission rounding. Amounts are exact reals; the rounding error of floating-point
 evaluation appears as an explicit error term.
 */
module Commission {
  /** One unit in the last place of a product of two four-decimal numbers. */
  const GRID: int := 100_000_000
  const EPSILON: real := 0.000000001

  predicate Eligible(enabled: bool, base: real, minTotal: real) {
    enabled && base >= minTotal
  }

  /** The cents computed from v * 100. */
  function Cents(x: real): int {
    (x + 0.5 + EPSILON).Floor
  }

  function ComputeCommission(base: real, percent: real): real {
    if percent <= 0.0 || base <= 0.0 then 0.0
    else
      var v := base * percent / 100.0;
      (Cents(v * 100.0) as real) / 100.0
  }

  /** A number with at most four decimals. */
  predicate FourDecimals(r: real, n: int) {
    r == (n as real) / 10000.0
  }

  /** `cents` is the integer nearest to `x`, and the larger of the two at a tie. */
  predicate NearestHalfUp(x: real, cents: int) {
    (cents as real) - 0.5 <= x < (cents as real) + 0.5
  }

  lemma {:induction false} CastProduct(a: nat, b: nat)
    ensures (a as real) * (b as real) == (a * b) as real
  {
    if b > 0 {
      CastProduct(a, b - 1);
      assert a * b == a * (b - 1) + a;
      assert (a as real) * (b as real) == (a as real) * ((b - 1) as real) + (a as real);
    }
  }

  /** The n-th multiple of 10^-8. */
  function OnGrid(n: int): real {
    (n as real) / (GRID as real)
  }

  lemma {:induction false} ScaledProduct(x: real, y: real)
    ensures (x / 10000.0) * (y / 10000.0) == (x * y) / 100000000.0
  {
  }

  /** The exact number of cents owed is a multiple of 10^-8. */
  lemma {:induction false} ProductOnGrid(base: real, percent: real, b: nat, p: nat)
    requires FourDecimals(base, b) && FourDecimals(percent, p)
    ensures base * percent / 100.0 * 100.0 == OnGrid(b * p)
  {
    CastProduct(b, p);
    calc {
      base * percent / 100.0 * 100.0;
      base * percent;
      ((b as real) / 10000.0) * ((p as real) / 10000.0);
      { ScaledProduct(b as real, p as real); }
      ((b as real) * (p as real)) / 100000000.0;
    }
  }

  /** On the grid an evaluation error in [-1e-9, 9e-9) never changes the rounded result. */
  lemma {:induction false} ErrorAbsorbed(n: int, error: real)
    requires -EPSILON <= error < 9.0 * EPSILON
    ensures NearestHalfUp(OnGrid(n), Cents(OnGrid(n) + error))
  {
    var m := n + GRID / 2;
    var q, r := m / GRID, m % GRID;
    assert m == q * GRID + r && 0 <= r <= GRID - 1;
    var x := OnGrid(n);
    assert x + 0.5 == (m as real) / (GRID as real) == (q as real) + (r as real) / (GRID as real);
    assert (r as real) / (GRID as real) <= 1.0 - 10.0 * EPSILON;
    assert (q as real) <= x + error + 0.5 + EPSILON < (q as real) + 1.0;
    assert Cents(x + error) == q;
  }

  ghost predicate AlwaysAbsorbed(error: real) {
    forall n: nat :: NearestHalfUp(OnGrid(n), Cents(OnGrid(n) + error))
  }

  /** The tolerated error interval is exact: outside it some four-decimal product rounds to
      the wrong cent. */
  lemma {:induction false} ToleranceIsExact(error: real)
    ensures AlwaysAbsorbed(error) <==> -EPSILON <= error < 9.0 * EPSILON
  {
    if -EPSILON <= error < 9.0 * EPSILON {
      forall n: nat
        ensures NearestHalfUp(OnGrid(n), Cents(OnGrid(n) + error))
      {
        ErrorAbsorbed(n, error);
      }
    } else if error < -EPSILON {
      var n: nat := GRID / 2;
      assert OnGrid(n) == 0.5;
      assert Cents(0.5 + error) <= 0;
      assert !NearestHalfUp(OnGrid(n), Cents(OnGrid(n) + error));
    } else {
      var n: nat := GRID / 2 - 1;
      assert OnGrid(n) == 0.5 - 10.0 * EPSILON;
      assert Cents(0.5 - 10.0 * EPSILON + error) >= 1;
      assert !NearestHalfUp(OnGrid(n), Cents(OnGrid(n) + error));
    }
  }

  /** For a base and percent with at most four decimals the commission is the half-up nearest
      cent of the exact amount, hence within half a cent of it, and any evaluation of v * 100
      that is off by at most 1e-9 gives the same result. */
  lemma {:induction false} CommissionIsHalfUpNearestCent(base: real, percent: real, b: nat, p: nat, error: real)
    requires FourDecimals(base, b) && FourDecimals(percent, p) && b > 0 && p > 0
    requires -EPSILON <= error <= EPSILON
    ensures var exact := base * percent / 100.0;
            var result := ComputeCommission(base, percent);
            && NearestHalfUp(exact * 100.0, Cents(exact * 100.0))
            && result * 100.0 == Cents(exact * 100.0) as real
            && -0.005 < result - exact <= 0.005
            && Cents(exact * 100.0 + error) == Cents(exact * 100.0)
  {
    ProductOnGrid(base, percent, b, p);
    ErrorAbsorbed(b * p, error);
    ErrorAbsorbed(b * p, 0.0);
  }

  /** Off the grid the epsilon rounds up too early exactly in the last 1e-9 below a tie. */
  lemma {:induction false} HalfUpExactlyUnlessJustBelowTie(x: real)
    ensures NearestHalfUp(x, Cents(x)) <==> x + 0.5 - ((x + 0.5).Floor as real) < 1.0 - EPSILON
  {
    var f := (x + 0.5).Floor;
    assert f as real <= x + 0.5 < f as real + 1.0;
    if x + 0.5 - (f as real) < 1.0 - EPSILON {
      assert Cents(x) == f;
    } else {
      assert Cents(x) == f + 1;
    }
  }

  lemma {:induction false} MonotoneProduct(a: real, b: real, c: real, d: real)
    requires 0.0 < a <= b && 0.0 < c <= d
    ensures 0.0 <= a * c <= b * d
  {
    assert a * c <= b * c;
    assert b * c <= b * d;
  }

  lemma {:induction false} CentsAreMonotone(x: real, y: real)
    requires 0.0 <= x <= y
    ensures 0 <= Cents(x) <= Cents(y)
  {
  }

  /** Dividing by 100 and multiplying by it again is exact over the reals. */
  lemma {:induction false} CommissionInCents(base: real, percent: real)
    requires base > 0.0 && percent > 0.0
    ensures ComputeCommission(base, percent) == (Cents(base * percent) as real) / 100.0
  {
    var product := base * percent;
    assert product / 100.0 * 100.0 == product;
  }

  lemma {:induction false} PositiveIsMonotone(base: real, base': real, percent: real, percent': real)
    requires 0.0 < base <= base' && 0.0 < percent <= percent'
    ensures 0.0 <= ComputeCommission(base, percent) <= ComputeCommission(base', percent')
  {
    CommissionInCents(base, percent);
    CommissionInCents(base', percent');
    MonotoneProduct(base, base', percent, percent');
    CentsAreMonotone(base * percent, base' * percent');
  }

  /** Never negative, and monotone in both arguments. */
  lemma {:induction false} CommissionIsMonotone(base: real, base': real, percent: real, percent': real)
    requires base <= base' && percent <= percent'
    ensures 0.0 <= ComputeCommission(base, percent) <= ComputeCommission(base', percent')
  {
    if base' > 0.0 && percent' > 0.0 {
      PositiveIsMonotone(base', base', percent', percent');
      if base > 0.0 && percent > 0.0 {
        PositiveIsMonotone(base, base', percent, percent');
      }
    }
  }
}
