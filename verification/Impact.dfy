/**
 * The market-impact model and the 20-step bisection that looks for the largest order whose
 * impact stays within a limit.
 */
module Impact {
  import opened RealSeq

  const STEPS := 20

  /** The bisection interval [0, 2 * desired] is cut into this many equal parts. */
  const PARTS := 0x10_0000

  datatype ImpactResult = ImpactResult(
    temporary: real,
    permanent: real,
    total: real,
    priceImpact: real,
    recoverySeconds: real)

  datatype Market = Market(price: real, depth: real, volatility: real, dailyVolume: real)

  class ImpactModel {
    var temporaryCoef: real
    var permanentCoef: real

    constructor ()
      ensures temporaryCoef == 0.3 && permanentCoef == 0.1
    {
      temporaryCoef, permanentCoef := 0.3, 0.1;
    }

    function CalculateImpact(size: real, m: Market): ImpactResult
      reads this
    {
      if m.depth <= 0.0 || m.dailyVolume <= 0.0 then
        ImpactResult(0.0, 0.0, 0.0, 0.0, 0.0)
      else
        var depthRatio := size / m.depth;
        var volumeRatio := size / (m.dailyVolume / 24.0);
        var volatilityFactor := 1.0 + m.volatility * 2.0;
        var temporary := depthRatio * temporaryCoef * 100.0 * volatilityFactor;
        var permanent := volumeRatio * permanentCoef * 100.0 * volatilityFactor;
        var total := temporary + permanent;
        ImpactResult(temporary, permanent, total, m.price * (total / 10000.0), 60.0 * (1.0 + depthRatio * 10.0))
    }

    /** The total impact of one unit of size. */
    function Rate(m: Market): real
      reads this
    {
      CalculateImpact(1.0, m).total
    }

    /** In closed form: 100 * (1 + 2 * volatility) * (temporary / depth + 24 * permanent / volume) a unit. */
    lemma {:induction false} RateFormula(m: Market)
      ensures m.depth <= 0.0 || m.dailyVolume <= 0.0 ==> Rate(m) == 0.0
      ensures m.depth > 0.0 && m.dailyVolume > 0.0 ==>
          Rate(m) == 100.0 * (1.0 + 2.0 * m.volatility)
                     * (temporaryCoef / m.depth + 24.0 * permanentCoef / m.dailyVolume)
    {
      if m.depth > 0.0 && m.dailyVolume > 0.0 {
        var hourly := m.dailyVolume / 24.0;
        var a, b := 1.0 / m.depth, 1.0 / hourly;
        QuotientIs(temporaryCoef, m.depth, a * temporaryCoef);
        assert b * m.dailyVolume == 24.0 by { assert b * hourly == 1.0; }
        QuotientIs(24.0 * permanentCoef, m.dailyVolume, b * permanentCoef);
        Distribute(a * temporaryCoef, b * permanentCoef, 1.0 + m.volatility * 2.0);
      }
    }

    /** The parts of the impact: temporary by depth, permanent by hourly volume, both widened by the volatility. */
    lemma {:induction false} ImpactParts(size: real, m: Market)
      ensures m.depth <= 0.0 || m.dailyVolume <= 0.0 ==> var r := CalculateImpact(size, m);
        r.temporary == r.permanent == r.total == r.priceImpact == r.recoverySeconds == 0.0
      ensures m.depth > 0.0 && m.dailyVolume > 0.0 ==> var r := CalculateImpact(size, m);
        && r.temporary * m.depth == 100.0 * temporaryCoef * size * (1.0 + 2.0 * m.volatility)
        && r.permanent * m.dailyVolume == 2400.0 * permanentCoef * size * (1.0 + 2.0 * m.volatility)
        && r.total == r.temporary + r.permanent && r.priceImpact * 10000.0 == m.price * r.total
        && r.recoverySeconds * m.depth == 60.0 * m.depth + 600.0 * size
    {
      if m.depth <= 0.0 || m.dailyVolume <= 0.0 { return; }
      var byDepth, byHour, f := size / m.depth, size / (m.dailyVolume / 24.0), 1.0 + m.volatility * 2.0;
      assert byDepth * m.depth == size;
      assert byHour * m.dailyVolume == 24.0 * size by { assert byHour * (m.dailyVolume / 24.0) == size; }
      Rearrange(byDepth, temporaryCoef, f, m.depth);
      Rearrange(byHour, permanentCoef, f, m.dailyVolume);
    }

    lemma {:induction false} ImpactIsLinear(size: real, m: Market)
      ensures CalculateImpact(size, m).total == size * Rate(m)
    {
      if m.depth > 0.0 && m.dailyVolume > 0.0 {
        var hourly := m.dailyVolume / 24.0;
        QuotientIs(size, m.depth, size * (1.0 / m.depth));
        QuotientIs(size, hourly, size * (1.0 / hourly));
        var f := 1.0 + m.volatility * 2.0;
        var a, b := 1.0 / m.depth, 1.0 / hourly;
        assert (size * a) * temporaryCoef * 100.0 * f == size * (a * temporaryCoef * 100.0 * f);
        assert (size * b) * permanentCoef * 100.0 * f == size * (b * permanentCoef * 100.0 * f);
      }
    }

    lemma {:induction false} FitsIsImpact(size: real, m: Market, limit: real)
      ensures Fits(size, Rate(m), limit) <==> CalculateImpact(size, m).total <= limit
    {
      ImpactIsLinear(size, m);
    }

    lemma {:induction false} RateNonNegative(m: Market)
      requires temporaryCoef >= 0.0 && permanentCoef >= 0.0 && 1.0 + m.volatility * 2.0 >= 0.0
      ensures Rate(m) >= 0.0
    {
      if m.depth > 0.0 && m.dailyVolume > 0.0 {
        QuotientPositive(1.0, m.depth);
        QuotientPositive(1.0, m.dailyVolume / 24.0);
        var f := 1.0 + m.volatility * 2.0;
        assert (1.0 / m.depth) * temporaryCoef >= 0.0;
        assert (1.0 / (m.dailyVolume / 24.0)) * permanentCoef >= 0.0;
        Scale(0.0, (1.0 / m.depth) * temporaryCoef * 100.0, f);
        Scale(0.0, (1.0 / (m.dailyVolume / 24.0)) * permanentCoef * 100.0, f);
      }
    }

    /** The guarantee in terms of the impact model itself, for any market whose volatility factor is not negative. */
    lemma {:induction false} SizeGuarantee(desired: real, maxImpact: real, m: Market, x: real)
      requires temporaryCoef >= 0.0 && permanentCoef >= 0.0 && 1.0 + m.volatility * 2.0 >= 0.0
      requires desired > 0.0 && maxImpact > 0.0
      ensures var size := OptimalSize(desired, Rate(m), maxImpact);
        && 0.0 <= size <= desired
        && CalculateImpact(size, m).total <= maxImpact
        && (CalculateImpact(desired, m).total <= maxImpact <==> size == desired)
        && (0.0 <= x <= desired && CalculateImpact(x, m).total <= maxImpact ==> x < size + desired / 0x8_0000 as real)
    {
      RateNonNegative(m);
      var rate := Rate(m);
      FitsIsImpact(OptimalSize(desired, rate, maxImpact), m, maxImpact);
      FitsIsImpact(desired, m, maxImpact);
      FitsIsImpact(x, m, maxImpact);
      WithinLimit(desired, rate, maxImpact);
      DesiredWhenAdmissible(desired, rate, maxImpact);
      if 0.0 <= x <= desired && Fits(x, rate, maxImpact) {
        NearBest(desired, rate, maxImpact, x);
      }
    }

    /** The test each bisection step makes. */
    method ImpactWithin(size: real, m: Market, maxImpact: real, ghost rate: real) returns (fits: bool)
      requires rate == Rate(m)
      ensures fits <==> Fits(size, rate, maxImpact)
    {
      var impact := CalculateImpact(size, m);
      FitsIsImpact(size, m, maxImpact);
      fits := impact.total <= maxImpact;
    }

    method EstimateOptimalSize(desired: real, maxImpact: real, m: Market) returns (size: real)
      ensures maxImpact <= 0.0 ==> size == 0.0
      ensures maxImpact > 0.0 ==> size == OptimalSize(desired, Rate(m), maxImpact)
    {
      if maxImpact <= 0.0 {
        return 0.0;
      }
      var low, high := 0.0, desired * 2.0;
      var optimal := 0.0;
      ghost var rate := Rate(m);
      // the interval, in grid points
      ghost var lo: nat, hi: nat := 0, PARTS;
      Pow2Twenty();
      for i := 0 to STEPS
        invariant lo <= hi <= PARTS && hi - lo == Pow2(STEPS - i)
        invariant low == Grid(desired, lo) && high == Grid(desired, hi) && optimal == low
        invariant Fits(low, rate, maxImpact)
        invariant hi == PARTS || !Fits(high, rate, maxImpact)
      {
        var mid := (low + high) / 2.0;
        var fits := ImpactWithin(mid, m, maxImpact, rate);
        ghost var middle := lo + Pow2(STEPS - i - 1);
        GridMiddle(desired, lo, hi, middle);
        if fits {
          optimal := mid;
          low := mid;
          lo := middle;
        } else {
          high := mid;
          hi := middle;
        }
      }
      BestStepIs(desired, rate, maxImpact, PARTS - 1, lo);
      size := Min(optimal, desired);
    }
  }

  lemma {:induction false} Rearrange(ratio: real, coef: real, f: real, base: real)
    ensures (ratio * coef * 100.0 * f) * base == 100.0 * coef * (ratio * base) * f
  {}

  lemma {:induction false} Distribute(x: real, y: real, f: real)
    ensures x * 100.0 * f + y * 100.0 * f == 100.0 * f * (x + y)
  {}

  // ----- Bisection arithmetic

  /** A size whose linear impact stays within the limit. */
  predicate Fits(size: real, rate: real, limit: real) {
    size * rate <= limit
  }

  function Pow2(n: nat): nat {
    if n == 0 then 1 else 2 * Pow2(n - 1)
  }

  lemma {:induction false} Pow2Twenty()
    ensures Pow2(20) == PARTS
  {
    assert Pow2(5) == 32;
    assert Pow2(10) == 1024;
    assert Pow2(15) == 32768;
  }

  /** The k-th point of the grid the bisection can reach: k * desired / 2^19. */
  function Grid(desired: real, k: nat): real {
    k as real * (desired * 2.0 / PARTS as real)
  }

  lemma {:induction false} GridMiddle(desired: real, lo: nat, hi: nat, middle: nat)
    requires lo + hi == 2 * middle
    ensures (Grid(desired, lo) + Grid(desired, hi)) / 2.0 == Grid(desired, middle)
  {
    var u := desired * 2.0 / PARTS as real;
    assert lo as real * u + hi as real * u == (lo as real + hi as real) * u;
  }

  /** The largest step k <= n whose size has an impact within the limit, or 0. */
  ghost function BestStep(desired: real, rate: real, limit: real, n: nat): nat {
    if n == 0 || Fits(Grid(desired, n), rate, limit) then n else BestStep(desired, rate, limit, n - 1)
  }

  /** What the search returns: the best grid point, cut at the desired size. */
  ghost function OptimalSize(desired: real, rate: real, limit: real): real {
    Min(Grid(desired, BestStep(desired, rate, limit, PARTS - 1)), desired)
  }

  lemma {:induction false} GridMonotone(desired: real, j: nat, k: nat)
    requires desired >= 0.0 && j <= k
    ensures 0.0 <= Grid(desired, j) <= Grid(desired, k)
  {
    var u := desired * 2.0 / PARTS as real;
    Scale(0.0, j as real, u);
    Scale(j as real, k as real, u);
  }

  lemma {:induction false} GridNext(desired: real, k: nat)
    ensures Grid(desired, k + 1) == Grid(desired, k) + desired / 0x8_0000 as real
  {}

  lemma {:induction false} FitsDownward(x: real, y: real, rate: real, limit: real)
    requires x <= y && rate >= 0.0 && Fits(y, rate, limit)
    ensures Fits(x, rate, limit)
  {
    Scale(x, y, rate);
  }

  /** The impact of one grid step; k steps have k times as much. */
  function StepImpact(desired: real, rate: real): real {
    desired * 2.0 / PARTS as real * rate
  }

  lemma {:induction false} GridFits(desired: real, rate: real, limit: real, k: nat)
    ensures Fits(Grid(desired, k), rate, limit) <==> k as real * StepImpact(desired, rate) <= limit
  {
    Associate(k as real, desired * 2.0 / PARTS as real, rate);
  }

  /** Whatever the signs of size and rate are, a grid point fits if a later one does. */
  lemma {:induction false} GridFitsDownward(desired: real, rate: real, limit: real, j: nat, k: nat)
    requires j <= k && limit > 0.0 && Fits(Grid(desired, k), rate, limit)
    ensures Fits(Grid(desired, j), rate, limit)
  {
    GridFits(desired, rate, limit, j);
    GridFits(desired, rate, limit, k);
    var g := StepImpact(desired, rate);
    if g >= 0.0 {
      Scale(j as real, k as real, g);
    } else {
      Scale(0.0, j as real, -g);
    }
  }

  lemma {:induction false} BestStepMaximal(desired: real, rate: real, limit: real, n: nat)
    ensures var b := BestStep(desired, rate, limit, n);
      && b <= n
      && (b > 0 ==> Fits(Grid(desired, b), rate, limit))
      && forall k :: b < k <= n ==> !Fits(Grid(desired, k), rate, limit)
  {
    if n > 0 && !Fits(Grid(desired, n), rate, limit) {
      BestStepMaximal(desired, rate, limit, n - 1);
    }
  }

  /** Where the bisection ends, with the next grid point too big or out of range, is the best step. */
  lemma {:induction false} BestStepIs(desired: real, rate: real, limit: real, n: nat, a: nat)
    requires limit > 0.0 && a <= n
    requires Fits(Grid(desired, a), rate, limit)
    requires a == n || !Fits(Grid(desired, a + 1), rate, limit)
    ensures BestStep(desired, rate, limit, n) == a
  {
    var b := BestStep(desired, rate, limit, n);
    BestStepMaximal(desired, rate, limit, n);
    if b > a {
      GridFitsDownward(desired, rate, limit, a + 1, b);
    }
  }

  // ----- What the search guarantees

  /** The size found is admissible and never exceeds what was asked for. */
  lemma {:induction false} WithinLimit(desired: real, rate: real, limit: real)
    requires desired >= 0.0 && rate >= 0.0 && limit > 0.0
    ensures 0.0 <= OptimalSize(desired, rate, limit) <= desired
    ensures Fits(OptimalSize(desired, rate, limit), rate, limit)
  {
    var b := BestStep(desired, rate, limit, PARTS - 1);
    BestStepMaximal(desired, rate, limit, PARTS - 1);
    GridMonotone(desired, 0, b);
    FitsDownward(OptimalSize(desired, rate, limit), Grid(desired, b), rate, limit);
  }

  /** No admissible size up to the desired one is larger by a 2^-19th of the desired size. */
  lemma {:induction false} NearBest(desired: real, rate: real, limit: real, x: real)
    requires desired > 0.0 && rate >= 0.0 && limit > 0.0
    requires 0.0 <= x <= desired && Fits(x, rate, limit)
    ensures x < OptimalSize(desired, rate, limit) + desired / 0x8_0000 as real
  {
    var b := BestStep(desired, rate, limit, PARTS - 1);
    BestStepMaximal(desired, rate, limit, PARTS - 1);
    GridNext(desired, b);
    if b == PARTS - 1 {
      assert Grid(desired, b) == desired * 2.0 - desired / 0x8_0000 as real;
    } else if Grid(desired, b + 1) <= x {
      FitsDownward(Grid(desired, b + 1), x, rate, limit);
    }
  }

  /** The desired size itself is returned exactly when it is admissible. */
  lemma {:induction false} DesiredWhenAdmissible(desired: real, rate: real, limit: real)
    requires desired >= 0.0 && rate >= 0.0 && limit > 0.0
    ensures OptimalSize(desired, rate, limit) == desired <==> Fits(desired, rate, limit)
  {
    var b := BestStep(desired, rate, limit, PARTS - 1);
    BestStepMaximal(desired, rate, limit, PARTS - 1);
    HalfGrid(desired);
    if Fits(desired, rate, limit) {
      assert b >= 0x8_0000;
      GridMonotone(desired, 0x8_0000, b);
    } else {
      WithinLimit(desired, rate, limit);
    }
  }

  lemma {:induction false} MonotoneInLimit(desired: real, rate: real, tight: real, loose: real)
    requires desired >= 0.0 && rate >= 0.0 && 0.0 < tight <= loose
    ensures OptimalSize(desired, rate, tight) <= OptimalSize(desired, rate, loose)
  {
    var b := BestStep(desired, rate, tight, PARTS - 1);
    var c := BestStep(desired, rate, loose, PARTS - 1);
    BestStepMaximal(desired, rate, tight, PARTS - 1);
    BestStepMaximal(desired, rate, loose, PARTS - 1);
    assert b <= c;
    GridMonotone(desired, b, c);
  }

  /** Sizes whose impact counts against the order, or for nothing, all fit. */
  lemma {:induction false} FavourableFits(desired: real, rate: real, limit: real, k: nat)
    requires desired * rate <= 0.0 && limit > 0.0
    ensures Fits(Grid(desired, k), rate, limit)
  {
    GridFits(desired, rate, limit, k);
    Scale(0.0, k as real, -(desired * rate));
    assert k as real * StepImpact(desired, rate) == k as real * (desired * rate) * (2.0 / PARTS as real);
  }

  /** A negative desired size is not cut at all: the result is almost twice as negative. */
  lemma {:induction false} NegativeOvershoots(desired: real, rate: real, limit: real)
    requires desired < 0.0 && rate >= 0.0 && limit > 0.0
    ensures OptimalSize(desired, rate, limit) == desired * 2.0 - desired / 0x8_0000 as real < desired
  {
    Scale(0.0, rate, -desired);
    FavourableFits(desired, rate, limit, PARTS - 1);
  }

  /** With a negative rate (a volatility below -1/2, say) every non-negative size fits and is returned. */
  lemma {:induction false} NegativeRate(desired: real, rate: real, limit: real)
    requires desired >= 0.0 && rate <= 0.0 && limit > 0.0
    ensures OptimalSize(desired, rate, limit) == desired
  {
    Scale(0.0, desired, -rate);
    FavourableFits(desired, rate, limit, PARTS - 1);
  }

  lemma {:induction false} HalfGrid(desired: real)
    ensures Grid(desired, 0x8_0000) == desired
  {}

  lemma {:induction false} NegativeGridMonotone(desired: real, j: nat, k: nat)
    requires desired < 0.0 && j <= k
    ensures Grid(desired, k) <= Grid(desired, j)
  {
    Scale(j as real, k as real, -(desired * 2.0 / PARTS as real));
  }

  /**
   * The result is within the limit for every desired size and every market, except where a negative desired
   * size is itself too large: then it is returned uncut.
   */
  lemma {:induction false} LimitKeptIff(desired: real, rate: real, limit: real)
    requires limit > 0.0
    ensures Fits(OptimalSize(desired, rate, limit), rate, limit) <==> desired >= 0.0 || Fits(desired, rate, limit)
    ensures desired < 0.0 && !Fits(desired, rate, limit) ==> OptimalSize(desired, rate, limit) == desired
  {
    if desired >= 0.0 {
      if rate >= 0.0 {
        WithinLimit(desired, rate, limit);
      } else {
        NegativeRate(desired, rate, limit);
        Scale(0.0, desired, -rate);
      }
    } else {
      var b := BestStep(desired, rate, limit, PARTS - 1);
      BestStepMaximal(desired, rate, limit, PARTS - 1);
      HalfGrid(desired);
      if Fits(desired, rate, limit) {
        NegativeGridMonotone(desired, 0x8_0000, b);
      } else if b >= 0x8_0000 {
        GridFitsDownward(desired, rate, limit, 0x8_0000, b);
      } else {
        NegativeGridMonotone(desired, b, 0x8_0000);
      }
    }
  }
}
