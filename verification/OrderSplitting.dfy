/**
 * Splitting one order into slices: how many, how large under arbitrary random noise, and how many
 * of them are shown. Random draws are inputs, so every statement holds for every draw.
 */
module OrderSplitting {
  import opened RealSeq

  datatype Strategy = Equal | Proportional | Random | Stealth

  datatype Splitter = Splitter(
    maxSliceSizePct: real,
    minSlices: int,
    maxSlices: int,
    stealthEnabled: bool)

  function Ceil(x: real): int {
    -((-x).Floor)
  }

  lemma {:induction false} CeilLeast(x: real, k: int)
    ensures k >= Ceil(x) <==> k as real >= x
  {
    var f := (-x).Floor;
    assert f as real <= -x < f as real + 1.0;
    if k as real >= x {
      assert (-k) as real <= -x;
    }
  }

  // ----- How many slices

  function MaxSingleSize(s: Splitter, depth: real): real {
    depth * s.maxSliceSizePct
  }

  function NumSlices(s: Splitter, orderSize: real, depth: real, avgSize: real): int
    requires MaxSingleSize(s, depth) > 0.0 ==> avgSize != 0.0
  {
    var cap := MaxSingleSize(s, depth);
    if cap <= 0.0 then s.minSlices
    else
      var needed := Ceil(orderSize / cap);
      var byAverage := Ceil(orderSize / (avgSize * 3.0));
      var most := if needed >= byAverage then needed else byAverage;
      var wanted := if most >= s.minSlices then most else s.minSlices;
      if wanted <= s.maxSlices then wanted else s.maxSlices
  }

  /** With k equal slices none exceeds the depth cap or three average trades. */
  predicate Admissible(s: Splitter, orderSize: real, depth: real, avgSize: real, k: int) {
    && k >= s.minSlices
    && orderSize <= k as real * (depth * s.maxSliceSizePct)
    && orderSize <= k as real * (avgSize * 3.0)
  }

  lemma {:induction false} NumSlicesInRange(s: Splitter, orderSize: real, depth: real, avgSize: real)
    requires MaxSingleSize(s, depth) > 0.0 ==> avgSize != 0.0
    requires s.minSlices <= s.maxSlices
    ensures s.minSlices <= NumSlices(s, orderSize, depth, avgSize) <= s.maxSlices
    ensures depth * s.maxSliceSizePct <= 0.0 ==> NumSlices(s, orderSize, depth, avgSize) == s.minSlices
  {}

  /** The count is the least admissible one, cut at the maximum. */
  lemma {:induction false} NumSlicesLeast(s: Splitter, orderSize: real, depth: real, avgSize: real, k: int)
    requires MaxSingleSize(s, depth) > 0.0 && avgSize > 0.0
    ensures k < s.maxSlices ==>
        (Admissible(s, orderSize, depth, avgSize, k) <==> k >= NumSlices(s, orderSize, depth, avgSize))
  {
    var cap := MaxSingleSize(s, depth);
    CeilLeast(orderSize / cap, k);
    CeilLeast(orderSize / (avgSize * 3.0), k);
    DivideCompares(orderSize, cap, k as real);
    DivideCompares(orderSize, avgSize * 3.0, k as real);
  }

  /** Below the maximum, equal slices respect both caps. */
  lemma {:induction false} EqualSlicesCapped(s: Splitter, orderSize: real, depth: real, avgSize: real)
    requires depth * s.maxSliceSizePct > 0.0 && avgSize > 0.0 && s.minSlices >= 1
    requires NumSlices(s, orderSize, depth, avgSize) < s.maxSlices
    ensures var n := NumSlices(s, orderSize, depth, avgSize);
      && n >= 1
      && orderSize / n as real <= depth * s.maxSliceSizePct
      && orderSize / n as real <= 3.0 * avgSize
  {
    var n := NumSlices(s, orderSize, depth, avgSize);
    NumSlicesLeast(s, orderSize, depth, avgSize, n);
    DivideCompares(orderSize, n as real, MaxSingleSize(s, depth));
    DivideCompares(orderSize, n as real, 3.0 * avgSize);
  }

  // ----- Slices carved off a remainder

  /** The two ways to carve slices off what is left of the order, which differ in the floor and in the cap. */
  datatype Carving = Stealthy | Randomly

  /** The least size drawn: a part of the base size. */
  function Least(c: Carving, base: real): real {
    if c == Stealthy then base * 0.3 else base * 0.5
  }

  /** The most that may be cut off what is left. */
  function Cap(c: Carving, left: real): real {
    if c == Stealthy then left * 0.5 else left * 0.8
  }

  /** What the largest cut leaves. */
  function Kept(c: Carving, left: real): real {
    if c == Stealthy then left * 0.5 else left * 0.2
  }

  /** A drawn size, raised to the floor and then cut to a share of what remains. */
  function Carve(c: Carving, base: real, drawn: real, left: real): real {
    Min(Max(drawn, Least(c, base)), Cap(c, left))
  }

  /** What remains of `total` after k slices. */
  function Remaining(c: Carving, total: real, base: real, drawn: seq<real>, k: nat): real
    requires k <= |drawn|
  {
    if k == 0 then total
    else
      var before := Remaining(c, total, base, drawn, k - 1);
      before - Carve(c, base, drawn[k - 1], before)
  }

  /** The k-th of n carved slices: a cut of the remainder, or all of it for the last one. */
  function SliceAt(c: Carving, total: real, base: real, drawn: seq<real>, n: nat, k: nat): real
    requires k < n && |drawn| == n - 1
  {
    var left := Remaining(c, total, base, drawn, k);
    if k == n - 1 then left else Carve(c, base, drawn[k], left)
  }

  lemma {:induction false} RemainingPositive(c: Carving, total: real, base: real, drawn: seq<real>, k: nat)
    requires k <= |drawn| && total > 0.0
    ensures Remaining(c, total, base, drawn, k) > 0.0
  {
    if k > 0 {
      RemainingPositive(c, total, base, drawn, k - 1);
    }
  }

  /** What k largest cuts leave. */
  function Decayed(c: Carving, total: real, k: nat): real {
    if k == 0 then total else Kept(c, Decayed(c, total, k - 1))
  }

  lemma {:induction false} DecayedIsPower(c: Carving, total: real, k: nat)
    ensures Decayed(c, total, k) == total * Power(if c == Stealthy then 0.5 else 0.2, k)
  {
    if k > 0 {
      DecayedIsPower(c, total, k - 1);
    }
  }

  /** The remainder never falls faster than by the largest cut every time, whatever is drawn. */
  lemma {:induction false} RemainingAtLeast(c: Carving, total: real, base: real, drawn: seq<real>, k: nat)
    requires k <= |drawn|
    ensures Remaining(c, total, base, drawn, k) >= Decayed(c, total, k)
  {
    if k > 0 {
      RemainingAtLeast(c, total, base, drawn, k - 1);
    }
  }

  /** Draws too large to matter do cut that much every time. */
  lemma {:induction false} RemainingAfterLargeDraws(c: Carving, total: real, base: real, drawn: seq<real>, k: nat)
    requires k <= |drawn| && total >= 0.0 && forall i :: 0 <= i < |drawn| ==> drawn[i] >= total
    ensures 0.0 <= Remaining(c, total, base, drawn, k) == Decayed(c, total, k) <= total
  {
    if k > 0 {
      RemainingAfterLargeDraws(c, total, base, drawn, k - 1);
    }
  }

  /** total less k cuts of the least size. */
  function UpperBound(total: real, least: real, k: nat): real {
    if k == 0 then total else UpperBound(total, least, k - 1) - least
  }

  lemma {:induction false} UpperBoundIsLinear(total: real, least: real, k: nat)
    ensures UpperBound(total, least, k) == total - k as real * least
  {
    if k > 0 { UpperBoundIsLinear(total, least, k - 1); }
  }

  /** The least sizes of n - 1 slices leave room for one base size. */
  lemma {:induction false} RoomLeft(total: real, base: real, least: real, n: nat, k: nat)
    requires k < n && total == base * n as real && 0.0 <= least <= base
    ensures base <= UpperBound(total, least, k)
  {
    UpperBoundIsLinear(total, least, k);
    RoomForCuts(base, least, n as real, k as real);
  }

  lemma {:induction false} RoomForCuts(base: real, least: real, n: real, k: real)
    requires 0.0 <= k <= n - 1.0 && 0.0 <= least <= base
    ensures base <= base * n - k * least
  {
    Scale(least, base, k);
    Scale(k, n - 1.0, base);
    assert (n - 1.0) * base == base * n - base;
  }

  /** Nor slower than by the least size a slice: a cut that falls short of it leaves less than a base size. */
  lemma {:induction false} RemainingAtMost(c: Carving, total: real, base: real, drawn: seq<real>, n: nat, k: nat)
    requires k < n && k <= |drawn| && total == base * n as real && base >= 0.0
    ensures Remaining(c, total, base, drawn, k) <= UpperBound(total, Least(c, base), k)
  {
    if k > 0 {
      RemainingAtMost(c, total, base, drawn, n, k - 1);
      RoomLeft(total, base, Least(c, base), n, k);
    }
  }

  /** Draws at or below the floor leave exactly what the floors leave. */
  lemma {:induction false} RemainingAfterLowDraws(c: Carving, total: real, base: real, drawn: seq<real>, n: nat, k: nat)
    requires k < n && k <= |drawn| && total == base * n as real && base >= 0.0
    requires forall i :: 0 <= i < |drawn| ==> drawn[i] <= Least(c, base)
    ensures Remaining(c, total, base, drawn, k) == UpperBound(total, Least(c, base), k)
  {
    if k > 0 {
      RemainingAfterLowDraws(c, total, base, drawn, n, k - 1);
      RoomLeft(total, base, Least(c, base), n, k - 1);
    }
  }

  // ----- The slice-size loops

  /** The sizes drawn before any bound: one base size plus noise. */
  function Drawn(base: real, noise: seq<real>): (d: seq<real>)
    ensures |d| == |noise| && forall i :: 0 <= i < |d| ==> d[i] == base + noise[i]
  {
    seq(|noise|, i requires 0 <= i < |noise| => base + noise[i])
  }

  /** The sizes are carved off the order, slice by slice, with these draws. */
  ghost predicate IsCarved(c: Carving, total: real, n: nat, noise: seq<real>, sizes: seq<real>)
    requires n >= 1 && |noise| == n - 1
  {
    var base := total / n as real;
    && |sizes| == n
    && forall k :: 0 <= k < n ==> sizes[k] == SliceAt(c, total, base, Drawn(base, noise), n, k)
  }

  /** `noise[i]` is the i-th draw of `normal(0, base * 0.15)`. */
  method StealthSizes(total: real, n: nat, noise: seq<real>) returns (sizes: seq<real>)
    requires n >= 1 && |noise| == n - 1
    ensures IsCarved(Stealthy, total, n, noise, sizes)
  {
    sizes := [];
    var remaining := total;
    var base := total / n as real;
    ghost var drawn := Drawn(base, noise);
    for i := 0 to n - 1
      invariant |sizes| == i
      invariant remaining == Remaining(Stealthy, total, base, drawn, i)
      invariant forall k :: 0 <= k < i ==> sizes[k] == SliceAt(Stealthy, total, base, drawn, n, k)
    {
      var size := base + noise[i];
      size := Max(size, base * 0.3);
      size := Min(size, remaining * 0.5);
      sizes := sizes + [size];
      remaining := remaining - size;
    }
    sizes := sizes + [remaining];
  }

  /** `noise[i]` is the i-th draw of `uniform(-variance, variance)`. */
  method RandomSizes(total: real, n: nat, noise: seq<real>) returns (sizes: seq<real>)
    requires n >= 1 && |noise| == n - 1
    ensures IsCarved(Randomly, total, n, noise, sizes)
  {
    var base := total / n as real;
    sizes := [];
    var remaining := total;
    ghost var drawn := Drawn(base, noise);
    for i := 0 to n - 1
      invariant |sizes| == i
      invariant remaining == Remaining(Randomly, total, base, drawn, i)
      invariant forall k :: 0 <= k < i ==> sizes[k] == SliceAt(Randomly, total, base, drawn, n, k)
    {
      var size := base + noise[i];
      size := Max(size, base * 0.5);
      size := Min(size, remaining * 0.8);
      sizes := sizes + [size];
      remaining := remaining - size;
    }
    sizes := sizes + [remaining];
  }

  lemma {:induction false} CarvedPrefixSum(c: Carving, total: real, n: nat, noise: seq<real>, sizes: seq<real>, k: nat)
    requires n >= 1 && |noise| == n - 1 && IsCarved(c, total, n, noise, sizes) && k < n
    ensures Sum(sizes[..k]) == total - Remaining(c, total, total / n as real, Drawn(total / n as real, noise), k)
  {
    if k > 0 {
      CarvedPrefixSum(c, total, n, noise, sizes, k - 1);
      assert sizes[..k] == sizes[..k - 1] + [sizes[k - 1]];
      SumAppend(sizes[..k - 1], sizes[k - 1]);
    }
  }

  /** Carved slices add up to the order, whatever was drawn. */
  lemma {:induction false} CarvedConserve(c: Carving, total: real, n: nat, noise: seq<real>, sizes: seq<real>)
    requires n >= 1 && |noise| == n - 1 && IsCarved(c, total, n, noise, sizes)
    ensures Sum(sizes) == total
  {
    var last := n - 1;
    CarvedPrefixSum(c, total, n, noise, sizes, last);
    assert sizes == sizes[..last] + [sizes[last]];
    SumAppend(sizes[..last], sizes[last]);
  }

  /** ... and are all positive for a positive order. */
  lemma {:induction false} CarvedPositive(c: Carving, total: real, n: nat, noise: seq<real>, sizes: seq<real>, k: nat)
    requires n >= 1 && |noise| == n - 1 && IsCarved(c, total, n, noise, sizes) && k < n && total > 0.0
    ensures sizes[k] > 0.0
  {
    var base := EvenShare(total, n);
    RemainingPositive(c, total, base, Drawn(base, noise), k);
  }

  /**
   * Each size but the last in terms of the sizes before it: the base size plus its noise, not below the floor
   * (0.3 of the base for stealth, half of it for random) nor above the cap (half of what is left, or 0.8 of it).
   */
  lemma {:induction false} CarvedRule(c: Carving, total: real, n: nat, noise: seq<real>, sizes: seq<real>, k: nat)
    requires n >= 1 && |noise| == n - 1 && IsCarved(c, total, n, noise, sizes) && k < n - 1
    ensures var base, left := total / n as real, total - Sum(sizes[..k]);
      var floor := if c == Stealthy then base * 0.3 else base * 0.5;
      var cap := if c == Stealthy then left * 0.5 else left * 0.8;
      && sizes[k] <= cap
      && (floor <= base + noise[k] <= cap ==> sizes[k] == base + noise[k])
      && (base + noise[k] < floor <= cap ==> sizes[k] == floor)
      && (cap < floor || cap < base + noise[k] ==> sizes[k] == cap)
  {
    CarvedPrefixSum(c, total, n, noise, sizes, k);
  }

  // ----- The last slice

  lemma {:induction false} EvenShare(total: real, n: nat) returns (base: real)
    requires n >= 1 && total > 0.0
    ensures base == total / n as real && base > 0.0 && base * n as real == total
  {
    base := total / n as real;
    QuotientPositive(total, n as real);
  }

  /** The order less the floor of every slice but the last, as a part of the order. */
  lemma {:induction false} LastSliceForm(total: real, n: nat, base: real, floor: real)
    requires n >= 1 && base * n as real == total
    ensures UpperBound(total, base * floor, n - 1) == total * ((1.0 - floor) * n as real + floor) / n as real
  {
    var count := n as real;
    var f := (1.0 - floor) * count + floor;
    UpperBoundIsLinear(total, base * floor, n - 1);
    FloorForm(base, count, floor);
    Associate(base, f, count);
    QuotientIs(total * f, count, base * f);
  }

  lemma {:induction false} FloorForm(base: real, n: real, floor: real)
    ensures base * ((1.0 - floor) * n + floor) == base * n - (n - 1.0) * (base * floor)
  {
    Associate(base, n, floor);
  }

  /** What the floors of the other slices leave for the last one. */
  lemma {:induction false} FloorsLeave(c: Carving, total: real, n: nat, base: real)
    requires n >= 1 && base * n as real == total
    ensures UpperBound(total, Least(c, base), n - 1)
         == if c == Stealthy then total * (0.7 * n as real + 0.3) / n as real
            else total * (0.5 * n as real + 0.5) / n as real
  {
    LastSliceForm(total, n, base, if c == Stealthy then 0.3 else 0.5);
  }

  lemma {:induction false} LastIsRemainder(c: Carving, total: real, n: nat, noise: seq<real>, sizes: seq<real>)
    requires n >= 1 && |noise| == n - 1 && IsCarved(c, total, n, noise, sizes)
    ensures |sizes| == n
    ensures sizes[n - 1] == Remaining(c, total, total / n as real, Drawn(total / n as real, noise), n - 1)
  {}

  lemma {:induction false} LastCarvedSlice(c: Carving, total: real, n: nat, noise: seq<real>, sizes: seq<real>)
    requires n >= 1 && |noise| == n - 1 && IsCarved(c, total, n, noise, sizes) && total > 0.0
    ensures |sizes| == n && total / n as real * n as real == total
    ensures Decayed(c, total, n - 1) <= sizes[n - 1] <= UpperBound(total, Least(c, total / n as real), n - 1)
  {
    var base := EvenShare(total, n);
    LastIsRemainder(c, total, n, noise, sizes);
    RemainingAtLeast(c, total, base, Drawn(base, noise), n - 1);
    RemainingAtMost(c, total, base, Drawn(base, noise), n, n - 1);
  }

  lemma {:induction false} LowDraws(c: Carving, total: real, n: nat, noise: seq<real>, sizes: seq<real>)
    requires n >= 1 && |noise| == n - 1 && IsCarved(c, total, n, noise, sizes) && total > 0.0
    requires forall i :: 0 <= i < n - 1 ==> total / n as real + noise[i] <= Least(c, total / n as real)
    ensures |sizes| == n && total / n as real * n as real == total
    ensures sizes[n - 1] == UpperBound(total, Least(c, total / n as real), n - 1)
  {
    var base := EvenShare(total, n);
    LastIsRemainder(c, total, n, noise, sizes);
    RemainingAfterLowDraws(c, total, base, Drawn(base, noise), n, n - 1);
  }

  lemma {:induction false} LargeDraws(c: Carving, total: real, n: nat, noise: seq<real>, sizes: seq<real>)
    requires n >= 1 && |noise| == n - 1 && IsCarved(c, total, n, noise, sizes) && total > 0.0
    requires forall i :: 0 <= i < n - 1 ==> total / n as real + noise[i] >= total
    ensures |sizes| == n && sizes[n - 1] == Decayed(c, total, n - 1)
  {
    LastIsRemainder(c, total, n, noise, sizes);
    RemainingAfterLargeDraws(c, total, total / n as real, Drawn(total / n as real, noise), n - 1);
  }

  /** The last stealth slice is at least half of what was left each time, at most what the floors leave. */
  lemma {:induction false} LastStealthSlice(total: real, n: nat, noise: seq<real>, sizes: seq<real>)
    requires n >= 1 && |noise| == n - 1 && IsCarved(Stealthy, total, n, noise, sizes) && total > 0.0
    ensures |sizes| == n
    ensures total * Power(0.5, n - 1) <= sizes[n - 1] <= total * (0.7 * n as real + 0.3) / n as real
  {
    LastCarvedSlice(Stealthy, total, n, noise, sizes);
    DecayedIsPower(Stealthy, total, n - 1);
    FloorsLeave(Stealthy, total, n, total / n as real);
  }

  /** Both bounds are sharp: draws at or below the floor reach the upper one, draws of the whole order the lower. */
  lemma {:induction false} LastStealthSliceSharp(total: real, n: nat, noise: seq<real>, sizes: seq<real>)
    requires n >= 1 && |noise| == n - 1 && IsCarved(Stealthy, total, n, noise, sizes) && total > 0.0
    requires forall i :: 0 <= i < n - 1 ==> total / n as real + noise[i] <= total / n as real * 0.3
    ensures |sizes| == n && sizes[n - 1] == total * (0.7 * n as real + 0.3) / n as real
  {
    LowDraws(Stealthy, total, n, noise, sizes);
    FloorsLeave(Stealthy, total, n, total / n as real);
  }

  lemma {:induction false} LeastStealthSlice(total: real, n: nat, noise: seq<real>, sizes: seq<real>)
    requires n >= 1 && |noise| == n - 1 && IsCarved(Stealthy, total, n, noise, sizes) && total > 0.0
    requires forall i :: 0 <= i < n - 1 ==> total / n as real + noise[i] >= total
    ensures |sizes| == n && sizes[n - 1] == total * Power(0.5, n - 1)
  {
    LargeDraws(Stealthy, total, n, noise, sizes);
    DecayedIsPower(Stealthy, total, n - 1);
  }

  /** The last random slice is at least a fifth of what was left each time, at most what the floors leave. */
  lemma {:induction false} LastRandomSlice(total: real, n: nat, noise: seq<real>, sizes: seq<real>)
    requires n >= 1 && |noise| == n - 1 && IsCarved(Randomly, total, n, noise, sizes) && total > 0.0
    ensures |sizes| == n
    ensures total * Power(0.2, n - 1) <= sizes[n - 1] <= total * (0.5 * n as real + 0.5) / n as real
  {
    LastCarvedSlice(Randomly, total, n, noise, sizes);
    DecayedIsPower(Randomly, total, n - 1);
    FloorsLeave(Randomly, total, n, total / n as real);
  }

  lemma {:induction false} LastRandomSliceSharp(total: real, n: nat, noise: seq<real>, sizes: seq<real>)
    requires n >= 1 && |noise| == n - 1 && IsCarved(Randomly, total, n, noise, sizes) && total > 0.0
    requires forall i :: 0 <= i < n - 1 ==> total / n as real + noise[i] <= total / n as real * 0.5
    ensures |sizes| == n && sizes[n - 1] == total * (0.5 * n as real + 0.5) / n as real
  {
    LowDraws(Randomly, total, n, noise, sizes);
    FloorsLeave(Randomly, total, n, total / n as real);
  }

  lemma {:induction false} LeastRandomSlice(total: real, n: nat, noise: seq<real>, sizes: seq<real>)
    requires n >= 1 && |noise| == n - 1 && IsCarved(Randomly, total, n, noise, sizes) && total > 0.0
    requires forall i :: 0 <= i < n - 1 ==> total / n as real + noise[i] >= total
    ensures |sizes| == n && sizes[n - 1] == total * Power(0.2, n - 1)
  {
    LargeDraws(Randomly, total, n, noise, sizes);
    DecayedIsPower(Randomly, total, n - 1);
  }

  /** What a stealth split has left after k slices is at least total / 2^k. */
  lemma {:induction false} StealthRemainder(total: real, n: nat, noise: seq<real>, sizes: seq<real>, k: nat)
    requires n >= 1 && |noise| == n - 1 && IsCarved(Stealthy, total, n, noise, sizes) && k < n
    ensures total - Sum(sizes[..k]) >= total * Power(0.5, k)
  {
    var left := total - Sum(sizes[..k]);
    CarvedRemainder(Stealthy, total, n, noise, sizes, k);
    StealthDecay(total, k, left);
  }

  lemma {:induction false} StealthDecay(total: real, k: nat, left: real)
    requires left >= Decayed(Stealthy, total, k)
    ensures left >= total * Power(0.5, k)
  {
    DecayedIsPower(Stealthy, total, k);
  }

  lemma {:induction false} CarvedRemainder(c: Carving, total: real, n: nat, noise: seq<real>, sizes: seq<real>, k: nat)
    requires n >= 1 && |noise| == n - 1 && IsCarved(c, total, n, noise, sizes) && k < n
    ensures total - Sum(sizes[..k]) >= Decayed(c, total, k)
  {
    CarvedPrefixSum(c, total, n, noise, sizes, k);
    RemainingAtLeast(c, total, total / n as real, Drawn(total / n as real, noise), k);
  }

  // ----- Proportional and equal sizes

  /** The i-th of n evenly spaced values from 1 down to 0.5. */
  function Weight(n: nat, i: nat): (w: real)
    requires i < n
    ensures 0.5 <= w <= 1.0
  {
    if n == 1 then 1.0
    else
      WeightInRange(n, i);
      1.0 - 0.5 * (i as real / (n - 1) as real)
  }

  /** `linspace(1, 0.5, n)`. */
  function Weights(n: nat): (w: seq<real>)
    requires n >= 1
    ensures |w| == n && forall i :: 0 <= i < n ==> w[i] == Weight(n, i)
  {
    seq(n, i requires 0 <= i < n => Weight(n, i))
  }

  lemma {:induction false} WeightInRange(n: nat, i: nat)
    requires i < n && n > 1
    ensures 0.0 <= i as real / (n - 1) as real <= 1.0
  {
    DivideCompares(i as real, (n - 1) as real, 1.0);
    DivideCompares(i as real, (n - 1) as real, 0.0);
  }

  lemma {:induction false} SumPositive(s: seq<real>)
    requires |s| > 0 && forall i :: 0 <= i < |s| ==> s[i] > 0.0
    ensures Sum(s) > 0.0
  {
    if |s| > 1 { SumPositive(s[..|s| - 1]); }
  }

  lemma {:induction false} SumScaled(s: seq<real>, t: seq<real>, c: real)
    requires |s| == |t| && forall i :: 0 <= i < |s| ==> t[i] == c * s[i]
    ensures Sum(t) == c * Sum(s)
  {
    if |s| > 0 {
      SumScaled(s[..|s| - 1], t[..|t| - 1], c);
    }
  }

  /** What distinguishes the sizes of each strategy. */
  ghost predicate ShapedBy(strategy: Strategy, total: real, n: nat, noise: seq<real>, sizes: seq<real>)
    requires n >= 1 && |noise| == n - 1
  {
    match strategy
    case Equal => forall i :: 0 <= i < |sizes| ==> sizes[i] == total / n as real
    case Proportional => Falling(total, sizes)
    case Random => IsCarved(Randomly, total, n, noise, sizes)
    case Stealth => IsCarved(Stealthy, total, n, noise, sizes)
  }

  /** Strictly and evenly falling to half the first size. */
  ghost predicate Falling(total: real, sizes: seq<real>) {
    && (|sizes| > 1 ==> sizes[0] == 2.0 * sizes[|sizes| - 1])
    && (forall i :: 0 < i < |sizes| - 1 ==> sizes[i] - sizes[i + 1] == sizes[i - 1] - sizes[i])
    && forall i, j :: 0 <= i < j < |sizes| && total > 0.0 ==> sizes[i] > sizes[j]
  }

  /** The sizes a strategy assigns: n of them, adding up to the order, all positive when the order is. */
  method SliceSizes(total: real, n: nat, strategy: Strategy, noise: seq<real>) returns (sizes: seq<real>)
    requires n >= 1 && |noise| == n - 1
    ensures |sizes| == n
    ensures Sum(sizes) == total
    ensures total > 0.0 ==> forall i :: 0 <= i < n ==> sizes[i] > 0.0
    ensures ShapedBy(strategy, total, n, noise, sizes)
  {
    match strategy
    case Equal =>
      sizes := EqualSizes(total, n);
    case Proportional =>
      sizes := ProportionalSizes(total, n);
    case Random =>
      sizes := RandomSizes(total, n, noise);
      CarvedSizes(Randomly, total, n, noise, sizes);
    case Stealth =>
      sizes := StealthSizes(total, n, noise);
      CarvedSizes(Stealthy, total, n, noise, sizes);
  }

  lemma {:induction false} CarvedSizes(c: Carving, total: real, n: nat, noise: seq<real>, sizes: seq<real>)
    requires n >= 1 && |noise| == n - 1 && IsCarved(c, total, n, noise, sizes)
    ensures Sum(sizes) == total
    ensures total > 0.0 ==> forall i :: 0 <= i < |sizes| ==> sizes[i] > 0.0
  {
    CarvedConserve(c, total, n, noise, sizes);
    if total > 0.0 {
      forall k | 0 <= k < |sizes| ensures sizes[k] > 0.0 {
        CarvedPositive(c, total, n, noise, sizes, k);
      }
    }
  }

  method EqualSizes(total: real, n: nat) returns (sizes: seq<real>)
    requires n >= 1
    ensures |sizes| == n && Sum(sizes) == total
    ensures forall i :: 0 <= i < n ==> sizes[i] == total / n as real
    ensures total > 0.0 ==> forall i :: 0 <= i < n ==> sizes[i] > 0.0
  {
    sizes := seq(n, _ => total / n as real);
    SumConstant(sizes, total / n as real);
    if total > 0.0 { QuotientPositive(total, n as real); }
  }

  function Scaled(s: seq<real>, c: real): (t: seq<real>)
    ensures |t| == |s| && forall i :: 0 <= i < |t| ==> t[i] == c * s[i]
  {
    seq(|s|, i requires 0 <= i < |s| => c * s[i])
  }

  method ProportionalSizes(total: real, n: nat) returns (sizes: seq<real>)
    requires n >= 1
    ensures |sizes| == n && Sum(sizes) == total
    ensures total > 0.0 ==> forall i :: 0 <= i < n ==> sizes[i] > 0.0
    ensures Falling(total, sizes)
  {
    var weights := Weights(n);
    var sum := Sum(weights);
    SumPositive(weights);
    var unit := total / sum;
    sizes := Scaled(weights, unit);
    if total > 0.0 { QuotientPositive(total, sum); }
    NormalisedTotal(weights, total, sum, unit);
    ProportionalShape(total, n, unit);
  }

  /** Weights scaled by the total over their sum add up to the total. */
  lemma {:induction false} NormalisedTotal(weights: seq<real>, total: real, sum: real, unit: real)
    requires sum == Sum(weights) && sum != 0.0 && unit == total / sum
    ensures Sum(Scaled(weights, unit)) == total
  {
    SumScaled(weights, Scaled(weights, unit), unit);
    assert unit * sum == total;
  }

  lemma {:induction false} ProportionalShape(total: real, n: nat, unit: real)
    requires n >= 1 && (total > 0.0 ==> unit > 0.0)
    ensures total > 0.0 ==> forall i :: 0 <= i < n ==> Scaled(Weights(n), unit)[i] > 0.0
    ensures Falling(total, Scaled(Weights(n), unit))
  {
    ScaledHalves(n, unit);
    if total > 0.0 { ScaledWeights(n, unit); }
    forall i | 0 < i < n - 1
      ensures Scaled(Weights(n), unit)[i] - Scaled(Weights(n), unit)[i + 1]
           == Scaled(Weights(n), unit)[i - 1] - Scaled(Weights(n), unit)[i]
    {
      EvenStep(n, i, unit);
    }
  }

  lemma {:induction false} ScaledHalves(n: nat, unit: real)
    requires n >= 1
    ensures n > 1 ==> Scaled(Weights(n), unit)[0] == 2.0 * Scaled(Weights(n), unit)[n - 1]
  {
    if n > 1 { WeightsHalve(n); }
  }

  lemma {:induction false} EvenStep(n: nat, i: nat, unit: real)
    requires 0 < i < n - 1
    ensures var sizes := Scaled(Weights(n), unit); sizes[i] - sizes[i + 1] == sizes[i - 1] - sizes[i]
  {
    WeightStep(n, i - 1);
    WeightStep(n, i);
    StepScaled(Weights(n)[i - 1], Weights(n)[i], Weights(n)[i + 1], unit);
  }

  lemma {:induction false} WeightStep(n: nat, i: nat)
    requires i + 1 < n
    ensures Weights(n)[i] - Weights(n)[i + 1] == 0.5 / (n - 1) as real
  {
    var m := (n - 1) as real;
    QuotientIs((i + 1) as real, m, i as real / m + 1.0 / m);
    QuotientIs(0.5, m, 0.5 * (1.0 / m));
  }

  lemma {:induction false} StepScaled(a: real, b: real, c: real, unit: real)
    requires a - b == b - c
    ensures unit * b - unit * c == unit * a - unit * b
  {
    assert unit * (a - b) == unit * (b - c);
  }

  lemma {:induction false} ScaledWeights(n: nat, unit: real)
    requires n >= 1 && unit > 0.0
    ensures forall i :: 0 <= i < n ==> Scaled(Weights(n), unit)[i] > 0.0
    ensures forall i, j :: 0 <= i < j < n ==> Scaled(Weights(n), unit)[i] > Scaled(Weights(n), unit)[j]
  {
    var w := Weights(n);
    forall i, j | 0 <= i < j < n ensures w[i] > w[j] { WeightsFall(n, i, j); }
    ScaledKeepsOrder(w, unit);
  }

  lemma {:induction false} ScaledKeepsOrder(w: seq<real>, unit: real)
    requires unit > 0.0
    requires forall i :: 0 <= i < |w| ==> w[i] > 0.0
    requires forall i, j :: 0 <= i < j < |w| ==> w[i] > w[j]
    ensures forall i :: 0 <= i < |w| ==> Scaled(w, unit)[i] > 0.0
    ensures forall i, j :: 0 <= i < j < |w| ==> Scaled(w, unit)[i] > Scaled(w, unit)[j]
  {
    forall i | 0 <= i < |w| ensures Scaled(w, unit)[i] > 0.0 { ProductPositive(unit, w[i]); }
    forall i, j | 0 <= i < j < |w| ensures Scaled(w, unit)[i] > Scaled(w, unit)[j] {
      StrictScale(w[j], w[i], unit);
    }
  }

  lemma {:induction false} WeightsHalve(n: nat)
    requires n > 1
    ensures Weights(n)[0] == 1.0 && Weights(n)[n - 1] == 0.5
  {
    var m := (n - 1) as real;
    QuotientIs(0.0, m, 0.0);
    QuotientIs(m, m, 1.0);
  }

  lemma {:induction false} WeightsFall(n: nat, i: nat, j: nat)
    requires i < j < n
    ensures Weights(n)[i] > Weights(n)[j]
  {
    QuotientBelow(i as real, j as real, (n - 1) as real);
  }

  lemma {:induction false} QuotientBelow(a: real, b: real, m: real)
    requires a < b && m > 0.0
    ensures a / m < b / m
  {
    assert (b / m) * m == b;
    DivideCompares(a, m, b / m);
  }

  // ----- Visibility

  predicate SliceVisible(s: Splitter, index: nat, total: nat, strategy: Strategy) {
    strategy == Stealth && s.stealthEnabled ==> index as real < total as real * 0.3
  }

  function VisibleCount(s: Splitter, total: nat, strategy: Strategy, upTo: nat): nat {
    if upTo == 0 then 0
    else VisibleCount(s, total, strategy, upTo - 1) + (if SliceVisible(s, upTo - 1, total, strategy) then 1 else 0)
  }

  /** A stealth split shows exactly ceil(0.3 n) of its slices, any other split all of them. */
  lemma {:induction false} VisibleSlices(s: Splitter, n: nat, strategy: Strategy)
    ensures VisibleCount(s, n, strategy, n)
         == if strategy == Stealth && s.stealthEnabled then Ceil(n as real * 0.3) else n
    ensures forall i: nat :: i < n ==>
        (SliceVisible(s, i, n, strategy)
         <==> strategy != Stealth || !s.stealthEnabled || i < Ceil(n as real * 0.3))
  {
    forall i: nat | i < n
      ensures SliceVisible(s, i, n, strategy)
         <==> strategy != Stealth || !s.stealthEnabled || i < Ceil(n as real * 0.3)
    {
      CeilLeast(n as real * 0.3, i);
    }
    VisiblePrefix(s, n, strategy, n);
    CeilLeast(n as real * 0.3, n);
  }

  lemma {:induction false} VisiblePrefix(s: Splitter, n: nat, strategy: Strategy, k: nat)
    ensures var shown := if strategy == Stealth && s.stealthEnabled then Ceil(n as real * 0.3) else k;
      VisibleCount(s, n, strategy, k) == if k <= shown then k else shown
  {
    if k > 0 {
      VisiblePrefix(s, n, strategy, k - 1);
      CeilLeast(n as real * 0.3, k - 1);
    } else {
      CeilLeast(n as real * 0.3, -1);
    }
  }
}
