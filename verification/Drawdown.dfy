/**
 * The three running-peak loops that measure the maximum drawdown of an equity curve, and the
 * loop that measures the longest recovered stretch below the peak.
 */
module Drawdown {
  import opened Options
  import opened RealSeq

  // ----- Reference definitions

  /** The highest equity of a non-empty curve. */
  function Peak(e: seq<real>): real
    requires |e| > 0
  {
    if |e| == 1 then e[0] else Max(Peak(e[..|e| - 1]), e[|e| - 1])
  }

  lemma {:induction false} PeakIsHighest(e: seq<real>)
    requires |e| > 0
    ensures forall i :: 0 <= i < |e| ==> e[i] <= Peak(e)
    ensures exists i :: 0 <= i < |e| && e[i] == Peak(e)
  {
    var n := |e| - 1;
    if n > 0 {
      PeakIsHighest(e[..n]);
      var i :| 0 <= i < n && e[..n][i] == Peak(e[..n]);
      assert e[i] == Peak(e) || e[n] == Peak(e);
    } else {
      assert e[0] == Peak(e);
    }
  }

  lemma {:induction false} PeakExtends(e: seq<real>, k: nat)
    requires k < |e|
    ensures k > 0 ==> Peak(e[..k + 1]) == Max(Peak(e[..k]), e[k])
    ensures k == 0 ==> Peak(e[..k + 1]) == e[0]
  {
    assert e[..k + 1][..k] == e[..k];
  }

  /** The relative fall from `peak` to `now`. */
  function Fall(peak: real, now: real): real
    requires peak != 0.0
  {
    (peak - now) / peak
  }

  /** The fall from a running peak, of which a loop that gets past a zero peak counts nothing. */
  function Dip(peak: real, now: real): real {
    if peak == 0.0 then 0.0 else Fall(peak, now)
  }

  /** What the loops accumulate: the largest fall of the first n bars from the peak up to each of them. */
  function PeakFall(e: seq<real>, n: nat): real
    requires n <= |e|
  {
    if n == 0 then 0.0 else Max(PeakFall(e, n - 1), Dip(Peak(e[..n]), e[n - 1]))
  }

  lemma {:induction false} PeakPositive(e: seq<real>, n: nat)
    requires 0 < n <= |e| && e[0] > 0.0
    ensures Peak(e[..n]) > 0.0
  {
    PeakIsHighest(e[..n]);
    assert e[..n][0] > 0.0;
  }

  /** The largest relative fall from any bar with positive equity to a later bar, or itself. */
  ghost predicate IsMaxFall(e: seq<real>, d: real) {
    && (forall i, j :: 0 <= i <= j < |e| && e[i] > 0.0 ==> Fall(e[i], e[j]) <= d)
    && (exists i, j :: 0 <= i <= j < |e| && e[i] > 0.0 && Fall(e[i], e[j]) == d)
  }

  lemma {:induction false} MaxFallUnique(e: seq<real>, d: real, f: real)
    requires IsMaxFall(e, d) && IsMaxFall(e, f)
    ensures d == f
  {
    var i, j :| 0 <= i <= j < |e| && e[i] > 0.0 && Fall(e[i], e[j]) == d;
    var k, l :| 0 <= k <= l < |e| && e[k] > 0.0 && Fall(e[k], e[l]) == f;
  }

  lemma {:induction false} FallBound(peak: real, now: real, d: real)
    requires peak > 0.0
    ensures Fall(peak, now) <= d <==> peak - now <= d * peak
    ensures Fall(peak, now) >= d <==> peak - now >= d * peak
  {
    DivideCompares(peak - now, peak, d);
  }

  /** Measured from a higher peak, the fall to the same non-negative equity is at least as large. */
  lemma {:induction false} FallMonotone(low: real, high: real, now: real)
    requires 0.0 < low <= high && now >= 0.0
    ensures Fall(low, now) <= Fall(high, now)
  {
    var r := now / high;
    DivideCompares(now, high, 0.0);
    assert now == r * high;
    QuotientIs(high - now, high, 1.0 - r);
    FallBound(low, now, 1.0 - r);
    Scale(low, high, r);
  }

  /** No fall to bar k exceeds the one from the running peak. */
  lemma {:induction false} FallFromPeak(e: seq<real>, i: nat, k: nat)
    requires i <= k < |e| && e[0] > 0.0 && e[i] > 0.0 && e[k] >= 0.0
    ensures Peak(e[..k + 1]) > 0.0 && Fall(e[i], e[k]) <= Fall(Peak(e[..k + 1]), e[k])
  {
    PeakPositive(e, k + 1);
    PeakIsHighest(e[..k + 1]);
    assert e[..k + 1][i] == e[i];
    FallMonotone(e[i], Peak(e[..k + 1]), e[k]);
  }

  /** The fall from the running peak is a fall between two bars, and no less than none at all. */
  lemma {:induction false} PeakFallAttained(e: seq<real>, k: nat) returns (top: nat)
    requires k < |e| && e[0] > 0.0
    ensures top <= k && e[top] == Peak(e[..k + 1]) > 0.0 && Fall(e[top], e[k]) >= 0.0
  {
    var g := e[..k + 1];
    PeakPositive(e, k + 1);
    PeakIsHighest(g);
    var t :| 0 <= t < |g| && g[t] == Peak(g);
    top := t;
    assert g[k] <= Peak(g);
    FallBound(Peak(g), e[k], 0.0);
  }

  /** One more bar: the largest fall is the old one or the fall from the running peak to it. */
  lemma {:induction false} MaxFallExtends(e: seq<real>, k: nat, d: real)
    requires k < |e| && e[0] > 0.0 && forall i :: 0 <= i < |e| ==> e[i] >= 0.0
    requires if k == 0 then d == 0.0 else IsMaxFall(e[..k], d)
    ensures Peak(e[..k + 1]) > 0.0
    ensures IsMaxFall(e[..k + 1], Max(d, Fall(Peak(e[..k + 1]), e[k])))
  {
    var f, g := e[..k], e[..k + 1];
    var top := PeakFallAttained(e, k);
    var last := Fall(Peak(g), e[k]);
    forall i, j | 0 <= i <= j < |g| && g[i] > 0.0 ensures Fall(g[i], g[j]) <= Max(d, last) {
      if j < k {
        assert Fall(f[i], f[j]) <= d;
      } else {
        FallFromPeak(e, i, k);
      }
    }
    if d > last {
      var i, j :| 0 <= i <= j < |f| && f[i] > 0.0 && Fall(f[i], f[j]) == d;
      assert Fall(g[i], g[j]) == d;
    } else {
      assert Fall(g[top], g[k]) == last;
    }
  }

  /** The running-peak loops compute the maximum over all pairs of bars, for curves that never go negative. */
  lemma {:induction false} PeakFallIsMaxFall(e: seq<real>, n: nat)
    requires 0 < n <= |e| && e[0] > 0.0 && forall i :: 0 <= i < |e| ==> e[i] >= 0.0
    ensures IsMaxFall(e[..n], PeakFall(e, n))
  {
    var k := n - 1;
    if k > 0 {
      PeakFallIsMaxFall(e, k);
    }
    MaxFallExtends(e, k, PeakFall(e, k));
    PeakFallNext(e, k);
  }

  lemma {:induction false} PeakFallNext(e: seq<real>, k: nat)
    requires k < |e| && Peak(e[..k + 1]) > 0.0
    ensures PeakFall(e, k + 1) == Max(PeakFall(e, k), Fall(Peak(e[..k + 1]), e[k]))
  {}

  /** A curve that starts above zero and stays between two bounds. */
  predicate InRange(e: seq<real>, lo: real, hi: real) {
    |e| > 0 && e[0] > 0.0 && forall i :: 0 <= i < |e| ==> lo <= e[i] <= hi
  }

  ghost predicate PeakFallIsMax(e: seq<real>) {
    IsMaxFall(e, PeakFall(e, |e|))
  }

  /** Relative to half the peak, a negative equity is further down than relative to the peak. */
  lemma {:induction false} FallsToNegative(lo: real, hi: real)
    requires lo < 0.0 < hi
    ensures Fall(hi, lo) == 1.0 - lo / hi && Fall(hi, lo) > 0.0
    ensures Fall(hi / 2.0, lo) > Fall(hi, lo)
  {
    var r := lo / hi;
    QuotientIs(hi - lo, hi, 1.0 - r);
    QuotientIs(hi / 2.0 - lo, hi / 2.0, 1.0 - 2.0 * r);
    DivideCompares(lo, hi, 0.0);
    assert r != 0.0;
  }

  lemma {:induction false} PeaksOfThree(a: real, b: real, c: real)
    requires c <= a <= b
    ensures var e := [a, b, c]; Peak(e[..1]) == a && Peak(e[..2]) == b && Peak(e[..3]) == b
  {
    var e := [a, b, c];
    PeakExtends(e, 0);
    PeakExtends(e, 1);
    PeakExtends(e, 2);
  }

  /**
   * On a curve that goes negative the two can differ: from hi/2 the fall to a negative equity is
   * relatively larger than from the peak hi.
   */
  lemma {:induction false} NegativeEquityDiffers(lo: real, hi: real) returns (e: seq<real>)
    requires lo < 0.0 < hi
    ensures InRange(e, lo, hi) && !PeakFallIsMax(e)
    ensures PeakFall(e, |e|) == 1.0 - lo / hi
  {
    e := [hi / 2.0, hi, lo];
    PeaksOfThree(hi / 2.0, hi, lo);
    FallsToNegative(lo, hi);
    assert PeakFall(e, 1) == 0.0;
    assert PeakFall(e, 2) == 0.0;
    assert PeakFall(e, 3) == Fall(hi, lo);
    assert Fall(e[0], e[2]) > PeakFall(e, 3);
  }

  /** Over all curves in a range the figure is the maximum over pairs exactly when the range is not negative. */
  lemma {:induction false} PeakFallIsMaxIff(lo: real, hi: real)
    requires lo < hi && hi > 0.0
    ensures (forall e :: InRange(e, lo, hi) ==> PeakFallIsMax(e)) <==> lo >= 0.0
  {
    if lo >= 0.0 {
      forall e | InRange(e, lo, hi) ensures PeakFallIsMax(e) {
        assert e[..|e|] == e;
        PeakFallIsMaxFall(e, |e|);
      }
    } else {
      var e := NegativeEquityDiffers(lo, hi);
    }
  }

  /** The figure lies in [0, 1], and below 1 exactly when the equity never touches zero. */
  lemma {:induction false} PeakFallRange(e: seq<real>)
    requires |e| > 0 && e[0] > 0.0 && forall i :: 0 <= i < |e| ==> e[i] >= 0.0
    ensures 0.0 <= PeakFall(e, |e|) <= 1.0
    ensures PeakFall(e, |e|) < 1.0 <==> forall i :: 0 <= i < |e| ==> e[i] > 0.0
  {
    PeakFallIsMaxFall(e, |e|);
    assert e[..|e|] == e;
    MaxFallRange(e, PeakFall(e, |e|));
  }

  lemma {:induction false} MaxFallRange(e: seq<real>, d: real)
    requires |e| > 0 && e[0] > 0.0 && forall i :: 0 <= i < |e| ==> e[i] >= 0.0
    requires IsMaxFall(e, d)
    ensures 0.0 <= d <= 1.0
    ensures d < 1.0 <==> forall i :: 0 <= i < |e| ==> e[i] > 0.0
  {
    assert Fall(e[0], e[0]) <= d;
    FallBound(e[0], e[0], 0.0);
    var i, j :| 0 <= i <= j < |e| && e[i] > 0.0 && Fall(e[i], e[j]) == d;
    FallRange(e[i], e[j]);
    forall k | 0 <= k < |e| && e[k] == 0.0 ensures d >= 1.0 {
      FallRange(e[0], e[k]);
      assert Fall(e[0], e[k]) <= d;
    }
  }

  lemma {:induction false} FallRange(peak: real, now: real)
    requires peak > 0.0 && now >= 0.0
    ensures Fall(peak, now) <= 1.0
    ensures Fall(peak, now) < 1.0 <==> now > 0.0
  {
    FallBound(peak, now, 1.0);
  }

  // ----- Time below the peak

  /** Bar i does not exceed the peak before it; the first bar counts as such. */
  predicate Under(e: seq<real>, i: nat)
    requires i < |e|
  {
    i == 0 || e[i] <= Peak(e[..i])
  }

  /** A bar is under the peak when some earlier bar is at least as high. */
  lemma {:induction false} UnderIsOvershadowed(e: seq<real>, i: nat)
    requires 0 < i < |e|
    ensures Under(e, i) <==> exists j :: 0 <= j < i && e[j] >= e[i]
  {
    PeakIsHighest(e[..i]);
    if Under(e, i) {
      var j :| 0 <= j < i && e[..i][j] == Peak(e[..i]);
      assert e[j] >= e[i];
    }
    if exists j :: 0 <= j < i && e[j] >= e[i] {
      var j :| 0 <= j < i && e[j] >= e[i];
      assert e[..i][j] <= Peak(e[..i]);
    }
  }

  /** A maximal run [s, t) of bars under the peak that ends with a new high at t. */
  ghost predicate Recovered(e: seq<real>, s: nat, t: nat) {
    && s < t < |e|
    && (forall i :: s <= i < t ==> Under(e, i))
    && !Under(e, t)
    && (s == 0 || !Under(e, s - 1))
  }

  /** The length of the longest recovered run that ends before `n`, or 0. */
  ghost predicate IsLongestRecovery(e: seq<real>, n: nat, d: nat) {
    && (forall s: nat, t: nat :: Recovered(e, s, t) && t < n ==> t - s <= d)
    && (d > 0 ==> exists s: nat, t: nat :: Recovered(e, s, t) && t < n && t - s == d)
  }

  lemma {:induction false} LongestRecoveryUnique(e: seq<real>, n: nat, d: nat, f: nat)
    requires IsLongestRecovery(e, n, d) && IsLongestRecovery(e, n, f)
    ensures d == f
  {}

  /** Two recovered runs that end at the same bar began at the same bar. */
  lemma {:induction false} RecoveryStart(e: seq<real>, s: nat, r: nat, t: nat)
    requires Recovered(e, s, t) && Recovered(e, r, t)
    ensures s == r
  {}

  /** A recovered run that ends at bar n replaces the longest one if it is longer. */
  lemma {:induction false} LongestWith(e: seq<real>, n: nat, start: nat, d: nat)
    requires IsLongestRecovery(e, n, d) && Recovered(e, start, n)
    ensures IsLongestRecovery(e, n + 1, if n - start > d then n - start else d)
  {
    forall s: nat, t: nat | Recovered(e, s, t) && t < n + 1
      ensures t - s <= (if n - start > d then n - start else d)
    {
      if t == n { RecoveryStart(e, s, start, n); }
    }
  }

  lemma {:induction false} LongestWithout(e: seq<real>, n: nat, d: nat)
    requires IsLongestRecovery(e, n, d) && n < |e|
    requires Under(e, n) || n == 0 || !Under(e, n - 1)
    ensures IsLongestRecovery(e, n + 1, d)
  {
    forall s: nat, t: nat | Recovered(e, s, t) && t < n + 1 ensures t < n {
      assert t > 0 && Under(e, t - 1);
    }
  }

  // ----- The loops

  lemma {:induction false} PeakFallNonNegative(e: seq<real>, n: nat)
    requires n <= |e|
    ensures PeakFall(e, n) >= 0.0
  {
    if n > 0 { PeakFallNonNegative(e, n - 1); }
  }

  /** The loop's comparison with the old peak and its fall, as PeakFall accumulates them. */
  lemma {:induction false} PeakFallStep(e: seq<real>, i: nat, peak: real)
    requires i < |e|
    requires peak == if i == 0 then e[0] else Peak(e[..i])
    ensures Peak(e[..i + 1]) == Max(peak, e[i])
    ensures PeakFall(e, i + 1) == Max(PeakFall(e, i), Dip(Max(peak, e[i]), e[i]))
    ensures e[i] > peak ==> PeakFall(e, i + 1) == PeakFall(e, i)
  {
    PeakExtends(e, i);
    PeakFallNonNegative(e, i);
    if e[i] > peak {
      assert Dip(e[i], e[i]) == 0.0;
    }
  }

  /** The running peak at bar i is zero: the loop of the return metrics divides by it. */
  predicate ZeroPeak(e: seq<real>, i: nat)
    requires i < |e|
  {
    Peak(e[..i + 1]) == 0.0
  }

  /** One of the first n bars makes the loop divide by zero; the risk loop divides on no new high. */
  ghost predicate Divides(e: seq<real>, n: nat, newHighsToo: bool)
    requires n <= |e|
  {
    exists i :: 0 <= i < n && ZeroPeak(e, i) && (newHighsToo || Under(e, i))
  }

  /** The state of the search for recovered runs after i bars; `start` is -1 outside a run. */
  ghost predicate InRun(e: seq<real>, i: nat, start: int, duration: nat)
    requires i <= |e|
  {
    && -1 <= start < i
    && (start == -1 ==> i == 0 || !Under(e, i - 1))
    && (start >= 0 ==> (forall j :: start <= j < i ==> Under(e, j)) && (start == 0 || !Under(e, start - 1)))
    && IsLongestRecovery(e, i, duration)
  }

  /** A new high ends the run, if there is one. */
  lemma {:induction false} RunEnds(e: seq<real>, i: nat, start: int, duration: nat)
    requires i < |e| && InRun(e, i, start, duration) && !Under(e, i)
    ensures InRun(e, i + 1, -1, if start != -1 && i - start > duration then i - start else duration)
  {
    if start != -1 {
      assert Recovered(e, start, i);
      LongestWith(e, i, start, duration);
    } else {
      LongestWithout(e, i, duration);
    }
  }

  /** A bar under the peak continues the run or begins one. */
  lemma {:induction false} RunGoesOn(e: seq<real>, i: nat, start: int, duration: nat)
    requires i < |e| && InRun(e, i, start, duration) && Under(e, i)
    ensures InRun(e, i + 1, if start == -1 then i else start, duration)
  {
    LongestWithout(e, i, duration);
  }

  /** The state of the risk loop after i bars, none of which made it divide by zero. */
  ghost predicate RiskState(e: seq<real>, i: nat, peak: real, maxDd: real, start: int, duration: nat)
    requires 0 < |e| && i <= |e|
  {
    && peak == (if i == 0 then e[0] else Peak(e[..i]))
    && maxDd == PeakFall(e, i) && !Divides(e, i, false)
    && InRun(e, i, start, duration)
  }

  lemma {:induction false} RiskNewHigh(e: seq<real>, i: nat, peak: real, maxDd: real, start: int, duration: nat)
    requires i < |e| && RiskState(e, i, peak, maxDd, start, duration) && e[i] > peak
    ensures RiskState(e, i + 1, e[i], maxDd, -1,
                      if start != -1 && i - start > duration then i - start else duration)
  {
    PeakFallStep(e, i, peak);
    assert !Under(e, i);
    RunEnds(e, i, start, duration);
    NoDivision(e, i, false);
  }

  lemma {:induction false} RiskNoHigh(e: seq<real>, i: nat, peak: real, maxDd: real, start: int, duration: nat)
    requires i < |e| && RiskState(e, i, peak, maxDd, start, duration) && e[i] <= peak && peak != 0.0
    ensures RiskState(e, i + 1, peak, Max(maxDd, (peak - e[i]) / peak), if start == -1 then i else start, duration)
  {
    PeakFallStep(e, i, peak);
    RunGoesOn(e, i, start, duration);
    NoDivision(e, i, false);
  }

  lemma {:induction false} NoDivision(e: seq<real>, i: nat, newHighsToo: bool)
    requires i < |e| && !Divides(e, i, newHighsToo)
    requires !ZeroPeak(e, i) || (!newHighsToo && !Under(e, i))
    ensures !Divides(e, i + 1, newHighsToo)
  {}

  lemma {:induction false} ZeroPeakDivides(e: seq<real>, i: nat, peak: real)
    requires i < |e| && peak == (if i == 0 then e[0] else Peak(e[..i])) && e[i] <= peak && peak == 0.0
    ensures Divides(e, |e|, false)
  {
    PeakExtends(e, i);
    assert ZeroPeak(e, i) && Under(e, i);
  }

  datatype RiskFigures = RiskFigures(maxDrawdown: real, duration: nat)

  /**
   * The drawdown part of the risk metrics; fewer than two points leave both figures at 0. No value
   * is returned when the loop divides by a zero peak: on a bar that is no new high.
   */
  method RiskDrawdown(e: seq<real>) returns (r: Option<RiskFigures>)
    ensures r.None? <==> |e| >= 2 && Divides(e, |e|, false)
    ensures r.Some? ==> r.value.maxDrawdown == PeakFall(e, |e|) && IsLongestRecovery(e, |e|, r.value.duration)
  {
    if |e| < 2 {
      if |e| == 1 { PeakFallStep(e, 0, e[0]); }
      return Some(RiskFigures(0.0, 0));
    }
    var peak, maxDd := e[0], 0.0;
    var start: int, duration: nat := -1, 0;
    for i := 0 to |e|
      invariant RiskState(e, i, peak, maxDd, start, duration)
    {
      if e[i] > peak {
        RiskNewHigh(e, i, peak, maxDd, start, duration);
        peak := e[i];
        if start != -1 {
          if i - start > duration {
            duration := i - start;
          }
          start := -1;
        }
      } else {
        if peak == 0.0 {
          ZeroPeakDivides(e, i, peak);
          return None;
        }
        RiskNoHigh(e, i, peak, maxDd, start, duration);
        var dd := (peak - e[i]) / peak;
        if dd > maxDd {
          maxDd := dd;
        }
        if start == -1 {
          start := i;
        }
      }
    }
    r := Some(RiskFigures(maxDd, duration));
  }

  /** The drawdown the return metrics divide by for the Calmar ratio; this loop divides on new highs too. */
  method ReturnDrawdown(e: seq<real>) returns (r: Option<real>)
    ensures r.None? <==> |e| >= 2 && Divides(e, |e|, true)
    ensures r.Some? ==> r.value == PeakFall(e, |e|)
  {
    if |e| < 2 {
      if |e| == 1 { PeakFallStep(e, 0, e[0]); }
      return Some(0.0);
    }
    var peak, maxDd := e[0], 0.0;
    for i := 0 to |e|
      invariant peak == if i == 0 then e[0] else Peak(e[..i])
      invariant maxDd == PeakFall(e, i) && !Divides(e, i, true)
    {
      PeakFallStep(e, i, peak);
      if e[i] > peak {
        peak := e[i];
      }
      if peak == 0.0 {
        assert ZeroPeak(e, i);
        return None;
      }
      var dd := (peak - e[i]) / peak;
      if dd > maxDd {
        maxDd := dd;
      }
    }
    r := Some(maxDd);
  }

  /** A curve that starts above zero never divides by zero; so both loops return, and the same figure. */
  lemma {:induction false} PositiveStartDivides(e: seq<real>, newHighsToo: bool)
    requires |e| > 0 && e[0] > 0.0
    ensures !Divides(e, |e|, newHighsToo)
  {
    forall i | 0 <= i < |e| ensures !ZeroPeak(e, i) {
      PeakPositive(e, i + 1);
    }
  }

  /** The return loop fails where the risk loop does, and also where the curve rises to exactly zero. */
  lemma {:induction false} ReturnFailsWhere(e: seq<real>)
    requires |e| > 0
    ensures Divides(e, |e|, true) <==>
        Divides(e, |e|, false) || exists i :: 0 < i < |e| && Peak(e[..i]) < 0.0 && e[i] == 0.0
  {
    forall i | 0 <= i < |e|
      ensures ZeroPeak(e, i) && !Under(e, i) <==> 0 < i && Peak(e[..i]) < 0.0 && e[i] == 0.0
    {
      PeakExtends(e, i);
    }
  }

  /** The engine seeds the peak with the initial capital, and only looks when there were trades. */
  method EngineDrawdown(initialCapital: real, e: seq<real>, tradeCount: nat) returns (maxDd: real)
    requires initialCapital > 0.0
    ensures maxDd == if tradeCount > 0 then PeakFall([initialCapital] + e, |e| + 1) else 0.0
  {
    maxDd := 0.0;
    if tradeCount > 0 {
      var peak := initialCapital;
      ghost var full := [initialCapital] + e;
      PeakFallStep(full, 0, initialCapital);
      for i := 0 to |e|
        invariant peak == Peak(full[..i + 1]) > 0.0
        invariant maxDd == PeakFall(full, i + 1)
      {
        PeakFallStep(full, i + 1, peak);
        if e[i] > peak {
          peak := e[i];
        }
        var dd := (peak - e[i]) / peak;
        if dd > maxDd {
          maxDd := dd;
        }
      }
    }
  }
}
