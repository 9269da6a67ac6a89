/**
 * Smart execution plans: the strategy selected for an order, the slices each strategy generates,
 * and the duration, price and slippage estimated from them.
 */
module ExecutionPlan {
  import opened Options
  import opened RealSeq

  datatype Strategy = Twap | Vwap | Aggressive | Passive | Adaptive

  datatype OrderKind = Limit | Market

  datatype Side = BuySide | SellSide

  datatype Slice = Slice(size: real, price: real, kind: OrderKind, delay: real)

  /** The entries of the market-data dictionary a plan looks up, each of them optional. */
  datatype MarketData = MarketData(
    volatility: Option<real>,
    spreadBps: Option<real>,
    volumeProfile: Option<seq<real>>)

  datatype Plan = Plan(
    strategy: Strategy,
    totalSize: real,
    slices: seq<Slice>,
    duration: real,
    avgPrice: real,
    slippageBps: real,
    urgency: real)

  // ----- Python's int() and the default look-ups

  function Truncate(x: real): int {
    if x >= 0.0 then x.Floor else -((-x).Floor)
  }

  function Spread(md: MarketData): real { md.spreadBps.GetOr(10.0) }

  function Profile(md: MarketData): seq<real> {
    md.volumeProfile.GetOr([1.0, 1.0, 1.0, 1.0, 1.0, 1.0, 1.0, 1.0, 1.0, 1.0])
  }

  // ----- Totals over slices

  function Sizes(s: seq<Slice>): (r: seq<real>)
    ensures |r| == |s| && forall i :: 0 <= i < |r| ==> r[i] == s[i].size
  {
    seq(|s|, i requires 0 <= i < |s| => s[i].size)
  }

  function Notional(s: Slice): real { s.size * s.price }

  function Notionals(s: seq<Slice>): (r: seq<real>)
    ensures |r| == |s| && forall i :: 0 <= i < |r| ==> r[i] == Notional(s[i])
  {
    seq(|s|, i requires 0 <= i < |s| => Notional(s[i]))
  }

  ghost predicate AllAt(s: seq<Slice>, price: real) {
    forall i :: 0 <= i < |s| ==> s[i].price == price
  }

  ghost predicate DelaysNonDecreasing(s: seq<Slice>) {
    forall i, j :: 0 <= i <= j < |s| ==> s[i].delay <= s[j].delay
  }

  function Delay(i: int, step: real): real { i as real * step }

  lemma {:induction false} DelayMonotone(i: int, j: int, step: real)
    requires i <= j && step >= 0.0
    ensures Delay(i, step) <= Delay(j, step)
  {
    Scale(i as real, j as real, step);
  }

  lemma {:induction false} DelayBelow(i: int, n: int, step: real, d: real)
    requires i < n && step > 0.0 && step * n as real == d
    ensures Delay(i, step) < d
  {
    StrictScale(i as real, n as real, step);
  }

  lemma {:induction false} DelayStep(i: int, step: real)
    ensures Delay(i, step) - Delay(i - 1, step) == step
  {}

  lemma {:induction false} DelayIs(i: int, a: real, b: real)
    ensures i as real * a * b == Delay(i, a * b)
  {
    Associate(i as real, a, b);
  }

  /** n equal slices at one price, a fixed step apart. */
  function EqualSlices(n: nat, size: real, price: real, kind: OrderKind, step: real): (s: seq<Slice>)
    requires n >= 1
    ensures |s| == n && forall i :: 0 <= i < n ==> s[i] == Slice(size / n as real, price, kind, Delay(i, step))
  {
    seq(n, i requires 0 <= i < n => Slice(size / n as real, price, kind, Delay(i, step)))
  }

  lemma {:induction false} EqualSlicesNext(n: nat, size: real, price: real, kind: OrderKind, step: real, i: nat)
    requires i < n
    ensures EqualSlices(n, size, price, kind, step)[..i + 1]
         == EqualSlices(n, size, price, kind, step)[..i] + [Slice(size / n as real, price, kind, Delay(i, step))]
  {}

  lemma {:induction false} EqualSlicesTotal(n: nat, size: real, price: real, kind: OrderKind, step: real)
    requires n >= 1
    ensures Sum(Sizes(EqualSlices(n, size, price, kind, step))) == size
  {
    SumConstant(Sizes(EqualSlices(n, size, price, kind, step)), size / n as real);
  }

  lemma {:induction false} EqualPart(s: seq<Slice>, n: nat, size: real, price: real, kind: OrderKind, step: real,
          i: nat)
    requires i < n && s == EqualSlices(n, size, price, kind, step)
    ensures s[i].size * |s| as real == size
  {
    var part := size / n as real;
    assert part * n as real == size;
  }

  lemma {:induction false} EqualSlicesDelays(n: nat, size: real, price: real, kind: OrderKind, step: real)
    requires n >= 1 && (step >= 0.0 || n == 1)
    ensures DelaysNonDecreasing(EqualSlices(n, size, price, kind, step))
  {
    var s := EqualSlices(n, size, price, kind, step);
    forall i, j | 0 <= i <= j < n ensures s[i].delay <= s[j].delay {
      if step >= 0.0 { DelayMonotone(i, j, step); }
    }
  }

  // ----- Volume-weighted slices

  function Share(size: real, weight: real, total: real): real
    requires total != 0.0
  {
    size * (weight / total)
  }

  lemma {:induction false} ShareAdds(size: real, a: real, b: real, total: real)
    requires total != 0.0
    ensures Share(size, a, total) + Share(size, b, total) == Share(size, a + b, total)
  {
    QuotientIs(a + b, total, a / total + b / total);
  }

  lemma {:induction false} ShareMonotone(size: real, a: real, b: real, total: real)
    requires total > 0.0 && size >= 0.0 && a <= b
    ensures Share(size, a, total) <= Share(size, b, total)
  {
    DivideCompares(a, total, b / total);
    assert (b / total) * total == b;
    Scale(a / total, b / total, size);
  }

  /** The plan without the remainder guard: one slice per bucket with a positive share. */
  function VwapSlices(size: real, price: real, interval: real, profile: seq<real>, total: real, k: nat): seq<Slice>
    requires k <= |profile| && total != 0.0
  {
    if k == 0 then []
    else
      var share := Share(size, profile[k - 1], total);
      VwapSlices(size, price, interval, profile, total, k - 1)
      + if share > 0.0 then [Slice(share, price, Limit, Delay(k - 1, interval))] else []
  }

  /** A volume profile a market can have: no negative bucket, some volume. */
  ghost predicate IsProfile(profile: seq<real>) {
    (forall i :: 0 <= i < |profile| ==> profile[i] >= 0.0) && Sum(profile) > 0.0
  }

  lemma {:induction false} SizesAppend(s: seq<Slice>, t: Slice)
    ensures Sum(Sizes(s + [t])) == Sum(Sizes(s)) + t.size
  {
    assert Sizes(s + [t]) == Sizes(s) + [t.size];
    SumAppend(Sizes(s), t.size);
  }

  lemma {:induction false} PrefixSum(s: seq<real>, k: nat)
    requires k < |s| && forall i :: 0 <= i < |s| ==> s[i] >= 0.0
    ensures Sum(s[..k + 1]) == Sum(s[..k]) + s[k] <= Sum(s)
  {
    assert s[..k + 1] == s[..k] + [s[k]];
    SumAppend(s[..k], s[k]);
    assert s == s[..k + 1] + s[k + 1..];
    SumSplit(s[..k + 1], s[k + 1..]);
    SumNonNegative(s[k + 1..]);
  }

  lemma {:induction false} VwapNext(size: real, price: real, interval: real, profile: seq<real>, total: real, k: nat)
    requires k < |profile| && total != 0.0
    ensures var share, before := Share(size, profile[k], total), VwapSlices(size, price, interval, profile, total, k);
      VwapSlices(size, price, interval, profile, total, k + 1)
      == if share > 0.0 then before + [Slice(share, price, Limit, Delay(k, interval))] else before
  {
    var before := VwapSlices(size, price, interval, profile, total, k);
    assert before + [] == before;
  }

  /** Dropping the empty shares loses nothing. */
  lemma {:induction false} VwapStep(size: real, price: real, interval: real, profile: seq<real>, total: real, k: nat)
    requires 0 < k <= |profile| && total != 0.0 && Share(size, profile[k - 1], total) >= 0.0
    ensures Sum(Sizes(VwapSlices(size, price, interval, profile, total, k)))
         == Sum(Sizes(VwapSlices(size, price, interval, profile, total, k - 1))) + Share(size, profile[k - 1], total)
  {
    var before := VwapSlices(size, price, interval, profile, total, k - 1);
    var share := Share(size, profile[k - 1], total);
    if share > 0.0 {
      SizesAppend(before, Slice(share, price, Limit, Delay(k - 1, interval)));
    } else {
      assert before + [] == before;
    }
  }

  lemma {:induction false} VwapTotal(size: real, price: real, interval: real, profile: seq<real>, k: nat)
    requires IsProfile(profile) && size >= 0.0 && k <= |profile|
    ensures Sum(Sizes(VwapSlices(size, price, interval, profile, Sum(profile), k)))
         == Share(size, Sum(profile[..k]), Sum(profile))
  {
    if k > 0 {
      VwapTotal(size, price, interval, profile, k - 1);
      ShareStep(size, profile, k - 1);
      VwapStep(size, price, interval, profile, Sum(profile), k);
    }
  }

  /** The shares handed out so far and the next one stay within the order. */
  lemma {:induction false} ShareStep(size: real, profile: seq<real>, k: nat)
    requires IsProfile(profile) && size >= 0.0 && k < |profile|
    ensures Share(size, profile[k], Sum(profile)) >= 0.0
    ensures Share(size, Sum(profile[..k + 1]), Sum(profile))
         == Share(size, Sum(profile[..k]), Sum(profile)) + Share(size, profile[k], Sum(profile))
         <= size
  {
    var total := Sum(profile);
    PrefixSum(profile, k);
    ShareAdds(size, Sum(profile[..k]), profile[k], total);
    ShareMonotone(size, 0.0, profile[k], total);
    ShareMonotone(size, Sum(profile[..k + 1]), total, total);
    WholeShare(size, total);
  }

  /** The shares of the first k buckets. */
  function HandedOut(size: real, profile: seq<real>, total: real, k: nat): real
    requires k <= |profile| && total != 0.0
  {
    if k == 0 then 0.0 else HandedOut(size, profile, total, k - 1) + Share(size, profile[k - 1], total)
  }

  lemma {:induction false} HandedOutIsShare(size: real, profile: seq<real>, k: nat)
    requires IsProfile(profile) && size >= 0.0 && k <= |profile|
    ensures HandedOut(size, profile, Sum(profile), k) == Share(size, Sum(profile[..k]), Sum(profile))
  {
    if k == 0 {
      WholeShare(size, Sum(profile));
    } else {
      HandedOutIsShare(size, profile, k - 1);
      ShareStep(size, profile, k - 1);
    }
  }

  /** So what remains always covers the next share, and the guard never cuts it. */
  lemma {:induction false} WithinOrder(size: real, profile: seq<real>, k: nat)
    requires IsProfile(profile) && size >= 0.0 && k < |profile|
    ensures 0.0 <= Share(size, profile[k], Sum(profile)) <= size - HandedOut(size, profile, Sum(profile), k)
  {
    HandedOutIsShare(size, profile, k);
    ShareStep(size, profile, k);
  }

  lemma {:induction false} WholeShare(size: real, total: real)
    requires total != 0.0
    ensures Share(size, total, total) == size && Share(size, 0.0, total) == 0.0
  {
    QuotientIs(total, total, 1.0);
    QuotientIs(0.0, total, 0.0);
  }

  /** Limit slices at one price whose delays never decrease and stay at or below `latest`. */
  ghost predicate LimitsUpTo(s: seq<Slice>, price: real, latest: real) {
    && AllAt(s, price) && DelaysNonDecreasing(s)
    && forall i :: 0 <= i < |s| ==> s[i].kind == Limit && s[i].delay <= latest
  }

  lemma {:induction false} LimitsAppend(s: seq<Slice>, size: real, price: real, latest: real, delay: real)
    requires LimitsUpTo(s, price, latest) && latest <= delay
    ensures LimitsUpTo(s + [Slice(size, price, Limit, delay)], price, delay)
  {}

  lemma {:induction false} VwapShape(size: real, price: real, interval: real, profile: seq<real>, total: real, k: nat)
    requires k <= |profile| && total != 0.0 && interval >= 0.0
    ensures LimitsUpTo(VwapSlices(size, price, interval, profile, total, k), price, Delay(k, interval))
  {
    if k > 0 {
      var before := VwapSlices(size, price, interval, profile, total, k - 1);
      VwapShape(size, price, interval, profile, total, k - 1);
      VwapNext(size, price, interval, profile, total, k - 1);
      DelayMonotone(k - 1, k, interval);
      LimitsAppend(before, Share(size, profile[k - 1], total), price, Delay(k - 1, interval), Delay(k - 1, interval));
    }
  }

  /** The slice is the share of bucket b, sent when that bucket begins. */
  ghost predicate IsShareOf(s: Slice, b: nat, size: real, interval: real, profile: seq<real>, total: real) {
    b < |profile| && s.size > 0.0 && s.size * total == size * profile[b] && s.delay == b as real * interval
  }

  lemma {:induction false} NextShare(size: real, price: real, interval: real, profile: seq<real>, total: real, b: nat)
    requires b < |profile| && total != 0.0 && Share(size, profile[b], total) > 0.0
    ensures IsShareOf(Slice(Share(size, profile[b], total), price, Limit, Delay(b, interval)), b, size, interval,
                      profile, total)
  {
    ShareOfTotal(size, profile[b], total);
  }

  /** The slices are shares of these buckets, which come in order. */
  ghost predicate SharesOf(s: seq<Slice>, buckets: seq<nat>, size: real, interval: real, profile: seq<real>,
          total: real)
  {
    && |buckets| == |s|
    && (forall j :: 0 <= j < |s| ==> IsShareOf(s[j], buckets[j], size, interval, profile, total))
    && forall i, j :: 0 <= i < j < |s| ==> buckets[i] < buckets[j]
  }

  lemma {:induction false} SharesExtend(s: seq<Slice>, buckets: seq<nat>, size: real, interval: real,
          profile: seq<real>, total: real, slice: Slice, b: nat)
    requires SharesOf(s, buckets, size, interval, profile, total) && forall j :: 0 <= j < |s| ==> buckets[j] < b
    requires IsShareOf(slice, b, size, interval, profile, total)
    ensures SharesOf(s + [slice], buckets + [b], size, interval, profile, total)
  {}

  /** Each volume-weighted slice is the share of one bucket, sent when that bucket begins. */
  lemma {:induction false} SliceOfBucket(size: real, price: real, interval: real, profile: seq<real>, total: real,
          k: nat)
    returns (buckets: seq<nat>)
    requires k <= |profile| && total != 0.0
    ensures SharesOf(VwapSlices(size, price, interval, profile, total, k), buckets, size, interval, profile, total)
    ensures forall j :: 0 <= j < |buckets| ==> buckets[j] < k
  {
    buckets := [];
    if k > 0 {
      buckets := SliceOfBucket(size, price, interval, profile, total, k - 1);
      VwapNext(size, price, interval, profile, total, k - 1);
      var share := Share(size, profile[k - 1], total);
      if share > 0.0 {
        var before := VwapSlices(size, price, interval, profile, total, k - 1);
        NextShare(size, price, interval, profile, total, k - 1);
        SharesExtend(before, buckets, size, interval, profile, total,
                     Slice(share, price, Limit, Delay(k - 1, interval)), k - 1);
        buckets := buckets + [k - 1];
      }
    }
  }

  lemma {:induction false} ShareOfTotal(size: real, weight: real, total: real)
    requires total != 0.0
    ensures Share(size, weight, total) * total == size * weight
  {
    Associate(size, weight / total, total);
  }

  /** Without a profile the order is cut into ten equal parts. */
  lemma {:induction false} DefaultProfile(size: real, price: real, interval: real, md: MarketData)
    requires md.volumeProfile.None? && size > 0.0
    ensures |Profile(md)| == 10 && Sum(Profile(md)) == 10.0
    ensures var s := VwapSlices(size, price, interval, Profile(md), 10.0, 10);
      |s| == 10 && forall j :: 0 <= j < 10 ==> s[j] == Slice(size / 10.0, price, Limit, j as real * interval)
  {
    SumConstant(Profile(md), 1.0);
    EvenBuckets(size, price, interval, Profile(md), 10);
  }

  lemma {:induction false} EvenBuckets(size: real, price: real, interval: real, profile: seq<real>, k: nat)
    requires size > 0.0 && k <= |profile| && forall i :: 0 <= i < |profile| ==> profile[i] == 1.0
    ensures var s := VwapSlices(size, price, interval, profile, 10.0, k);
      |s| == k && forall j :: 0 <= j < k ==> s[j] == Slice(size / 10.0, price, Limit, j as real * interval)
  {
    if k > 0 {
      EvenBuckets(size, price, interval, profile, k - 1);
      VwapNext(size, price, interval, profile, 10.0, k - 1);
      assert Share(size, 1.0, 10.0) == size / 10.0;
    }
  }

  // ----- The plan

  lemma {:induction false} TruncateIsFloor(x: real, k: int)
    requires x >= 0.0
    ensures k <= Truncate(x) <==> k as real <= x
  {
    assert x.Floor as real <= x < x.Floor as real + 1.0;
    if k > x.Floor { assert k as real >= x.Floor as real + 1.0; }
  }

  datatype SmartExecution = SmartExecution(
    twapInterval: real,
    maxSlices: int,
    urgencyHigh: real,
    urgencyLow: real)
  {
    function SelectStrategy(urgency: real, md: MarketData): Strategy {
      if urgency > urgencyHigh then Aggressive
      else if urgency < urgencyLow then Passive
      else if Spread(md) > 20.0 then Vwap
      else if md.volatility.GetOr(0.02) > 0.05 then Twap
      else Adaptive
    }

    /**
     * The urgency decides first; in between, a wide spread calls for volume weighting and a high volatility
     * for time weighting, each only if the market data say so.
     */
    lemma {:induction false} StrategyChosen(urgency: real, md: MarketData)
      ensures var s, wide, wild := SelectStrategy(urgency, md),
                                   md.spreadBps.Some? && md.spreadBps.value > 20.0,
                                   md.volatility.Some? && md.volatility.value > 0.05;
        && (s == Aggressive <==> urgency > urgencyHigh)
        && (s == Passive <==> urgency <= urgencyHigh && urgency < urgencyLow)
        && (s == Vwap <==> urgencyLow <= urgency <= urgencyHigh && wide)
        && (s == Twap <==> urgencyLow <= urgency <= urgencyHigh && !wide && wild)
        && (s == Adaptive <==> urgencyLow <= urgency <= urgencyHigh && !wide && !wild)
    {}

    /** The price of a passive slice: half the spread on the favourable side. */
    function LimitPrice(side: Side, price: real, md: MarketData): real {
      var spread := Spread(md) / 10000.0;
      if side == BuySide then price * (1.0 - spread * 0.5) else price * (1.0 + spread * 0.5)
    }

    function TwapDuration(timeLimit: Option<real>): real {
      if timeLimit.GetOr(0.0) != 0.0 then timeLimit.value else twapInterval * maxSlices as real
    }

    function TwapCount(timeLimit: Option<real>): (n: int)
      requires twapInterval != 0.0
      ensures n >= 1
    {
      var wanted := Truncate(TwapDuration(timeLimit) / twapInterval);
      var n := if wanted <= maxSlices then wanted else maxSlices;
      if n >= 1 then n else 1
    }

    function AdaptiveCount(urgency: real): (n: int)
      ensures n >= 1
    {
      var wanted := Truncate(AdaptiveWanted(urgency));
      var n := if wanted <= maxSlices then wanted else maxSlices;
      if n >= 1 then n else 1
    }

    /** As many time-weighted slices as intervals fit into the time limit, at least one and at most the maximum. */
    lemma {:induction false} TwapCountIsLargest(limit: real, k: int)
      requires twapInterval > 0.0 && maxSlices >= 1 && limit > 0.0
      ensures var n := TwapCount(Some(limit));
        && 1 <= n <= maxSlices && (n == 1 || n as real * twapInterval <= limit)
        && (n < k <= maxSlices ==> k as real * twapInterval > limit)
      ensures TwapDuration(Some(limit)) == limit
    {
      DivideCompares(limit, twapInterval, 0.0);
      var n := TwapCount(Some(limit));
      TruncateIsFloor(limit / twapInterval, n);
      TruncateIsFloor(limit / twapInterval, k);
      DivideCompares(limit, twapInterval, n as real);
      DivideCompares(limit, twapInterval, k as real);
    }

    /** Without a time limit, or with one of zero, there are as many slices as allowed, one interval apart. */
    lemma {:induction false} DefaultTwap(timeLimit: Option<real>)
      requires twapInterval > 0.0 && maxSlices >= 1 && (timeLimit == None || timeLimit == Some(0.0))
      ensures TwapCount(timeLimit) == maxSlices
      ensures TwapDuration(timeLimit) / maxSlices as real == twapInterval
    {
      var n := maxSlices as real;
      QuotientIs(twapInterval * n, twapInterval, n);
      QuotientIs(twapInterval * n, n, twapInterval);
      assert TwapDuration(timeLimit) == twapInterval * n;
      TruncateIsFloor(n, maxSlices);
      TruncateIsFloor(n, maxSlices + 1);
    }

    function AdaptiveWanted(urgency: real): real {
      1.0 + (1.0 - urgency) * (maxSlices - 1) as real
    }

    lemma {:induction false} AdaptiveWantsOne(urgency: real)
      requires maxSlices >= 1 && urgency <= 1.0
      ensures AdaptiveWanted(urgency) >= 1.0
    {
      Scale(0.0, 1.0 - urgency, (maxSlices - 1) as real);
    }

    lemma {:induction false} CountCutAt(wanted: real, n: int, k: int)
      requires maxSlices >= 1 && wanted >= 1.0
      requires n == if Truncate(wanted) <= maxSlices then Truncate(wanted) else maxSlices
      ensures 1 <= n <= maxSlices && n as real <= wanted && (n < k <= maxSlices ==> k as real > wanted)
    {
      TruncateIsFloor(wanted, 1);
      TruncateIsFloor(wanted, n);
      TruncateIsFloor(wanted, k);
    }

    /** An adaptive plan has the fewer slices the more urgent it is: as many as 1 + (1 - urgency)(max - 1) allows. */
    lemma {:induction false} AdaptiveCountIsLargest(urgency: real, k: int)
      requires maxSlices >= 1 && urgency <= 1.0
      ensures var n, wanted := AdaptiveCount(urgency), 1.0 + (1.0 - urgency) * (maxSlices - 1) as real;
        && 1 <= n <= maxSlices && n as real <= wanted
        && (n < k <= maxSlices ==> k as real > wanted)
    {
      AdaptiveWantsOne(urgency);
      CountCutAt(AdaptiveWanted(urgency), AdaptiveCount(urgency), k);
    }

    method AggressiveSlices(size: real, price: real) returns (slices: seq<Slice>)
      ensures slices == [Slice(size, price, Market, 0.0)]
    {
      slices := [Slice(size, price, Market, 0.0)];
    }

    method PassiveSlices(size: real, side: Side, price: real, md: MarketData) returns (slices: seq<Slice>)
      requires maxSlices >= 1
      ensures slices == EqualSlices(maxSlices, size, LimitPrice(side, price, md), Limit, 60.0)
    {
      var spread := Spread(md) / 10000.0;
      var limitPrice := if side == BuySide then price * (1.0 - spread * 0.5) else price * (1.0 + spread * 0.5);
      slices := [];
      var sliceSize := size / maxSlices as real;
      for i := 0 to maxSlices
        invariant slices == EqualSlices(maxSlices, size, limitPrice, Limit, 60.0)[..i]
      {
        EqualSlicesNext(maxSlices, size, limitPrice, Limit, 60.0, i);
        slices := slices + [Slice(sliceSize, limitPrice, Limit, Delay(i, 60.0))];
      }
    }

    method TwapSlices(size: real, price: real, timeLimit: Option<real>) returns (slices: seq<Slice>)
      requires twapInterval != 0.0
      ensures var n := TwapCount(timeLimit);
        slices == EqualSlices(n, size, price, Limit, TwapDuration(timeLimit) / n as real)
    {
      var duration := TwapDuration(timeLimit);
      var n := TwapCount(timeLimit);
      var sliceSize := size / n as real;
      slices := [];
      for i := 0 to n
        invariant slices == EqualSlices(n, size, price, Limit, duration / n as real)[..i]
      {
        EqualSlicesNext(n, size, price, Limit, duration / n as real, i);
        slices := slices + [Slice(sliceSize, price, Limit, Delay(i, duration / n as real))];
      }
    }

    /** The remainder guard `min(share, remaining)` is exact arithmetic's no-op for any real profile. */
    method VwapSlicesOf(size: real, price: real, md: MarketData) returns (slices: seq<Slice>)
      requires Sum(Profile(md)) != 0.0 || Profile(md) == []
      ensures AllAt(slices, price)
      ensures IsProfile(Profile(md)) && size >= 0.0 ==>
          slices == VwapSlices(size, price, twapInterval, Profile(md), Sum(Profile(md)), |Profile(md)|)
    {
      var profile := Profile(md);
      var total := Sum(profile);
      slices := [];
      var remaining := size;
      ghost var regular := IsProfile(profile) && size >= 0.0;
      for i := 0 to |profile|
        invariant AllAt(slices, price)
        invariant regular ==> slices == VwapSlices(size, price, twapInterval, profile, total, i)
        invariant regular ==> remaining == size - HandedOut(size, profile, total, i)
      {
        if regular { WithinOrder(size, profile, i); }
        var sliceSize := Share(size, profile[i], total);
        sliceSize := Min(sliceSize, remaining);
        remaining := remaining - sliceSize;
        VwapNext(size, price, twapInterval, profile, total, i);
        if sliceSize > 0.0 {
          slices := slices + [Slice(sliceSize, price, Limit, Delay(i, twapInterval))];
        }
      }
    }

    method AdaptiveDelay(i: int, urgency: real) returns (delay: real)
      ensures delay == Delay(i, twapInterval * (1.0 - urgency))
    {
      delay := i as real * twapInterval * (1.0 - urgency);
      DelayIs(i, twapInterval, 1.0 - urgency);
    }

    method AdaptiveSlices(size: real, price: real, urgency: real) returns (slices: seq<Slice>)
      ensures slices == EqualSlices(AdaptiveCount(urgency), size, price, if urgency < 0.5 then Limit else Market,
                                    twapInterval * (1.0 - urgency))
    {
      var n := AdaptiveCount(urgency);
      var sliceSize := size / n as real;
      var kind := if urgency < 0.5 then Limit else Market;
      slices := [];
      ghost var step := twapInterval * (1.0 - urgency);
      for i := 0 to n
        invariant slices == EqualSlices(n, size, price, kind, step)[..i]
      {
        EqualSlicesNext(n, size, price, kind, step, i);
        var delay := AdaptiveDelay(i, urgency);
        slices := slices + [Slice(sliceSize, price, kind, delay)];
      }
    }

    /** The volume-weighted strategy divides by the sum of the profile; the others never read it. */
    predicate UsableProfile(strategy: Strategy, md: MarketData) {
      strategy == Vwap ==> Sum(Profile(md)) != 0.0 || Profile(md) == []
    }

    method GenerateSlices(size: real, side: Side, price: real, strategy: Strategy, urgency: real, md: MarketData,
            timeLimit: Option<real>)
      returns (slices: seq<Slice>)
      requires maxSlices >= 1 && twapInterval > 0.0
      requires UsableProfile(strategy, md)
      ensures Planned(size, side, price, strategy, urgency, md, timeLimit, slices)
    {
      match strategy
      case Aggressive => slices := AggressiveSlices(size, price);
      case Passive => slices := PassiveSlices(size, side, price, md);
      case Twap => slices := TwapSlices(size, price, timeLimit);
      case Vwap => slices := VwapSlicesOf(size, price, md);
      case Adaptive => slices := AdaptiveSlices(size, price, urgency);
    }

    /** What each strategy generates. */
    ghost predicate Planned(size: real, side: Side, price: real, strategy: Strategy, urgency: real, md: MarketData,
            timeLimit: Option<real>, slices: seq<Slice>)
      requires maxSlices >= 1 && twapInterval > 0.0
      requires UsableProfile(strategy, md)
    {
      match strategy
      case Aggressive => slices == [Slice(size, price, Market, 0.0)]
      case Passive => slices == EqualSlices(maxSlices, size, LimitPrice(side, price, md), Limit, 60.0)
      case Twap =>
        slices == EqualSlices(TwapCount(timeLimit), size, price, Limit, TwapStep(timeLimit))
      case Vwap =>
        && AllAt(slices, price)
        && (IsProfile(Profile(md)) && size >= 0.0 ==>
              slices == VwapSlices(size, price, twapInterval, Profile(md), Sum(Profile(md)), |Profile(md)|))
      case Adaptive =>
        slices == EqualSlices(AdaptiveCount(urgency), size, price, if urgency < 0.5 then Limit else Market,
                              twapInterval * (1.0 - urgency))
    }

    function TwapStep(timeLimit: Option<real>): real
      requires twapInterval != 0.0
    {
      TwapDuration(timeLimit) / TwapCount(timeLimit) as real
    }

    /** The inputs a volume-weighted plan needs; the other strategies accept any size. */
    ghost predicate Plannable(strategy: Strategy, size: real, md: MarketData) {
      strategy == Vwap ==> IsProfile(Profile(md)) && size >= 0.0
    }

    /** Whatever the strategy, the slices add up to the order. */
    lemma {:induction false} PlanConserves(size: real, side: Side, price: real, strategy: Strategy, urgency: real,
            md: MarketData, timeLimit: Option<real>, slices: seq<Slice>)
      requires maxSlices >= 1 && twapInterval > 0.0
      requires UsableProfile(strategy, md)
      requires Planned(size, side, price, strategy, urgency, md, timeLimit, slices) && Plannable(strategy, size, md)
      ensures Sum(Sizes(slices)) == size
    {
      match strategy
      case Aggressive => SumConstant(Sizes(slices), size);
      case Passive => EqualSlicesTotal(maxSlices, size, LimitPrice(side, price, md), Limit, 60.0);
      case Twap => EqualSlicesTotal(TwapCount(timeLimit), size, price, Limit, TwapStep(timeLimit));
      case Vwap =>
        VwapTotal(size, price, twapInterval, Profile(md), |Profile(md)|);
        assert Profile(md)[..|Profile(md)|] == Profile(md);
        WholeShare(size, Sum(Profile(md)));
      case Adaptive =>
        EqualSlicesTotal(AdaptiveCount(urgency), size, price, if urgency < 0.5 then Limit else Market,
                         twapInterval * (1.0 - urgency));
    }

    /** Delays never decrease, for negative durations and urgencies above 1 too: those plans have one slice. */
    lemma {:induction false} PlanDelays(size: real, side: Side, price: real, strategy: Strategy, urgency: real,
            md: MarketData, timeLimit: Option<real>, slices: seq<Slice>)
      requires maxSlices >= 1 && twapInterval > 0.0
      requires UsableProfile(strategy, md)
      requires Planned(size, side, price, strategy, urgency, md, timeLimit, slices) && Plannable(strategy, size, md)
      ensures DelaysNonDecreasing(slices)
    {
      match strategy
      case Aggressive =>
      case Passive => EqualSlicesDelays(maxSlices, size, LimitPrice(side, price, md), Limit, 60.0);
      case Twap =>
        TwapStepOrSingle(timeLimit);
        EqualSlicesDelays(TwapCount(timeLimit), size, price, Limit, TwapStep(timeLimit));
      case Vwap => VwapShape(size, price, twapInterval, Profile(md), Sum(Profile(md)), |Profile(md)|);
      case Adaptive =>
        AdaptiveStepOrSingle(urgency);
        EqualSlicesDelays(AdaptiveCount(urgency), size, price, if urgency < 0.5 then Limit else Market,
                          twapInterval * (1.0 - urgency));
    }

    /** When the slices of a plan are sent, and of which kind they are. */
    lemma {:induction false} PlanTimetable(size: real, side: Side, price: real, strategy: Strategy, urgency: real,
            md: MarketData, timeLimit: Option<real>, slices: seq<Slice>, i: nat)
      requires maxSlices >= 1 && twapInterval > 0.0 && UsableProfile(strategy, md)
      requires Planned(size, side, price, strategy, urgency, md, timeLimit, slices) && i < |slices|
      ensures strategy == Aggressive ==> |slices| == 1 && slices[i].delay == 0.0 && slices[i].kind == Market
      ensures strategy == Passive ==>
          |slices| == maxSlices && slices[i].delay == 60.0 * i as real && slices[i].kind == Limit
      ensures strategy == Adaptive ==> slices[i].delay == i as real * (twapInterval * (1.0 - urgency))
      ensures strategy == Adaptive ==> (slices[i].kind == Limit <==> urgency < 0.5)
      ensures strategy == Twap ==> slices[i].kind == Limit
    {}

    /** All strategies but the volume-weighted one cut the order into equal parts. */
    lemma {:induction false} PlanParts(size: real, side: Side, price: real, strategy: Strategy, urgency: real,
            md: MarketData, timeLimit: Option<real>, slices: seq<Slice>, i: nat)
      requires maxSlices >= 1 && twapInterval > 0.0 && UsableProfile(strategy, md)
      requires Planned(size, side, price, strategy, urgency, md, timeLimit, slices) && i < |slices|
      ensures strategy != Vwap ==> slices[i].size * |slices| as real == size
    {
      match strategy
      case Aggressive =>
      case Passive => EqualPart(slices, maxSlices, size, LimitPrice(side, price, md), Limit, 60.0, i);
      case Twap => EqualPart(slices, TwapCount(timeLimit), size, price, Limit, TwapStep(timeLimit), i);
      case Vwap =>
      case Adaptive =>
        EqualPart(slices, AdaptiveCount(urgency), size, price, if urgency < 0.5 then Limit else Market,
                  twapInterval * (1.0 - urgency), i);
    }

    lemma {:induction false} TwapStepOrSingle(timeLimit: Option<real>)
      requires twapInterval > 0.0
      ensures TwapStep(timeLimit) >= 0.0 || TwapCount(timeLimit) == 1
    {
      var d := TwapDuration(timeLimit);
      DivideCompares(d, twapInterval, 0.0);
      DivideCompares(d, TwapCount(timeLimit) as real, 0.0);
    }

    lemma {:induction false} AdaptiveStepOrSingle(urgency: real)
      requires maxSlices >= 1 && twapInterval > 0.0
      ensures twapInterval * (1.0 - urgency) >= 0.0 || AdaptiveCount(urgency) == 1
    {
      if urgency <= 1.0 {
        Scale(0.0, 1.0 - urgency, twapInterval);
      } else {
        Scale(1.0 - urgency, 0.0, (maxSlices - 1) as real);
      }
    }

    /** TWAP slices start before the duration is over and, if it covers one interval, at least an interval apart. */
    lemma {:induction false} TwapSpacing(size: real, price: real, timeLimit: Option<real>, i: nat)
      requires twapInterval > 0.0 && i < TwapCount(timeLimit)
      ensures var s := EqualSlices(TwapCount(timeLimit), size, price, Limit, TwapStep(timeLimit));
        && (TwapDuration(timeLimit) > 0.0 ==> s[i].delay < TwapDuration(timeLimit))
        && (TwapDuration(timeLimit) >= twapInterval && i > 0 ==> s[i].delay - s[i - 1].delay >= twapInterval)
    {
      var d, n, step := TwapDuration(timeLimit), TwapCount(timeLimit), TwapStep(timeLimit);
      if d > 0.0 {
        QuotientPositive(d, n as real);
        DelayBelow(i, n, step, d);
      }
      if d >= twapInterval {
        TwapStepAtLeast(timeLimit);
        DelayStep(i, step);
      }
    }

    lemma {:induction false} TwapStepAtLeast(timeLimit: Option<real>)
      requires twapInterval > 0.0 && TwapDuration(timeLimit) >= twapInterval
      ensures TwapStep(timeLimit) >= twapInterval
    {
      var d, n := TwapDuration(timeLimit), TwapCount(timeLimit);
      DivideCompares(d, twapInterval, 1.0);
      DivideCompares(d, twapInterval, n as real);
      DivideCompares(d, n as real, twapInterval);
    }

    /** The worst delay over the slices. */
    method EstimateDuration(slices: seq<Slice>) returns (duration: real)
      ensures slices == [] ==> duration == 0.0
      ensures slices != [] ==> exists i :: 0 <= i < |slices| && slices[i].delay == duration
      ensures forall i :: 0 <= i < |slices| ==> slices[i].delay <= duration
    {
      if slices == [] {
        return 0.0;
      }
      duration := slices[0].delay;
      for i := 0 to |slices|
        invariant exists j :: 0 <= j < |slices| && slices[j].delay == duration
        invariant forall j :: 0 <= j < i ==> slices[j].delay <= duration
      {
        duration := Max(duration, slices[i].delay);
      }
    }

    function EstimateAvgPrice(slices: seq<Slice>, basePrice: real): real {
      if slices == [] then basePrice
      else
        var total := Sum(Sizes(slices));
        if total > 0.0 then Sum(Notionals(slices)) / total else basePrice
    }

    function MarketCount(slices: seq<Slice>): nat {
      if slices == [] then 0
      else MarketCount(slices[..|slices| - 1]) + (if slices[|slices| - 1].kind == Market then 1 else 0)
    }

    function EstimateSlippage(slices: seq<Slice>, md: MarketData): real {
      var marketRatio := if |slices| > 0 then MarketCount(slices) as real / |slices| as real else 0.0;
      Spread(md) / 2.0 * (1.0 + marketRatio)
    }

    lemma {:induction false} AvgPriceOfUniform(slices: seq<Slice>, price: real, basePrice: real)
      requires AllAt(slices, price) && (price == basePrice || Sum(Sizes(slices)) > 0.0)
      ensures EstimateAvgPrice(slices, basePrice) == price
    {
      NotionalOfUniform(slices, price);
      if slices != [] && Sum(Sizes(slices)) > 0.0 {
        QuotientIs(Sum(Notionals(slices)), Sum(Sizes(slices)), price);
      }
    }

    lemma {:induction false} NotionalsPrefix(slices: seq<Slice>)
      requires slices != []
      ensures Notionals(slices)[..|slices| - 1] == Notionals(slices[..|slices| - 1])
    {}

    lemma {:induction false} NotionalOfUniform(slices: seq<Slice>, price: real)
      requires AllAt(slices, price)
      ensures Sum(Notionals(slices)) == price * Sum(Sizes(slices))
    {
      if slices != [] {
        var rest := slices[..|slices| - 1];
        NotionalOfUniform(rest, price);
        assert Notionals(slices)[..|slices| - 1] == Notionals(rest) by { NotionalsPrefix(slices); }
        assert Sizes(slices)[..|slices| - 1] == Sizes(rest);
      }
    }

    /** The estimated price is the current one, except that a passive plan is off by exactly half the spread. */
    lemma {:induction false} PlanPrice(size: real, side: Side, price: real, strategy: Strategy, urgency: real,
            md: MarketData, timeLimit: Option<real>, slices: seq<Slice>)
      requires maxSlices >= 1 && twapInterval > 0.0
      requires UsableProfile(strategy, md)
      requires Planned(size, side, price, strategy, urgency, md, timeLimit, slices)
      ensures strategy != Passive ==> EstimateAvgPrice(slices, price) == price
      ensures strategy == Passive && size > 0.0 ==>
          var half := price * ((if md.spreadBps.Some? then md.spreadBps.value else 10.0) / 20000.0);
          EstimateAvgPrice(slices, price) == if side == BuySide then price - half else price + half
    {
      if strategy == Passive && size > 0.0 {
        EqualSlicesTotal(maxSlices, size, LimitPrice(side, price, md), Limit, 60.0);
        AvgPriceOfUniform(slices, LimitPrice(side, price, md), price);
      } else if strategy != Passive {
        AvgPriceOfUniform(slices, price, price);
      }
    }

    lemma {:induction false} MarketCountUniform(slices: seq<Slice>, kind: OrderKind)
      requires forall i :: 0 <= i < |slices| ==> slices[i].kind == kind
      ensures MarketCount(slices) == if kind == Market then |slices| else 0
    {
      if slices != [] { MarketCountUniform(slices[..|slices| - 1], kind); }
    }

    /** The kind of order every slice of a plan is. */
    function KindOf(strategy: Strategy, urgency: real): OrderKind {
      if strategy == Aggressive || (strategy == Adaptive && urgency >= 0.5) then Market else Limit
    }

    lemma {:induction false} PlanKind(size: real, side: Side, price: real, strategy: Strategy, urgency: real,
            md: MarketData, timeLimit: Option<real>, slices: seq<Slice>)
      requires maxSlices >= 1 && twapInterval > 0.0
      requires UsableProfile(strategy, md)
      requires Planned(size, side, price, strategy, urgency, md, timeLimit, slices) && Plannable(strategy, size, md)
      ensures forall i :: 0 <= i < |slices| ==> slices[i].kind == KindOf(strategy, urgency)
      ensures strategy == Aggressive || (strategy == Adaptive && urgency >= 0.5) ==> |slices| > 0
    {
      if strategy == Vwap {
        VwapShape(size, price, twapInterval, Profile(md), Sum(Profile(md)), |Profile(md)|);
      }
    }

    /** The estimated slippage is the whole spread for market orders and half of it for limit orders. */
    lemma {:induction false} PlanSlippage(size: real, side: Side, price: real, strategy: Strategy, urgency: real,
            md: MarketData, timeLimit: Option<real>, slices: seq<Slice>)
      requires maxSlices >= 1 && twapInterval > 0.0
      requires UsableProfile(strategy, md)
      requires Planned(size, side, price, strategy, urgency, md, timeLimit, slices) && Plannable(strategy, size, md)
      ensures EstimateSlippage(slices, md)
           == (if md.spreadBps.Some? then md.spreadBps.value else 10.0)
              * if strategy == Aggressive || (strategy == Adaptive && urgency >= 0.5) then 1.0 else 0.5
    {
      var kind := KindOf(strategy, urgency);
      PlanKind(size, side, price, strategy, urgency, md, timeLimit, slices);
      MarketCountUniform(slices, kind);
      if |slices| > 0 {
        QuotientIs(MarketCount(slices) as real, |slices| as real, if kind == Market then 1.0 else 0.0);
      }
    }

    method MakePlan(size: real, side: Side, price: real, urgency: real, md: MarketData, timeLimit: Option<real>)
      returns (plan: Plan)
      requires maxSlices >= 1 && twapInterval > 0.0
      requires UsableProfile(SelectStrategy(urgency, md), md)
      ensures plan.strategy == SelectStrategy(urgency, md) && plan.totalSize == size && plan.urgency == urgency
      ensures Planned(size, side, price, plan.strategy, urgency, md, timeLimit, plan.slices)
      ensures Plannable(plan.strategy, size, md) ==>
          && Sum(Sizes(plan.slices)) == size
          && DelaysNonDecreasing(plan.slices)
          && plan.duration == (if plan.slices == [] then 0.0 else plan.slices[|plan.slices| - 1].delay)
      ensures plan.strategy != Passive ==> plan.avgPrice == price
      ensures plan.avgPrice == EstimateAvgPrice(plan.slices, price)
      ensures plan.slippageBps == EstimateSlippage(plan.slices, md)
    {
      var strategy := SelectStrategy(urgency, md);
      var slices := GenerateSlices(size, side, price, strategy, urgency, md, timeLimit);
      var duration := EstimateDuration(slices);
      if Plannable(strategy, size, md) {
        PlanConserves(size, side, price, strategy, urgency, md, timeLimit, slices);
        PlanDelays(size, side, price, strategy, urgency, md, timeLimit, slices);
      }
      PlanPrice(size, side, price, strategy, urgency, md, timeLimit, slices);
      plan := Plan(strategy, size, slices, duration, EstimateAvgPrice(slices, price),
                   EstimateSlippage(slices, md), urgency);
    }
  }
}
