/**
 * When a backtest can use up its capital. The loss of a trade is its entry value times a share that
 * depends on the direction and on the ratio of exit to entry price only; which ratios can occur
 * depends on the prices and on whether slippage alone closes a position on its entry bar. From this
 * follow exact conditions for runs under arbitrary signals over a price band, and for buy-only runs.
 */
module Solvency {
  import opened Options
  import opened RealSeq
  import opened Backtest

  // ----- The loss of one trade

  /** The part of its entry value that a position loses when the price has changed by `ratio`. */
  function LossShare(slippage: real, direction: Direction, ratio: real): real {
    if direction == Long then (1.0 + slippage) - ratio * (1.0 - slippage)
    else ratio * (1.0 + slippage) - (1.0 - slippage)
  }

  /** The part of the capital that a full-confidence trade loses with that share. */
  function Risk(cfg: Config, share: real): real {
    cfg.positionSize * share
  }

  function Factor(slippage: real, direction: Direction): real {
    if direction == Long then 1.0 + slippage else 1.0 - slippage
  }

  /** The profit of a position is its entry value times that share, with the sign turned. */
  lemma {:induction false} PnlIsShare(cfg: Config, pos: Position, p: real, x: real)
    requires p > 0.0 && pos.entryPrice == p * Factor(cfg.slippage, pos.direction)
    ensures Pnl(cfg, pos, x) == -((pos.quantity * p) * LossShare(cfg.slippage, pos.direction, x / p))
  {
    var q, ratio, up, down := pos.quantity, x / p, 1.0 + cfg.slippage, 1.0 - cfg.slippage;
    assert ratio * p == x;
    if pos.direction == Long {
      SharedFactor(q, p, ratio, down, up);
    } else {
      SharedFactor(q, p, ratio, up, down);
    }
  }

  lemma {:induction false} SharedFactor(q: real, p: real, ratio: real, a: real, b: real)
    ensures q * ((ratio * p) * a - p * b) == (q * p) * (ratio * a - b)
    ensures q * (p * b - (ratio * p) * a) == -((q * p) * (ratio * a - b))
    ensures (q * p) * (b - ratio * a) == -((q * p) * (ratio * a - b))
  {
    Associate(q, p, ratio * a - b);
    Associate(p, ratio, a);
  }

  /** A long loses more on a smaller ratio, a short on a larger one. */
  lemma {:induction false} ShareMonotone(slippage: real, direction: Direction, ratio: real, worst: real)
    requires 0.0 <= slippage < 1.0
    requires if direction == Long then worst <= ratio else ratio <= worst
    ensures LossShare(slippage, direction, ratio) <= LossShare(slippage, direction, worst)
  {
    if direction == Long {
      Scale(worst, ratio, 1.0 - slippage);
    } else {
      Scale(ratio, worst, 1.0 + slippage);
    }
  }

  /** An unchanged price costs the slippage twice, in either direction. */
  lemma {:induction false} ShareOfNoMove(slippage: real, direction: Direction)
    ensures LossShare(slippage, direction, 1.0) == 2.0 * slippage
  {}

  /** A confidence in [0, 1] buys between nothing and the whole stake. */
  lemma {:induction false} EntryValue(capital: real, size: real, confidence: real, price: real)
    requires capital >= 0.0 && size >= 0.0 && 0.0 <= confidence <= 1.0 && price > 0.0
    ensures 0.0 <= Quantity(capital, size, confidence, price) * price <= capital * size
  {
    var stake := capital * size;
    Scale(0.0, capital, size);
    Scale(0.0, confidence, stake);
    Scale(confidence, 1.0, stake);
    assert Quantity(capital, size, confidence, price) * price == stake * confidence;
  }

  /** Slippage alone shows a loss, or a profit target, that closes every such position on its entry bar. */
  predicate Instant(cfg: Config, direction: Direction)
    requires -1.0 < cfg.slippage < 1.0
  {
    EntryMove(cfg, direction) <= -cfg.stopLoss || EntryMove(cfg, direction) >= cfg.takeProfit
  }

  predicate Confident(bars: seq<Bar>) {
    forall i :: 0 <= i < |bars| && Actionable(bars[i]) ==> 0.0 <= Confidence(bars[i]) <= 1.0
  }

  function EntryClose(bars: seq<Bar>, t: Trade): real
    requires t.entryBar < |bars|
  {
    bars[t.entryBar].close
  }

  function ExitRatio(bars: seq<Bar>, t: Trade): real
    requires t.entryBar < |bars| && t.exitBar < |bars| && EntryClose(bars, t) != 0.0
  {
    bars[t.exitBar].close / EntryClose(bars, t)
  }

  /** A position that is opened at b and closed at x loses its share of an entry value within the stake. */
  lemma {:induction false} OpenedLoss(cfg: Config, i: nat, b: Bar, capital: real, x: real) returns (value: real)
    requires Actionable(b) && 0.0 <= Confidence(b) <= 1.0 && b.close > 0.0
    requires capital >= 0.0 && cfg.positionSize >= 0.0
    ensures 0.0 <= value <= capital * cfg.positionSize
    ensures var pos := Opened(cfg, i, b, capital);
      Pnl(cfg, pos, x) == -(value * LossShare(cfg.slippage, pos.direction, x / b.close))
  {
    var pos := Opened(cfg, i, b, capital);
    value := pos.quantity * b.close;
    EntryValue(capital, cfg.positionSize, Confidence(b), b.close);
    PnlIsShare(cfg, pos, b.close, x);
  }

  /** So does the k-th trade of a run. */
  lemma {:induction false} TradeLoss(cfg: Config, bars: seq<Bar>, ts: seq<Trade>, k: nat) returns (value: real)
    requires Divisible(cfg, bars) && Explained(cfg, bars, ts) && k < |ts|
    requires PositivePrices(bars) && Confident(bars)
    requires 0.0 <= cfg.slippage < 1.0 && cfg.positionSize >= 0.0 && CapitalBefore(cfg, ts, k) >= 0.0
    ensures ts[k].entryBar <= ts[k].exitBar < |bars|
    ensures 0.0 <= value <= CapitalBefore(cfg, ts, k) * cfg.positionSize
    ensures ts[k].pnl == -(value * LossShare(cfg.slippage, ts[k].direction, ExitRatio(bars, ts[k])))
  {
    TradeOfBars(cfg, bars, ts, k);
    var t := ts[k];
    value := OpenedLoss(cfg, t.entryBar, bars[t.entryBar], CapitalBefore(cfg, ts, k), bars[t.exitBar].close);
  }

  // ----- Whole runs

  /** The k-th trade leaves at least the fraction `keep` of the capital it found. */
  predicate Keeps(cfg: Config, ts: seq<Trade>, k: nat, keep: real)
    requires k < |ts|
  {
    CapitalBefore(cfg, ts, k + 1) >= CapitalBefore(cfg, ts, k) * keep
  }

  lemma {:induction false} LossOfStake(cfg: Config, capital: real, value: real, share: real, worst: real)
    requires 0.0 <= value <= capital * cfg.positionSize && share <= worst && worst >= 0.0
    ensures capital - value * share >= capital * (1.0 - Risk(cfg, worst))
  {
    Scale(share, worst, value);
    Scale(value, capital * cfg.positionSize, worst);
    Associate(capital, cfg.positionSize, worst);
  }

  /** A trade whose share is at most `worst` keeps the rest of its stake. */
  lemma {:induction false} TradeKeeps(cfg: Config, bars: seq<Bar>, ts: seq<Trade>, k: nat, worst: real)
    requires Divisible(cfg, bars) && Explained(cfg, bars, ts) && k < |ts|
    requires PositivePrices(bars) && Confident(bars)
    requires 0.0 <= cfg.slippage < 1.0 && cfg.positionSize >= 0.0 && CapitalBefore(cfg, ts, k) >= 0.0
    requires worst >= 0.0 && ShareAtMost(cfg, bars, ts, k, worst)
    ensures Keeps(cfg, ts, k, 1.0 - Risk(cfg, worst))
  {
    var value := TradeLoss(cfg, bars, ts, k);
    LossOfStake(cfg, CapitalBefore(cfg, ts, k), value,
                LossShare(cfg.slippage, ts[k].direction, ExitRatio(bars, ts[k])), worst);
    CapitalStep(cfg, ts, k);
  }

  lemma {:induction false} Compound(initial: real, keep: real, k: nat, before: real)
    requires before >= initial * Power(keep, k) && keep > 0.0
    ensures before * keep >= initial * Power(keep, k + 1)
  {
    Scale(initial * Power(keep, k), before, keep);
    Associate(initial, Power(keep, k), keep);
  }

  /** Trades that each keep a fraction of a positive capital leave its power. */
  lemma {:induction false} KeptFractions(cfg: Config, ts: seq<Trade>, keep: real, k: nat)
    requires k <= |ts| && cfg.initialCapital > 0.0 && keep > 0.0
    requires forall j: nat :: j < k && CapitalBefore(cfg, ts, j) >= 0.0 ==> Keeps(cfg, ts, j, keep)
    ensures CapitalBefore(cfg, ts, k) >= cfg.initialCapital * Power(keep, k) > 0.0
  {
    PowerPositive(keep, k);
    ProductPositive(cfg.initialCapital, Power(keep, k));
    if k > 0 {
      KeptFractions(cfg, ts, keep, k - 1);
      assert Keeps(cfg, ts, k - 1, keep);
      Compound(cfg.initialCapital, keep, k - 1, CapitalBefore(cfg, ts, k - 1));
    }
  }

  /** The k-th trade loses no larger share of its entry value than `worst`. */
  predicate ShareAtMost(cfg: Config, bars: seq<Bar>, ts: seq<Trade>, k: nat, worst: real)
    requires k < |ts|
  {
    && ts[k].entryBar < |bars| && ts[k].exitBar < |bars| && EntryClose(bars, ts[k]) != 0.0
    && LossShare(cfg.slippage, ts[k].direction, ExitRatio(bars, ts[k])) <= worst
  }

  /** A run whose trades lose no more than a share keeps the power of what one such loss leaves. */
  lemma {:induction false} BoundedRun(cfg: Config, bars: seq<Bar>, ts: seq<Trade>, k: nat, worst: real)
    requires Divisible(cfg, bars) && Explained(cfg, bars, ts) && k <= |ts|
    requires PositivePrices(bars) && Confident(bars) && worst >= 0.0
    requires 0.0 <= cfg.slippage < 1.0 && cfg.positionSize >= 0.0 && cfg.initialCapital > 0.0
    requires Risk(cfg, worst) < 1.0
    requires forall j: nat :: j < k ==> ShareAtMost(cfg, bars, ts, j, worst)
    ensures CapitalBefore(cfg, ts, k)
         >= cfg.initialCapital * Power(1.0 - Risk(cfg, worst), k) > 0.0
  {
    var keep := 1.0 - Risk(cfg, worst);
    forall j: nat | j < k && CapitalBefore(cfg, ts, j) >= 0.0 ensures Keeps(cfg, ts, j, keep) {
      assert ShareAtMost(cfg, bars, ts, j, worst);
      TradeKeeps(cfg, bars, ts, j, worst);
    }
    KeptFractions(cfg, ts, keep, k);
  }

  ghost predicate Solvent(cfg: Config, trades: seq<Trade>) {
    forall k: nat :: k <= |trades| ==> CapitalBefore(cfg, trades, k) > 0.0
  }

  // ----- A run of one trade, which attains the bounds

  /** One signal of full confidence at price p, then a bar at price x on which the strategy raises. */
  function OneSignal(kind: SignalKind, p: real, x: real): seq<Bar> {
    [Bar(p, Signal(kind, Some(1.0))), Bar(x, Raised)]
  }

  /** The ratio the trade of that run sees: none, if the position is closed on its entry bar. */
  function SeenRatio(cfg: Config, direction: Direction, ratio: real): real
    requires -1.0 < cfg.slippage < 1.0
  {
    if Instant(cfg, direction) then 1.0 else ratio
  }

  /** What a trade of the whole stake leaves of the initial capital when it loses that share. */
  function Left(cfg: Config, share: real): real {
    cfg.initialCapital * (1.0 - Risk(cfg, share))
  }

  predicate SingleTradeLeaves(cfg: Config, trades: seq<Trade>, share: real) {
    |trades| == 1 && CapitalBefore(cfg, trades, 1) == Left(cfg, share)
  }

  function KindOf(direction: Direction): SignalKind {
    if direction == Long then Buy else Sell
  }

  /** The trade of that run, closed on bar 0 or bar 1. */
  lemma {:induction false} SingleTrade(cfg: Config, direction: Direction, p: real, x: real, exit: nat,
          reason: ExitReason)
    returns (ts: seq<Trade>)
    requires p > 0.0 && x > 0.0 && 0.0 <= cfg.slippage < 1.0 && exit < 2
    ensures var bars := OneSignal(KindOf(direction), p, x);
      && |ts| == 1 && PositionOf(ts[0]) == Opened(cfg, 0, bars[0], cfg.initialCapital)
      && ts[0].entryPrice != 0.0 && CapitalBefore(cfg, ts, 0) == cfg.initialCapital
      && ts[0] == Closed(cfg, PositionOf(ts[0]), exit, bars[exit].close, reason)
      && SingleTradeLeaves(cfg, ts, LossShare(cfg.slippage, direction, bars[exit].close / p))
  {
    var bars := OneSignal(KindOf(direction), p, x);
    var pos := Opened(cfg, 0, bars[0], cfg.initialCapital);
    OpeningMove(cfg, 0, bars[0], cfg.initialCapital);
    ts := [Closed(cfg, pos, exit, bars[exit].close, reason)];
    assert PositionOf(ts[0]) == pos;
    CapitalStep(cfg, ts, 0);
    FullStake(cfg, bars[0], bars[exit].close);
  }

  lemma {:induction false} OneTradeRun(cfg: Config, direction: Direction, p: real, x: real) returns (ts: seq<Trade>)
    requires p > 0.0 && x > 0.0 && 0.0 <= cfg.slippage < 1.0
    ensures var bars := OneSignal(KindOf(direction), p, x);
      && Divisible(cfg, bars) && Explained(cfg, bars, ts)
    ensures SingleTradeLeaves(cfg, ts, LossShare(cfg.slippage, direction, SeenRatio(cfg, direction, x / p)))
  {
    var bars := OneSignal(KindOf(direction), p, x);
    OpeningMove(cfg, 0, bars[0], cfg.initialCapital);
    var verdict := Verdict(cfg, Opened(cfg, 0, bars[0], cfg.initialCapital), p);
    if Instant(cfg, direction) {
      ts := SingleTrade(cfg, direction, p, x, 0, verdict.value);
      QuotientIs(p, p, 1.0);
      assert ThresholdTrade(cfg, bars, ts, 0);
    } else {
      ts := SingleTrade(cfg, direction, p, x, 1, End);
      assert FinalTrade(cfg, bars, ts, 0);
    }
  }

  /** With full confidence the entry value is the whole stake. */
  lemma {:induction false} FullStake(cfg: Config, b: Bar, x: real)
    requires Actionable(b) && b.outcome.confidence == Some(1.0) && b.close > 0.0
    ensures var pos := Opened(cfg, 0, b, cfg.initialCapital);
      cfg.initialCapital + Pnl(cfg, pos, x) == Left(cfg, LossShare(cfg.slippage, pos.direction, x / b.close))
  {
    var pos := Opened(cfg, 0, b, cfg.initialCapital);
    var share := LossShare(cfg.slippage, pos.direction, x / b.close);
    PnlIsShare(cfg, pos, b.close, x);
    assert pos.quantity * b.close == cfg.initialCapital * cfg.positionSize;
    Associate(cfg.initialCapital, cfg.positionSize, share);
  }

  // ----- Arbitrary signals, prices in a band

  /** Every close lies in the band and every acted-on confidence in [0, 1]. */
  predicate InBand(bars: seq<Bar>, lo: real, hi: real) {
    Confident(bars) && forall i :: 0 <= i < |bars| ==> lo <= bars[i].close <= hi
  }

  /** The worst ratio of exit to entry price in the band. */
  function WorstRatio(direction: Direction, lo: real, hi: real): real
    requires 0.0 < lo <= hi
  {
    if direction == Long then lo / hi else hi / lo
  }

  function WorstShare(cfg: Config, direction: Direction, lo: real, hi: real): real
    requires 0.0 < lo <= hi && -1.0 < cfg.slippage < 1.0
  {
    LossShare(cfg.slippage, direction, SeenRatio(cfg, direction, WorstRatio(direction, lo, hi)))
  }

  lemma {:induction false} RatioAtLeast(p: real, x: real, lo: real, hi: real)
    requires 0.0 < lo <= p <= hi && lo <= x
    ensures lo / hi <= x / p
  {
    var small := lo / hi;
    DivideCompares(lo, hi, 0.0);
    Scale(p, hi, small);
    assert small * hi == lo;
    DivideCompares(x, p, small);
  }

  lemma {:induction false} RatioAtMost(p: real, x: real, lo: real, hi: real)
    requires 0.0 < lo <= p && x <= hi && 0.0 <= hi
    ensures x / p <= hi / lo
  {
    var large := hi / lo;
    DivideCompares(hi, lo, 0.0);
    Scale(lo, p, large);
    assert large * lo == hi;
    DivideCompares(x, p, large);
  }

  lemma {:induction false} RatioInBand(p: real, x: real, lo: real, hi: real)
    requires 0.0 < lo <= p <= hi && lo <= x <= hi
    ensures lo / hi <= x / p <= hi / lo && lo / hi <= 1.0 <= hi / lo
  {
    RatioAtLeast(p, x, lo, hi);
    RatioAtMost(p, x, lo, hi);
    DivideCompares(lo, hi, 1.0);
    DivideCompares(hi, lo, 1.0);
  }

  /** In a run over the band no trade loses a larger share than the worst one. */
  lemma {:induction false} ShareInBand(cfg: Config, bars: seq<Bar>, ts: seq<Trade>, k: nat, lo: real, hi: real)
    requires Divisible(cfg, bars) && Explained(cfg, bars, ts) && k < |ts|
    requires 0.0 < lo <= hi && InBand(bars, lo, hi) && 0.0 <= cfg.slippage < 1.0
    ensures ShareAtMost(cfg, bars, ts, k, WorstShare(cfg, ts[k].direction, lo, hi))
  {
    var t := ts[k];
    TradeOfBars(cfg, bars, ts, k);
    EntryBarExit(cfg, bars, ts, k);
    var p, x := bars[t.entryBar].close, bars[t.exitBar].close;
    if Instant(cfg, t.direction) {
      QuotientIs(p, p, 1.0);
    } else {
      RatioInBand(p, x, lo, hi);
      ShareMonotone(cfg.slippage, t.direction, ExitRatio(bars, t), WorstRatio(t.direction, lo, hi));
    }
  }

  /** `worst` is what the worse of the two directions loses, as a part of the entry value. */
  predicate IsWorst(cfg: Config, lo: real, hi: real, worst: real)
    requires 0.0 < lo <= hi && -1.0 < cfg.slippage < 1.0
  {
    && worst >= WorstShare(cfg, Long, lo, hi) && worst >= WorstShare(cfg, Short, lo, hi)
    && (worst == WorstShare(cfg, Long, lo, hi) || worst == WorstShare(cfg, Short, lo, hi))
  }

  lemma {:induction false} WorstNonNegative(cfg: Config, lo: real, hi: real, worst: real)
    requires 0.0 < lo <= hi && 0.0 <= cfg.slippage < 1.0 && IsWorst(cfg, lo, hi, worst)
    ensures worst >= 0.0
  {
    RatioInBand(lo, lo, lo, hi);
    ShareMonotone(cfg.slippage, Short, 1.0, hi / lo);
    ShareOfNoMove(cfg.slippage, Short);
  }

  lemma {:induction false} AtMostWorst(cfg: Config, bars: seq<Bar>, ts: seq<Trade>, k: nat, lo: real, hi: real,
          worst: real)
    requires Divisible(cfg, bars) && Explained(cfg, bars, ts) && k < |ts|
    requires 0.0 < lo <= hi && InBand(bars, lo, hi) && 0.0 <= cfg.slippage < 1.0
    requires IsWorst(cfg, lo, hi, worst)
    ensures ShareAtMost(cfg, bars, ts, k, worst)
  {
    ShareInBand(cfg, bars, ts, k, lo, hi);
    assert ts[k].direction == Long || ts[k].direction == Short;
  }

  /** Whatever the signals, capital before trade k is at least the k-th power of what the worst trade leaves. */
  lemma {:induction false} BandKeepsCapital(cfg: Config, bars: seq<Bar>, ts: seq<Trade>, k: nat, lo: real, hi: real,
          worst: real)
    requires Divisible(cfg, bars) && Explained(cfg, bars, ts) && k <= |ts|
    requires 0.0 < lo <= hi && InBand(bars, lo, hi)
    requires 0.0 <= cfg.slippage < 1.0 && cfg.positionSize >= 0.0 && cfg.initialCapital > 0.0
    requires IsWorst(cfg, lo, hi, worst) && Risk(cfg, worst) < 1.0
    ensures CapitalBefore(cfg, ts, k) >= cfg.initialCapital * Power(1.0 - Risk(cfg, worst), k) > 0.0
  {
    WorstNonNegative(cfg, lo, hi, worst);
    forall j: nat | j < k ensures ShareAtMost(cfg, bars, ts, j, worst) {
      AtMostWorst(cfg, bars, ts, j, lo, hi, worst);
    }
    BoundedRun(cfg, bars, ts, k, worst);
  }

  ghost predicate AlwaysSolvent(cfg: Config, lo: real, hi: real) {
    forall bars, trades ::
      Divisible(cfg, bars) && InBand(bars, lo, hi) && Explained(cfg, bars, trades) ==> Solvent(cfg, trades)
  }

  lemma {:induction false} BandSolvent(cfg: Config, lo: real, hi: real, worst: real)
    requires 0.0 < lo <= hi && 0.0 <= cfg.slippage < 1.0
    requires cfg.positionSize >= 0.0 && cfg.initialCapital > 0.0
    requires IsWorst(cfg, lo, hi, worst) && Risk(cfg, worst) < 1.0
    ensures AlwaysSolvent(cfg, lo, hi)
  {
    forall bars, ts | Divisible(cfg, bars) && InBand(bars, lo, hi) && Explained(cfg, bars, ts)
      ensures Solvent(cfg, ts)
    {
      forall k: nat | k <= |ts| ensures CapitalBefore(cfg, ts, k) > 0.0 {
        BandKeepsCapital(cfg, bars, ts, k, lo, hi, worst);
      }
    }
  }

  /** The run that attains the worst loss: the worse direction, from the worst entry to the worst exit price. */
  lemma {:induction false} WorstRun(cfg: Config, lo: real, hi: real, worst: real)
    returns (bars: seq<Bar>, ts: seq<Trade>)
    requires 0.0 < lo <= hi && 0.0 <= cfg.slippage < 1.0 && IsWorst(cfg, lo, hi, worst)
    ensures Divisible(cfg, bars) && InBand(bars, lo, hi) && Explained(cfg, bars, ts)
    ensures SingleTradeLeaves(cfg, ts, worst)
  {
    if worst == WorstShare(cfg, Long, lo, hi) {
      bars := OneSignal(Buy, hi, lo);
      ts := OneTradeRun(cfg, Long, hi, lo);
    } else {
      bars := OneSignal(Sell, lo, hi);
      ts := OneTradeRun(cfg, Short, lo, hi);
    }
  }

  lemma {:induction false} NothingLeft(cfg: Config, ts: seq<Trade>, share: real)
    requires SingleTradeLeaves(cfg, ts, share)
    requires cfg.initialCapital > 0.0 && Risk(cfg, share) >= 1.0
    ensures CapitalBefore(cfg, ts, 1) <= 0.0 && !Solvent(cfg, ts)
  {
    Scale(1.0 - Risk(cfg, share), 0.0, cfg.initialCapital);
  }

  /** Every run over the band stays solvent exactly when the worst trade does. */
  lemma {:induction false} SolventIffWorstTradeIs(cfg: Config, lo: real, hi: real, worst: real)
    requires 0.0 < lo <= hi && 0.0 <= cfg.slippage < 1.0
    requires cfg.positionSize >= 0.0 && cfg.initialCapital > 0.0 && IsWorst(cfg, lo, hi, worst)
    ensures AlwaysSolvent(cfg, lo, hi) <==> Risk(cfg, worst) < 1.0
  {
    if Risk(cfg, worst) < 1.0 {
      BandSolvent(cfg, lo, hi, worst);
    } else {
      var bars, ts := WorstRun(cfg, lo, hi, worst);
      NothingLeft(cfg, ts, worst);
    }
  }

  /** A short held in the band is its worst trade, unless slippage alone closes shorts at once. */
  lemma {:induction false} WorstInClosedForm(cfg: Config, lo: real, hi: real, worst: real)
    requires 0.0 < lo <= hi && 0.0 <= cfg.slippage < 1.0
    ensures IsWorst(cfg, lo, hi, worst)
       <==> (worst == if !Instant(cfg, Short) then LossShare(cfg.slippage, Short, hi / lo)
                      else if !Instant(cfg, Long) then LossShare(cfg.slippage, Long, lo / hi)
                      else 2.0 * cfg.slippage)
  {
    var s, small, large := cfg.slippage, lo / hi, hi / lo;
    RatioInBand(lo, lo, lo, hi);
    ShareOfNoMove(s, Long);
    ShareOfNoMove(s, Short);
    ShareMonotone(s, Long, 1.0, small);
    ShareMonotone(s, Short, 1.0, large);
    RatiosSpread(lo, hi);
    ShortIsWorse(s, small, large);
  }

  lemma {:induction false} ShortIsWorse(s: real, small: real, large: real)
    requires 0.0 <= s < 1.0 && 1.0 - small <= large - 1.0 && large >= 1.0
    ensures LossShare(s, Long, small) <= LossShare(s, Short, large)
  {
    ScaleBoth(1.0 - small, large - 1.0, 1.0 - s, 1.0 + s);
    assert LossShare(s, Long, small) == 2.0 * s + (1.0 - small) * (1.0 - s);
    assert LossShare(s, Short, large) == 2.0 * s + (large - 1.0) * (1.0 + s);
  }

  lemma {:induction false} ScaleBoth(x: real, y: real, a: real, b: real)
    requires x <= y && y >= 0.0 && 0.0 <= a <= b
    ensures x * a <= y * b
  {
    Scale(x, y, a);
    Scale(a, b, y);
  }

  /** A fall from the top to the bottom is relatively no more than the rise back. */
  lemma {:induction false} RatiosSpread(lo: real, hi: real)
    requires 0.0 < lo <= hi
    ensures 1.0 - lo / hi <= hi / lo - 1.0
  {
    var small, large := lo / hi, hi / lo;
    assert small * hi == lo && large * lo == hi;
    Associate(small, large, lo);
    assert (small * large - 1.0) * lo == 0.0;
    QuotientPositive(hi, lo);
    Reciprocals(small, large);
  }

  lemma {:induction false} Reciprocals(x: real, y: real)
    requires x * y == 1.0 && y > 0.0
    ensures 1.0 - x <= y - 1.0
  {
    assert (x + y - 2.0) * y == (y - 1.0) * (y - 1.0) >= 0.0;
    if x + y - 2.0 < 0.0 {
      StrictScale(x + y - 2.0, 0.0, y);
    }
  }

  // ----- Buy-only runs at any positive prices

  predicate BuyOnly(bars: seq<Bar>) {
    Confident(bars) && forall i :: 0 <= i < |bars| && Actionable(bars[i]) ==> bars[i].outcome.kind == Buy
  }

  /** A held long loses less than its whole cost, slippage included. */
  lemma {:induction false} LongShareBelow(slippage: real, p: real, x: real)
    requires 0.0 <= slippage < 1.0 && p > 0.0 && x > 0.0
    ensures LossShare(slippage, Long, x / p) < 1.0 + slippage
  {
    QuotientPositive(x, p);
    ProductPositive(x / p, 1.0 - slippage);
  }

  /** The most a long can lose of its entry value; a held one comes arbitrarily close to it, never there. */
  predicate IsLongLimit(cfg: Config, limit: real)
    requires -1.0 < cfg.slippage < 1.0
  {
    limit == if Instant(cfg, Long) then 2.0 * cfg.slippage else 1.0 + cfg.slippage
  }

  /** In a buy-only run every trade stays at or, when held, below that limit. */
  lemma {:induction false} BuyOnlyShare(cfg: Config, bars: seq<Bar>, ts: seq<Trade>, k: nat, limit: real)
    requires Divisible(cfg, bars) && Explained(cfg, bars, ts) && k < |ts|
    requires BuyOnly(bars) && PositivePrices(bars) && 0.0 <= cfg.slippage < 1.0 && IsLongLimit(cfg, limit)
    ensures ts[k].direction == Long && ShareAtMost(cfg, bars, ts, k, limit)
    ensures !Instant(cfg, Long) ==> LossShare(cfg.slippage, Long, ExitRatio(bars, ts[k])) < limit
  {
    var t := ts[k];
    TradeOfBars(cfg, bars, ts, k);
    EntryBarExit(cfg, bars, ts, k);
    var p, x := bars[t.entryBar].close, bars[t.exitBar].close;
    if Instant(cfg, Long) {
      QuotientIs(p, p, 1.0);
    } else {
      LongShareBelow(cfg.slippage, p, x);
    }
  }

  /** A buy-only run keeps at least the k-th power of the fraction one trade can leave. */
  lemma {:induction false} BuyOnlyKeepsCapital(cfg: Config, bars: seq<Bar>, ts: seq<Trade>, k: nat, limit: real)
    requires Divisible(cfg, bars) && Explained(cfg, bars, ts) && k <= |ts|
    requires BuyOnly(bars) && PositivePrices(bars)
    requires 0.0 <= cfg.slippage < 1.0 && cfg.positionSize >= 0.0 && cfg.initialCapital > 0.0
    requires IsLongLimit(cfg, limit) && Risk(cfg, limit) < 1.0
    ensures CapitalBefore(cfg, ts, k) >= cfg.initialCapital * Power(1.0 - Risk(cfg, limit), k) > 0.0
  {
    forall j: nat | j < k ensures ShareAtMost(cfg, bars, ts, j, limit) {
      BuyOnlyShare(cfg, bars, ts, j, limit);
    }
    BoundedRun(cfg, bars, ts, k, limit);
  }

  /** A full-confidence position can lose no more than the capital; if closed at once, only less than that. */
  predicate BuyOnlySafe(cfg: Config, limit: real)
    requires -1.0 < cfg.slippage < 1.0
  {
    Risk(cfg, limit) < 1.0 || (Risk(cfg, limit) == 1.0 && !Instant(cfg, Long))
  }

  lemma {:induction false} LessThanAll(cfg: Config, capital: real, value: real, share: real, limit: real)
    requires capital > 0.0 && 0.0 <= value <= capital * cfg.positionSize && share < limit && limit > 0.0
    requires Risk(cfg, limit) <= 1.0
    ensures capital - value * share > 0.0
  {
    Scale(value, capital * cfg.positionSize, limit);
    Associate(capital, cfg.positionSize, limit);
    Scale(Risk(cfg, limit), 1.0, capital);
    if value > 0.0 {
      StrictScale(share, limit, value);
    }
  }

  lemma {:induction false} PartOfCapital(cfg: Config, capital: real, value: real, share: real, limit: real)
    requires capital > 0.0 && 0.0 <= value <= capital * cfg.positionSize && share <= limit && limit >= 0.0
    requires Risk(cfg, limit) < 1.0
    ensures capital - value * share > 0.0
  {
    LossOfStake(cfg, capital, value, share, limit);
    ProductPositive(capital, 1.0 - Risk(cfg, limit));
  }

  /** One more trade leaves something. */
  lemma {:induction false} BuyOnlyStep(cfg: Config, bars: seq<Bar>, ts: seq<Trade>, k: nat, limit: real)
    requires 0.0 <= cfg.slippage < 1.0 && cfg.positionSize >= 0.0 && IsLongLimit(cfg, limit)
    requires Divisible(cfg, bars) && Explained(cfg, bars, ts) && k < |ts|
    requires BuyOnly(bars) && PositivePrices(bars) && BuyOnlySafe(cfg, limit)
    requires CapitalBefore(cfg, ts, k) > 0.0
    ensures CapitalBefore(cfg, ts, k + 1) > 0.0
  {
    BuyOnlyShare(cfg, bars, ts, k, limit);
    var value := TradeLoss(cfg, bars, ts, k);
    var share := LossShare(cfg.slippage, Long, ExitRatio(bars, ts[k]));
    CapitalStep(cfg, ts, k);
    if Instant(cfg, Long) {
      PartOfCapital(cfg, CapitalBefore(cfg, ts, k), value, share, limit);
    } else {
      LessThanAll(cfg, CapitalBefore(cfg, ts, k), value, share, limit);
    }
  }

  lemma {:induction false} BuyOnlySolvent(cfg: Config, bars: seq<Bar>, ts: seq<Trade>, k: nat, limit: real)
    requires 0.0 <= cfg.slippage < 1.0 && cfg.positionSize >= 0.0 && cfg.initialCapital > 0.0
    requires Divisible(cfg, bars) && Explained(cfg, bars, ts) && k <= |ts|
    requires BuyOnly(bars) && PositivePrices(bars) && IsLongLimit(cfg, limit) && BuyOnlySafe(cfg, limit)
    ensures CapitalBefore(cfg, ts, k) > 0.0
  {
    if k > 0 {
      BuyOnlySolvent(cfg, bars, ts, k - 1, limit);
      BuyOnlyStep(cfg, bars, ts, k - 1, limit);
    }
  }

  ghost predicate AlwaysSolventBuying(cfg: Config) {
    forall bars, trades ::
      Divisible(cfg, bars) && BuyOnly(bars) && PositivePrices(bars) && Explained(cfg, bars, trades)
      ==> Solvent(cfg, trades)
  }

  /** A fall deep enough to take the whole capital when the cost of the position exceeds it. */
  lemma {:induction false} DeepFall(cfg: Config, limit: real) returns (ratio: real)
    requires 0.0 <= cfg.slippage < 1.0 && cfg.positionSize >= 0.0
    requires limit == 1.0 + cfg.slippage && Risk(cfg, limit) > 1.0
    ensures ratio > 0.0 && Risk(cfg, LossShare(cfg.slippage, Long, ratio)) >= 1.0
  {
    var size, excess, kept := cfg.positionSize, Risk(cfg, limit) - 1.0, 1.0 - cfg.slippage;
    assert size > 0.0;
    QuotientPositive(excess, size);
    ratio := excess / size;
    Scale(kept, 1.0, excess);
    assert LossShare(cfg.slippage, Long, ratio) == limit - ratio * kept;
    Subtract(size, limit, ratio * kept);
    assert ratio * size == excess;
    Associate(size, ratio, kept);
  }

  lemma {:induction false} Subtract(a: real, b: real, c: real)
    ensures a * (b - c) == a * b - a * c
  {}

  /** The run that uses up the capital when that condition fails. */
  lemma {:induction false} BuyingGoesBroke(cfg: Config, limit: real) returns (bars: seq<Bar>, ts: seq<Trade>)
    requires 0.0 <= cfg.slippage < 1.0 && cfg.positionSize >= 0.0 && cfg.initialCapital > 0.0
    requires IsLongLimit(cfg, limit) && !BuyOnlySafe(cfg, limit)
    ensures Divisible(cfg, bars) && BuyOnly(bars) && PositivePrices(bars) && Explained(cfg, bars, ts)
    ensures !Solvent(cfg, ts)
  {
    var ratio := 1.0;
    if Instant(cfg, Long) {
      ShareOfNoMove(cfg.slippage, Long);
    } else {
      ratio := DeepFall(cfg, limit);
    }
    bars := OneSignal(Buy, 1.0, ratio);
    ts := OneTradeRun(cfg, Long, 1.0, ratio);
    assert ratio / 1.0 == ratio;
    NothingLeft(cfg, ts, if Instant(cfg, Long) then limit else LossShare(cfg.slippage, Long, ratio));
  }

  lemma {:induction false} SafeBuying(cfg: Config, limit: real)
    requires 0.0 <= cfg.slippage < 1.0 && cfg.positionSize >= 0.0 && cfg.initialCapital > 0.0
    requires IsLongLimit(cfg, limit) && BuyOnlySafe(cfg, limit)
    ensures AlwaysSolventBuying(cfg)
  {
    forall bars, ts | Divisible(cfg, bars) && BuyOnly(bars) && PositivePrices(bars) && Explained(cfg, bars, ts)
      ensures Solvent(cfg, ts)
    {
      forall k: nat | k <= |ts| ensures CapitalBefore(cfg, ts, k) > 0.0 {
        BuyOnlySolvent(cfg, bars, ts, k, limit);
      }
    }
  }

  /**
   * Every buy-only run at positive prices stays solvent exactly when a full-confidence position costs no
   * more than the capital; where slippage alone closes it at once, when that loss is less than the capital.
   */
  lemma {:induction false} BuyOnlySolventIff(cfg: Config, limit: real)
    requires 0.0 <= cfg.slippage < 1.0 && cfg.positionSize >= 0.0 && cfg.initialCapital > 0.0
    requires limit == if Instant(cfg, Long) then 2.0 * cfg.slippage else 1.0 + cfg.slippage
    ensures AlwaysSolventBuying(cfg) <==>
        Risk(cfg, limit) < 1.0 || (Risk(cfg, limit) == 1.0 && !Instant(cfg, Long))
  {
    if BuyOnlySafe(cfg, limit) {
      SafeBuying(cfg, limit);
    } else {
      var bars, ts := BuyingGoesBroke(cfg, limit);
    }
  }

  /** With sell signals the same settings can leave a negative capital: one tenfold rise is enough. */
  lemma {:induction false} ShortCanGoBroke() returns (cfg: Config, bars: seq<Bar>, ts: seq<Trade>)
    ensures Divisible(cfg, bars) && Explained(cfg, bars, ts) && PositivePrices(bars) && Confident(bars)
    ensures cfg.slippage == 0.0 && cfg.positionSize == 0.5 && cfg.initialCapital == 100.0
    ensures |ts| == 1 && CapitalBefore(cfg, ts, 1) == -350.0
  {
    cfg := Config(100.0, 0.5, 0.0, 0.1, 0.2);
    bars := OneSignal(Sell, 1.0, 10.0);
    ts := OneTradeRun(cfg, Short, 1.0, 10.0);
    assert !Instant(cfg, Short) && 10.0 / 1.0 == 10.0;
    assert LossShare(0.0, Short, 10.0) == 9.0;
    assert Left(cfg, 9.0) == -350.0;
  }
}
