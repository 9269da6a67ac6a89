/**
 * The bar-by-bar backtest of one parameter combination. A run holds at most one position,
 * is driven by an arbitrary stream of strategy outcomes, and skips a bar entirely (its
 * stop-loss / take-profit check included) when the strategy raises on it.
 *
 * `Explained` describes the trades of a run without any state machine; the loop is proved
 * to produce exactly the list it describes, and the properties are proved from it.
 */
module Backtest {
  import opened Options
  import opened RealSeq

  datatype Config = Config(
    initialCapital: real,
    positionSize: real,
    slippage: real,
    stopLoss: real,
    takeProfit: real)

  datatype SignalKind = Buy | Sell | Other

  /** What `generate_signal` did on a bar: raised, returned nothing, or returned a signal. */
  datatype Outcome = Raised | Silent | Signal(kind: SignalKind, confidence: Option<real>)

  datatype Bar = Bar(close: real, outcome: Outcome)

  datatype Direction = Long | Short

  datatype ExitReason = StopLoss | TakeProfit | End

  datatype Position = Position(entryBar: nat, entryPrice: real, quantity: real, direction: Direction)

  /** `entryBar` and `exitBar` are the rows whose timestamps the source records. */
  datatype Trade = Trade(
    entryBar: nat,
    exitBar: nat,
    entryPrice: real,
    exitPrice: real,
    quantity: real,
    direction: Direction,
    pnl: real,
    pnlPct: real,
    reason: ExitReason)

  predicate Evaluated(b: Bar) { !b.outcome.Raised? }

  predicate Acts(o: Outcome) { o.Signal? && o.kind != Other }

  predicate Actionable(b: Bar) { Acts(b.outcome) }

  function Confidence(b: Bar): real
    requires Actionable(b)
  {
    b.outcome.confidence.GetOr(0.5)
  }

  /** What slippage does to the price a position is opened at. */
  function EntryFactor(cfg: Config, b: Bar): real
    requires Actionable(b)
  {
    if b.outcome.kind == Buy then 1.0 + cfg.slippage else 1.0 - cfg.slippage
  }

  /** No division has a zero divisor: prices are divided by where a position may be opened, and entry prices. */
  predicate Divisible(cfg: Config, bars: seq<Bar>) {
    forall i :: 0 <= i < |bars| && Actionable(bars[i]) ==>
      bars[i].close != 0.0 && EntryFactor(cfg, bars[i]) != 0.0
  }

  function Quantity(capital: real, size: real, confidence: real, price: real): real
    requires price != 0.0
  {
    capital * size * confidence / price
  }

  function Opened(cfg: Config, i: nat, b: Bar, capital: real): Position
    requires Actionable(b) && b.close != 0.0
  {
    var quantity := Quantity(capital, cfg.positionSize, Confidence(b), b.close);
    Position(i, b.close * EntryFactor(cfg, b), quantity, if b.outcome.kind == Buy then Long else Short)
  }

  function PnlPct(pos: Position, price: real): real
    requires pos.entryPrice != 0.0
  {
    var move := (price - pos.entryPrice) / pos.entryPrice;
    if pos.direction == Short then -move else move
  }

  /** The threshold the close of a bar meets; the stop is tested first. */
  function Verdict(cfg: Config, pos: Position, price: real): Option<ExitReason>
    requires pos.entryPrice != 0.0
  {
    if PnlPct(pos, price) <= -cfg.stopLoss then Some(StopLoss)
    else if PnlPct(pos, price) >= cfg.takeProfit then Some(TakeProfit)
    else None
  }

  function ExitPrice(cfg: Config, pos: Position, price: real): real {
    if pos.direction == Long then price * (1.0 - cfg.slippage) else price * (1.0 + cfg.slippage)
  }

  function Pnl(cfg: Config, pos: Position, price: real): real {
    var exit := ExitPrice(cfg, pos, price);
    if pos.direction == Long then pos.quantity * (exit - pos.entryPrice)
    else pos.quantity * (pos.entryPrice - exit)
  }

  function Closed(cfg: Config, pos: Position, i: nat, price: real, reason: ExitReason): Trade
    requires pos.entryPrice != 0.0
  {
    var exit := ExitPrice(cfg, pos, price);
    Trade(pos.entryBar, i, pos.entryPrice, exit, pos.quantity, pos.direction, Pnl(cfg, pos, price),
          if reason == End then (exit - pos.entryPrice) / pos.entryPrice else PnlPct(pos, price),
          reason)
  }

  function TotalPnl(trades: seq<Trade>): real {
    if |trades| == 0 then 0.0 else TotalPnl(trades[..|trades| - 1]) + trades[|trades| - 1].pnl
  }

  function CapitalBefore(cfg: Config, trades: seq<Trade>, k: nat): real
    requires k <= |trades|
  {
    cfg.initialCapital + TotalPnl(trades[..k])
  }

  // ----- The declarative description of a run

  /** The first bar on which the k-th trade may be opened: the one after the previous exit. */
  function FreeFrom(trades: seq<Trade>, k: nat): nat
    requires k <= |trades|
  {
    if k == 0 then 0 else trades[k - 1].exitBar + 1
  }

  predicate Quiet(cfg: Config, pos: Position, b: Bar)
    requires pos.entryPrice != 0.0
  {
    Evaluated(b) ==> Verdict(cfg, pos, b.close) == None
  }

  ghost predicate Idle(bars: seq<Bar>, lo: int, hi: int)
    requires 0 <= lo && hi <= |bars|
  {
    forall j :: lo <= j < hi ==> !Actionable(bars[j])
  }

  /** `pos` was opened on the first actionable bar from `from` on, and nothing met a threshold up to `hi`. */
  ghost predicate Held(cfg: Config, bars: seq<Bar>, pos: Position, from: nat, hi: nat, capital: real)
    requires Divisible(cfg, bars)
  {
    && from <= pos.entryBar < |bars| && hi <= |bars|
    && Actionable(bars[pos.entryBar])
    && Idle(bars, from, pos.entryBar)
    && pos == Opened(cfg, pos.entryBar, bars[pos.entryBar], capital)
    && pos.entryPrice != 0.0
    && forall j :: pos.entryBar <= j < hi ==> Quiet(cfg, pos, bars[j])
  }

  function PositionOf(t: Trade): Position { Position(t.entryBar, t.entryPrice, t.quantity, t.direction) }

  /** The k-th trade was opened as soon as possible and held through every quiet bar before its exit. */
  ghost predicate Entered(cfg: Config, bars: seq<Bar>, trades: seq<Trade>, k: nat)
    requires Divisible(cfg, bars) && k < |trades|
  {
    var t := trades[k];
    && t.entryBar <= t.exitBar < |bars|
    && Held(cfg, bars, PositionOf(t), FreeFrom(trades, k), t.exitBar, CapitalBefore(cfg, trades, k))
    && t == Closed(cfg, PositionOf(t), t.exitBar, bars[t.exitBar].close, t.reason)
  }

  /** ... and closed by the threshold its exit bar met. */
  ghost predicate ThresholdTrade(cfg: Config, bars: seq<Bar>, trades: seq<Trade>, k: nat)
    requires Divisible(cfg, bars) && k < |trades|
  {
    var t := trades[k];
    && Entered(cfg, bars, trades, k)
    && Evaluated(bars[t.exitBar])
    && Verdict(cfg, PositionOf(t), bars[t.exitBar].close) == Some(t.reason)
  }

  /** ... or never met one and was closed with the last bar. */
  ghost predicate FinalTrade(cfg: Config, bars: seq<Bar>, trades: seq<Trade>, k: nat)
    requires Divisible(cfg, bars) && k < |trades|
  {
    var t := trades[k];
    && Entered(cfg, bars, trades, k)
    && t.reason == End && k == |trades| - 1 && t.exitBar == |bars| - 1
    && Quiet(cfg, PositionOf(t), bars[t.exitBar])
  }

  ghost predicate TradeExplained(cfg: Config, bars: seq<Bar>, trades: seq<Trade>, k: nat)
    requires Divisible(cfg, bars) && k < |trades|
  {
    ThresholdTrade(cfg, bars, trades, k) || FinalTrade(cfg, bars, trades, k)
  }

  /** The whole list: every trade explained, and no opportunity left after the last exit. */
  ghost predicate Explained(cfg: Config, bars: seq<Bar>, trades: seq<Trade>)
    requires Divisible(cfg, bars)
  {
    && (forall k :: 0 <= k < |trades| ==> TradeExplained(cfg, bars, trades, k))
    && Idle(bars, FreeFrom(trades, |trades|), |bars|)
  }

  // ----- The bar loop

  ghost predicate AllThreshold(cfg: Config, bars: seq<Bar>, trades: seq<Trade>, n: nat)
    requires Divisible(cfg, bars) && n <= |trades|
  {
    forall k :: 0 <= k < n ==> ThresholdTrade(cfg, bars, trades, k)
  }

  /** Appending a trade disturbs neither the earlier trades' explanations nor their capital. */
  lemma {:induction false} ExplainedStable(cfg: Config, bars: seq<Bar>, trades: seq<Trade>, t: Trade)
    requires Divisible(cfg, bars) && AllThreshold(cfg, bars, trades, |trades|)
    ensures AllThreshold(cfg, bars, trades + [t], |trades|)
    ensures TotalPnl(trades + [t]) == TotalPnl(trades) + t.pnl
    ensures CapitalBefore(cfg, trades + [t], |trades|) == cfg.initialCapital + TotalPnl(trades)
    ensures FreeFrom(trades + [t], |trades|) == FreeFrom(trades, |trades|)
  {
    var longer := trades + [t];
    assert longer[..|trades|] == trades;
    forall k | 0 <= k < |trades| ensures ThresholdTrade(cfg, bars, longer, k) {
      assert ThresholdTrade(cfg, bars, trades, k);
      assert longer[..k] == trades[..k];
    }
  }

  lemma {:induction false} EntryPriceNonZero(cfg: Config, i: nat, b: Bar, capital: real)
    requires Actionable(b) && b.close != 0.0 && EntryFactor(cfg, b) != 0.0
    ensures Opened(cfg, i, b, capital).entryPrice != 0.0
  {
    assert b.close * EntryFactor(cfg, b) != 0.0;
  }

  /** Opening on the first actionable bar since the last exit. */
  lemma {:induction false} Enter(cfg: Config, bars: seq<Bar>, from: nat, i: nat, capital: real)
    requires Divisible(cfg, bars) && from <= i < |bars|
    requires Idle(bars, from, i) && Actionable(bars[i])
    ensures Held(cfg, bars, Opened(cfg, i, bars[i], capital), from, i, capital)
  {
    EntryPriceNonZero(cfg, i, bars[i], capital);
  }

  lemma {:induction false} HoldOn(cfg: Config, bars: seq<Bar>, pos: Position, from: nat, i: nat, capital: real)
    requires Divisible(cfg, bars) && pos.entryBar <= i < |bars|
    requires Held(cfg, bars, pos, from, i, capital) && Quiet(cfg, pos, bars[i])
    ensures Held(cfg, bars, pos, from, i + 1, capital)
  {}

  /** A held position that is closed on bar i makes an explained trade. */
  lemma {:induction false} Exit(cfg: Config, bars: seq<Bar>, trades: seq<Trade>, pos: Position, i: nat,
          reason: ExitReason)
    requires Divisible(cfg, bars) && AllThreshold(cfg, bars, trades, |trades|)
    requires pos.entryBar <= i < |bars|
    requires Held(cfg, bars, pos, FreeFrom(trades, |trades|), i, cfg.initialCapital + TotalPnl(trades))
    ensures pos.entryPrice != 0.0
    ensures var t := Closed(cfg, pos, i, bars[i].close, reason);
      && Entered(cfg, bars, trades + [t], |trades|)
      && PositionOf(t) == pos && t.exitBar == i
      && AllThreshold(cfg, bars, trades + [t], |trades|)
      && TotalPnl(trades + [t]) == TotalPnl(trades) + t.pnl
  {
    var t := Closed(cfg, pos, i, bars[i].close, reason);
    assert PositionOf(t) == pos;
    ExplainedStable(cfg, bars, trades, t);
  }

  /** The state of the loop before bar i: every closed trade explained, and the open position held so far. */
  ghost predicate LoopState(cfg: Config, bars: seq<Bar>, trades: seq<Trade>, position: Option<Position>, i: nat,
          capital: real)
    requires Divisible(cfg, bars) && i <= |bars|
  {
    && capital == cfg.initialCapital + TotalPnl(trades)
    && AllThreshold(cfg, bars, trades, |trades|)
    && FreeFrom(trades, |trades|) <= i
    && (position.None? ==> Idle(bars, FreeFrom(trades, |trades|), i))
    && (position.Some? ==>
          && position.value.entryBar < i
          && Held(cfg, bars, position.value, FreeFrom(trades, |trades|), i, capital))
  }

  /** The position of bar i, after a signal on it was acted on. */
  ghost predicate HeldAt(cfg: Config, bars: seq<Bar>, trades: seq<Trade>, pos: Position, i: nat, capital: real)
    requires Divisible(cfg, bars) && i < |bars|
  {
    && capital == cfg.initialCapital + TotalPnl(trades)
    && AllThreshold(cfg, bars, trades, |trades|)
    && FreeFrom(trades, |trades|) <= i && pos.entryBar <= i
    && Held(cfg, bars, pos, FreeFrom(trades, |trades|), i, capital)
  }

  lemma {:induction false} KeepPosition(cfg: Config, bars: seq<Bar>, trades: seq<Trade>, pos: Position, i: nat,
          capital: real)
    requires Divisible(cfg, bars) && i < |bars|
    requires HeldAt(cfg, bars, trades, pos, i, capital) && Quiet(cfg, pos, bars[i])
    ensures LoopState(cfg, bars, trades, Some(pos), i + 1, capital)
  {
    HoldOn(cfg, bars, pos, FreeFrom(trades, |trades|), i, capital);
  }

  lemma {:induction false} ClosePosition(cfg: Config, bars: seq<Bar>, trades: seq<Trade>, pos: Position, i: nat,
          capital: real, reason: ExitReason)
    requires Divisible(cfg, bars) && i < |bars|
    requires HeldAt(cfg, bars, trades, pos, i, capital)
    requires Evaluated(bars[i]) && Verdict(cfg, pos, bars[i].close) == Some(reason)
    ensures var t := Closed(cfg, pos, i, bars[i].close, reason);
      LoopState(cfg, bars, trades + [t], None, i + 1, capital + t.pnl)
  {
    Exit(cfg, bars, trades, pos, i, reason);
    var longer := trades + [Closed(cfg, pos, i, bars[i].close, reason)];
    assert ThresholdTrade(cfg, bars, longer, |trades|);
  }

  /** The forced close with the last bar completes the explanation. */
  lemma {:induction false} ForcedClose(cfg: Config, bars: seq<Bar>, trades: seq<Trade>, pos: Position, capital: real)
    requires Divisible(cfg, bars) && LoopState(cfg, bars, trades, Some(pos), |bars|, capital)
    ensures |bars| > 0 && pos.entryPrice != 0.0
    ensures var t := Closed(cfg, pos, |bars| - 1, bars[|bars| - 1].close, End);
      && Explained(cfg, bars, trades + [t])
      && TotalPnl(trades + [t]) == TotalPnl(trades) + t.pnl
  {
    var last := |bars| - 1;
    assert Quiet(cfg, pos, bars[last]);
    Exit(cfg, bars, trades, pos, last, End);
    var longer := trades + [Closed(cfg, pos, last, bars[last].close, End)];
    forall k | 0 <= k < |longer| ensures TradeExplained(cfg, bars, longer, k) {
      if k < |trades| {
        assert ThresholdTrade(cfg, bars, longer, k);
      } else {
        assert FinalTrade(cfg, bars, longer, k);
      }
    }
  }

  method RunSingleBacktest(cfg: Config, bars: seq<Bar>) returns (trades: seq<Trade>, capital: real)
    requires Divisible(cfg, bars)
    ensures Explained(cfg, bars, trades)
    ensures capital == cfg.initialCapital + TotalPnl(trades)
  {
    var position: Option<Position> := None;
    trades := [];
    capital := cfg.initialCapital;
    for i := 0 to |bars|
      invariant LoopState(cfg, bars, trades, position, i, capital)
    {
      var price := bars[i].close;
      if bars[i].outcome.Raised? {
        if position.Some? { KeepPosition(cfg, bars, trades, position.value, i, capital); }
        continue;
      }
      if Actionable(bars[i]) && position.None? {
        Enter(cfg, bars, FreeFrom(trades, |trades|), i, capital);
        position := Some(Opened(cfg, i, bars[i], capital));
      }
      if position.Some? {
        var pos := position.value;
        assert HeldAt(cfg, bars, trades, pos, i, capital);
        var verdict := Verdict(cfg, pos, price);
        if verdict.Some? {
          ClosePosition(cfg, bars, trades, pos, i, capital, verdict.value);
          var trade := Closed(cfg, pos, i, price, verdict.value);
          trades := trades + [trade];
          capital := capital + trade.pnl;
          position := None;
        } else {
          KeepPosition(cfg, bars, trades, pos, i, capital);
        }
      }
    }
    if position.Some? {
      ForcedClose(cfg, bars, trades, position.value, capital);
      var trade := Closed(cfg, position.value, |bars| - 1, bars[|bars| - 1].close, End);
      trades := trades + [trade];
      capital := capital + trade.pnl;
    }
  }

  // ----- The description determines the run

  lemma {:induction false} EntryDetermined(cfg: Config, bars: seq<Bar>, p: Position, q: Position, from: nat, x: nat,
          y: nat, capital: real)
    requires Divisible(cfg, bars)
    requires Held(cfg, bars, p, from, x, capital) && Held(cfg, bars, q, from, y, capital)
    ensures p == q
  {}

  /** The exit bar of one list cannot precede the other's: a met threshold is not a quiet bar. */
  lemma {:induction false} ExitNotEarlier(cfg: Config, bars: seq<Bar>, ts: seq<Trade>, us: seq<Trade>, k: nat)
    requires Divisible(cfg, bars) && Explained(cfg, bars, ts) && Explained(cfg, bars, us)
    requires k < |ts| && k < |us| && PositionOf(ts[k]) == PositionOf(us[k])
    ensures ts[k].exitBar >= us[k].exitBar
  {
    assert TradeExplained(cfg, bars, ts, k) && TradeExplained(cfg, bars, us, k);
    assert forall j :: us[k].entryBar <= j < us[k].exitBar ==> Quiet(cfg, PositionOf(us[k]), bars[j]);
  }

  lemma {:induction false} TradeDetermined(cfg: Config, bars: seq<Bar>, ts: seq<Trade>, us: seq<Trade>, k: nat)
    requires Divisible(cfg, bars) && Explained(cfg, bars, ts) && Explained(cfg, bars, us)
    requires k < |ts| && k < |us| && ts[..k] == us[..k]
    ensures ts[k] == us[k]
  {
    SameFreeFrom(ts, us, k);
    assert TradeExplained(cfg, bars, ts, k) && TradeExplained(cfg, bars, us, k);
    EntryDetermined(cfg, bars, PositionOf(ts[k]), PositionOf(us[k]), FreeFrom(ts, k),
                    ts[k].exitBar, us[k].exitBar, CapitalBefore(cfg, ts, k));
    ExitNotEarlier(cfg, bars, ts, us, k);
    ExitNotEarlier(cfg, bars, us, ts, k);
  }

  lemma {:induction false} PrefixDetermined(cfg: Config, bars: seq<Bar>, ts: seq<Trade>, us: seq<Trade>, k: nat)
    requires Divisible(cfg, bars) && Explained(cfg, bars, ts) && Explained(cfg, bars, us)
    requires k <= |ts| && k <= |us|
    ensures ts[..k] == us[..k]
  {
    if k > 0 {
      PrefixDetermined(cfg, bars, ts, us, k - 1);
      TradeDetermined(cfg, bars, ts, us, k - 1);
      assert ts[..k] == ts[..k - 1] + [ts[k - 1]] && us[..k] == us[..k - 1] + [us[k - 1]];
    }
  }

  lemma {:induction false} SameFreeFrom(ts: seq<Trade>, us: seq<Trade>, k: nat)
    requires k <= |ts| && k <= |us| && ts[..k] == us[..k]
    ensures FreeFrom(ts, k) == FreeFrom(us, k)
  {
    if k > 0 {
      assert ts[k - 1] == ts[..k][k - 1] == us[..k][k - 1];
    }
  }

  /** A trade beyond the other list's end would have been opened on a bar that list calls idle. */
  lemma {:induction false} NoMoreTrades(cfg: Config, bars: seq<Bar>, ts: seq<Trade>, us: seq<Trade>)
    requires Divisible(cfg, bars) && Explained(cfg, bars, ts) && Explained(cfg, bars, us)
    ensures |us| <= |ts|
  {
    if |us| > |ts| {
      PrefixDetermined(cfg, bars, ts, us, |ts|);
      SameFreeFrom(ts, us, |ts|);
      TradeActionable(cfg, bars, us, |ts|);
      assert false;
    }
  }

  lemma {:induction false} TradeActionable(cfg: Config, bars: seq<Bar>, ts: seq<Trade>, k: nat)
    requires Divisible(cfg, bars) && k < |ts| && TradeExplained(cfg, bars, ts, k)
    ensures FreeFrom(ts, k) <= ts[k].entryBar <= ts[k].exitBar < |bars| && Actionable(bars[ts[k].entryBar])
  {}

  /** A run has one explanation only: its trade list is the one the description admits. */
  lemma {:induction false} ExplanationUnique(cfg: Config, bars: seq<Bar>, ts: seq<Trade>, us: seq<Trade>)
    requires Divisible(cfg, bars) && Explained(cfg, bars, ts) && Explained(cfg, bars, us)
    ensures ts == us
  {
    NoMoreTrades(cfg, bars, ts, us);
    NoMoreTrades(cfg, bars, us, ts);
    PrefixDetermined(cfg, bars, ts, us, |ts|);
  }

  // ----- What a caller may conclude from the trade list of a run

  /** At most one position: each trade ends before the next begins, and none ends before it begins. */
  lemma {:induction false} TradesDisjoint(cfg: Config, bars: seq<Bar>, ts: seq<Trade>, i: nat, k: nat)
    requires Divisible(cfg, bars) && Explained(cfg, bars, ts)
    requires i < k < |ts|
    ensures ts[i].entryBar <= ts[i].exitBar < ts[k].entryBar <= ts[k].exitBar < |bars|
    decreases k
  {
    assert TradeExplained(cfg, bars, ts, i) && TradeExplained(cfg, bars, ts, k);
    TradeActionable(cfg, bars, ts, i);
    TradeActionable(cfg, bars, ts, k);
    if i < k - 1 {
      TradesDisjoint(cfg, bars, ts, i, k - 1);
    }
  }

  // ----- Trades in terms of signals, prices and money

  /**
   * A long is opened by a buy and a short by a sell, with as much of the capital at hand as the position size
   * and the confidence of that signal say; a signal without a confidence counts one half.
   */
  lemma {:induction false} TradeFollowsSignal(cfg: Config, bars: seq<Bar>, ts: seq<Trade>, k: nat)
    requires Divisible(cfg, bars) && Explained(cfg, bars, ts) && k < |ts|
    ensures ts[k].entryBar < |bars|
    ensures var signal, close := bars[ts[k].entryBar].outcome, bars[ts[k].entryBar].close;
      && signal.Signal? && signal.kind == (if ts[k].direction == Long then Buy else Sell)
      && ts[k].quantity * close == CapitalBefore(cfg, ts, k) * cfg.positionSize
                                   * (if signal.confidence.Some? then signal.confidence.value else 0.5)
      && ts[k].entryPrice == close * (if ts[k].direction == Long then 1.0 + cfg.slippage else 1.0 - cfg.slippage)
  {
    assert TradeExplained(cfg, bars, ts, k);
  }

  /** While no position is open no bar carries a buy or a sell: before, between and after the trades. */
  lemma {:induction false} NoSignalMissed(cfg: Config, bars: seq<Bar>, ts: seq<Trade>, j: nat)
    requires Divisible(cfg, bars) && Explained(cfg, bars, ts) && j < |bars|
    requires forall k :: 0 <= k < |ts| ==> j < ts[k].entryBar || ts[k].exitBar < j
    ensures bars[j].outcome.Signal? ==> bars[j].outcome.kind != Buy && bars[j].outcome.kind != Sell
  {
    var k := FirstAfter(cfg, bars, ts, j);
    if k < |ts| {
      assert TradeExplained(cfg, bars, ts, k);
    }
  }

  /** The trade before which bar j lies. */
  lemma {:induction false} FirstAfter(cfg: Config, bars: seq<Bar>, ts: seq<Trade>, j: nat) returns (k: nat)
    requires Divisible(cfg, bars) && Explained(cfg, bars, ts) && j < |bars|
    requires forall k :: 0 <= k < |ts| ==> j < ts[k].entryBar || ts[k].exitBar < j
    ensures k <= |ts| && FreeFrom(ts, k) <= j && (k < |ts| ==> j < ts[k].entryBar)
  {
    k := |ts|;
    while k > 0 && j < ts[k - 1].entryBar
      invariant k <= |ts| && (k < |ts| ==> j < ts[k].entryBar)
    {
      k := k - 1;
    }
  }

  /** What a trade's explanation says of its bars: how it was sized and what it earned. */
  lemma {:induction false} TradeOfBars(cfg: Config, bars: seq<Bar>, ts: seq<Trade>, k: nat)
    requires Divisible(cfg, bars) && Explained(cfg, bars, ts) && k < |ts|
    ensures ts[k].entryBar <= ts[k].exitBar < |bars| && Actionable(bars[ts[k].entryBar])
    ensures bars[ts[k].entryBar].close != 0.0
    ensures PositionOf(ts[k]) == Opened(cfg, ts[k].entryBar, bars[ts[k].entryBar], CapitalBefore(cfg, ts, k))
    ensures ts[k].exitPrice == ExitPrice(cfg, PositionOf(ts[k]), bars[ts[k].exitBar].close)
    ensures ts[k].pnl == Pnl(cfg, PositionOf(ts[k]), bars[ts[k].exitBar].close)
  {
    assert TradeExplained(cfg, bars, ts, k);
  }

  /** A position opened at the close of b and closed at x, in cash. */
  lemma {:induction false} PositionCash(cfg: Config, i: nat, b: Bar, capital: real, x: real)
    requires Actionable(b) && b.close != 0.0
    ensures var pos := Opened(cfg, i, b, capital);
      Pnl(cfg, pos, x) == if pos.direction == Long
        then pos.quantity * (x * (1.0 - cfg.slippage) - b.close * (1.0 + cfg.slippage))
        else pos.quantity * (b.close * (1.0 - cfg.slippage) - x * (1.0 + cfg.slippage))
  {}

  /** What a trade earns: what it sold for less what it bought for, the slippage against it both times. */
  lemma {:induction false} TradeCash(cfg: Config, bars: seq<Bar>, ts: seq<Trade>, k: nat)
    requires Divisible(cfg, bars) && Explained(cfg, bars, ts) && k < |ts|
    ensures ts[k].entryBar < |bars| && ts[k].exitBar < |bars|
    ensures var t, bought, sold := ts[k], bars[ts[k].entryBar].close, bars[ts[k].exitBar].close;
      if t.direction == Long then
        t.pnl == t.quantity * (sold * (1.0 - cfg.slippage) - bought * (1.0 + cfg.slippage))
        && t.exitPrice == sold * (1.0 - cfg.slippage)
      else
        t.pnl == t.quantity * (bought * (1.0 - cfg.slippage) - sold * (1.0 + cfg.slippage))
        && t.exitPrice == sold * (1.0 + cfg.slippage)
  {
    TradeOfBars(cfg, bars, ts, k);
    PositionCash(cfg, ts[k].entryBar, bars[ts[k].entryBar], CapitalBefore(cfg, ts, k), bars[ts[k].exitBar].close);
  }

  lemma {:induction false} CapitalStep(cfg: Config, ts: seq<Trade>, k: nat)
    requires k < |ts|
    ensures CapitalBefore(cfg, ts, 0) == cfg.initialCapital
    ensures CapitalBefore(cfg, ts, k + 1) == CapitalBefore(cfg, ts, k) + ts[k].pnl
    ensures CapitalBefore(cfg, ts, |ts|) == cfg.initialCapital + TotalPnl(ts)
  {
    assert ts[..k + 1][..k] == ts[..k];
    assert ts[..|ts|] == ts;
  }

  lemma {:induction false} LevelCompares(e: real, price: real, level: real)
    requires e > 0.0
    ensures (price - e) / e <= level <==> price <= e * (1.0 + level)
    ensures (price - e) / e >= level <==> price >= e * (1.0 + level)
  {
    DivideCompares(price - e, e, level);
  }

  /** The stop and the target of a long as price levels; the stop comes first. */
  lemma {:induction false} LongThresholdPrices(cfg: Config, pos: Position, price: real)
    requires pos.entryPrice > 0.0 && pos.direction == Long
    ensures var stop, target := pos.entryPrice * (1.0 - cfg.stopLoss), pos.entryPrice * (1.0 + cfg.takeProfit);
      && (Verdict(cfg, pos, price) == Some(StopLoss) <==> price <= stop)
      && (Verdict(cfg, pos, price) == Some(TakeProfit) <==> price > stop && price >= target)
      && (Verdict(cfg, pos, price) == None <==> stop < price < target)
  {
    LevelCompares(pos.entryPrice, price, -cfg.stopLoss);
    LevelCompares(pos.entryPrice, price, cfg.takeProfit);
  }

  /** For a short they lie on the other sides of its entry. */
  lemma {:induction false} ShortThresholdPrices(cfg: Config, pos: Position, price: real)
    requires pos.entryPrice > 0.0 && pos.direction == Short
    ensures var stop, target := pos.entryPrice * (1.0 + cfg.stopLoss), pos.entryPrice * (1.0 - cfg.takeProfit);
      && (Verdict(cfg, pos, price) == Some(StopLoss) <==> price >= stop)
      && (Verdict(cfg, pos, price) == Some(TakeProfit) <==> price < stop && price <= target)
      && (Verdict(cfg, pos, price) == None <==> target < price < stop)
  {
    LevelCompares(pos.entryPrice, price, cfg.stopLoss);
    LevelCompares(pos.entryPrice, price, -cfg.takeProfit);
  }

  /** The move a trade records: with the direction at a threshold, without it at the forced close. */
  lemma {:induction false} RecordedMove(cfg: Config, bars: seq<Bar>, ts: seq<Trade>, k: nat)
    requires Divisible(cfg, bars) && Explained(cfg, bars, ts) && k < |ts|
    ensures ts[k].exitBar < |bars|
    ensures var t, closed := ts[k], bars[ts[k].exitBar].close;
      t.pnlPct * t.entryPrice == if t.reason == End then t.exitPrice - t.entryPrice
                                 else if t.direction == Long then closed - t.entryPrice
                                 else t.entryPrice - closed
  {
    assert TradeExplained(cfg, bars, ts, k);
  }

  /** The first evaluated bar from the entry on whose close meets a threshold. */
  ghost predicate FirstTouch(cfg: Config, bars: seq<Bar>, pos: Position, i: nat)
    requires pos.entryPrice != 0.0
  {
    && pos.entryBar <= i < |bars| && !Quiet(cfg, pos, bars[i])
    && forall j :: pos.entryBar <= j < i ==> Quiet(cfg, pos, bars[j])
  }

  /** A trade exits by threshold exactly when some evaluated bar touches one, and then at the first. */
  lemma {:induction false} ExitAtFirstTouch(cfg: Config, bars: seq<Bar>, ts: seq<Trade>, k: nat)
    requires Divisible(cfg, bars) && Explained(cfg, bars, ts) && k < |ts|
    ensures ts[k].entryPrice != 0.0
    ensures ts[k].reason != End <==> exists i: nat :: FirstTouch(cfg, bars, PositionOf(ts[k]), i)
    ensures forall i: nat :: FirstTouch(cfg, bars, PositionOf(ts[k]), i) ==>
        ts[k].exitBar == i && Some(ts[k].reason) == Verdict(cfg, PositionOf(ts[k]), bars[i].close)
  {
    assert TradeExplained(cfg, bars, ts, k);
    var pos := PositionOf(ts[k]);
    if ts[k].reason != End {
      assert FirstTouch(cfg, bars, pos, ts[k].exitBar);
    }
    forall i: nat | FirstTouch(cfg, bars, pos, i)
      ensures ts[k].exitBar == i && Some(ts[k].reason) == Verdict(cfg, pos, bars[i].close)
    {
      assert i >= ts[k].exitBar;
    }
  }

  /**
   * Bars on which the strategy raised are not checked: here the close falls through the stop on bar 1,
   * the strategy raises on it, and the loss is taken one bar later at a lower price.
   */
  lemma {:induction false} SkippedBarHidesStop() returns (cfg: Config, bars: seq<Bar>, ts: seq<Trade>)
    ensures Divisible(cfg, bars) && Explained(cfg, bars, ts) && |ts| == 1
    ensures ts[0].reason == StopLoss && ts[0].exitBar == 2 && |bars| == 3 && ts[0].entryPrice != 0.0
    ensures bars[1].close == 5.0 && Verdict(cfg, PositionOf(ts[0]), bars[1].close) == Some(StopLoss)
  {
    cfg := Config(100.0, 0.5, 0.0, 0.1, 0.2);
    bars := [Bar(10.0, Signal(Buy, Some(1.0))), Bar(5.0, Raised), Bar(4.0, Silent)];
    var pos := Position(0, 10.0, 5.0, Long);
    assert Opened(cfg, 0, bars[0], 100.0) == pos;
    assert Verdict(cfg, pos, 10.0) == None;
    assert Verdict(cfg, pos, 4.0) == Some(StopLoss);
    ts := [Closed(cfg, pos, 2, 4.0, StopLoss)];
    assert PositionOf(ts[0]) == pos && CapitalBefore(cfg, ts, 0) == 100.0;
    assert ThresholdTrade(cfg, bars, ts, 0);
  }

  // ----- When every threshold is acted on at once

  /** Bar i, skipped or not, is the first from the entry on whose close meets a threshold. */
  ghost predicate FirstMeeting(cfg: Config, bars: seq<Bar>, pos: Position, i: nat)
    requires pos.entryPrice != 0.0
  {
    && pos.entryBar <= i < |bars| && Verdict(cfg, pos, bars[i].close) != None
    && forall j :: pos.entryBar <= j < i ==> Verdict(cfg, pos, bars[j].close) == None
  }

  /** The trade ends where its position first meets a threshold, and for that reason. */
  ghost predicate Prompt(cfg: Config, bars: seq<Bar>, t: Trade) {
    && t.entryPrice != 0.0
    && forall i: nat :: FirstMeeting(cfg, bars, PositionOf(t), i) ==>
         t.exitBar == i && Some(t.reason) == Verdict(cfg, PositionOf(t), bars[i].close)
  }

  /** The strategy does on each bar what `outcomes` says; the prices are free. */
  ghost predicate Follows(bars: seq<Bar>, outcomes: seq<Outcome>) {
    |bars| == |outcomes| && forall i :: 0 <= i < |bars| ==> bars[i].outcome == outcomes[i]
  }

  ghost predicate AllPrompt(cfg: Config, bars: seq<Bar>, trades: seq<Trade>) {
    forall k :: 0 <= k < |trades| ==> Prompt(cfg, bars, trades[k])
  }

  /** Whatever the prices and the settings are. */
  ghost predicate AlwaysPrompt(outcomes: seq<Outcome>) {
    forall cfg, bars, trades :: Follows(bars, outcomes) && Divisible(cfg, bars) && Explained(cfg, bars, trades) ==>
      AllPrompt(cfg, bars, trades)
  }

  predicate NoRaiseAfterSignal(outcomes: seq<Outcome>) {
    forall i, j :: 0 <= i < j < |outcomes| && Acts(outcomes[i]) ==> !outcomes[j].Raised?
  }

  lemma {:induction false} PromptWithoutRaises(cfg: Config, bars: seq<Bar>, ts: seq<Trade>, k: nat,
          outcomes: seq<Outcome>)
    requires Divisible(cfg, bars) && Explained(cfg, bars, ts) && k < |ts|
    requires Follows(bars, outcomes) && NoRaiseAfterSignal(outcomes)
    ensures Prompt(cfg, bars, ts[k])
  {
    ExitAtFirstTouch(cfg, bars, ts, k);
    assert TradeExplained(cfg, bars, ts, k);
    var pos := PositionOf(ts[k]);
    forall i: nat | FirstMeeting(cfg, bars, pos, i) ensures FirstTouch(cfg, bars, pos, i) {
      assert Acts(outcomes[pos.entryBar]);
    }
  }

  lemma {:induction false} FirstActing(outcomes: seq<Outcome>, i: nat) returns (first: nat)
    requires i < |outcomes| && Acts(outcomes[i])
    ensures first <= i && Acts(outcomes[first]) && forall j :: 0 <= j < first ==> !Acts(outcomes[j])
  {
    first := 0;
    while !Acts(outcomes[first])
      invariant first <= i && forall j :: 0 <= j < first ==> !Acts(outcomes[j])
      decreases i - first
    {
      first := first + 1;
    }
  }

  const FLAT: real := 10.0

  /** The price is flat but halves on bar j: with any outcome stream nothing else can trigger an exit. */
  function DipAt(outcomes: seq<Outcome>, j: nat): seq<Bar> {
    seq(|outcomes|, i requires 0 <= i < |outcomes| => Bar(if i == j then FLAT / 2.0 else FLAT, outcomes[i]))
  }

  const PLAIN := Config(100.0, 0.5, 0.0, 0.1, 0.2)

  lemma {:induction false} FlatVerdicts(i: nat, b: Bar)
    requires Actionable(b) && b.close == FLAT
    ensures var pos := Opened(PLAIN, i, b, 100.0);
      pos.entryPrice == FLAT && Verdict(PLAIN, pos, FLAT) == None && Verdict(PLAIN, pos, FLAT / 2.0) != None
  {}

  /** A raise after a signal can hide an exit: the position opened first is carried past bar j to the end. */
  lemma {:induction false} RaiseHidesExit(outcomes: seq<Outcome>, i: nat, j: nat)
    returns (bars: seq<Bar>, ts: seq<Trade>)
    requires i < j < |outcomes| && Acts(outcomes[i]) && outcomes[j].Raised?
    ensures Follows(bars, outcomes) && Divisible(PLAIN, bars) && Explained(PLAIN, bars, ts)
    ensures |ts| == 1 && !Prompt(PLAIN, bars, ts[0])
  {
    var first := FirstActing(outcomes, i);
    bars := DipAt(outcomes, j);
    var last := |bars| - 1;
    var pos := Opened(PLAIN, first, bars[first], 100.0);
    FlatVerdicts(first, bars[first]);
    ts := [Closed(PLAIN, pos, last, bars[last].close, End)];
    assert PositionOf(ts[0]) == pos && CapitalBefore(PLAIN, ts, 0) == 100.0;
    assert FinalTrade(PLAIN, bars, ts, 0);
    assert FirstMeeting(PLAIN, bars, pos, j);
  }

  /**
   * For a given stream of strategy outcomes, every trade under every price path and configuration ends
   * on the first bar that meets a threshold, exactly when the strategy never raises after a signal.
   */
  lemma {:induction false} PromptIffNoRaiseAfterSignal(outcomes: seq<Outcome>)
    ensures AlwaysPrompt(outcomes) <==> NoRaiseAfterSignal(outcomes)
  {
    if NoRaiseAfterSignal(outcomes) {
      forall cfg, bars, ts | Follows(bars, outcomes) && Divisible(cfg, bars) && Explained(cfg, bars, ts)
        ensures AllPrompt(cfg, bars, ts)
      {
        forall k | 0 <= k < |ts| ensures Prompt(cfg, bars, ts[k]) {
          PromptWithoutRaises(cfg, bars, ts, k, outcomes);
        }
      }
    } else {
      var i, j :| 0 <= i < j < |outcomes| && Acts(outcomes[i]) && outcomes[j].Raised?;
      var bars, ts := RaiseHidesExit(outcomes, i, j);
      assert !AllPrompt(PLAIN, bars, ts);
    }
  }

  predicate PositivePrices(bars: seq<Bar>) {
    forall i :: 0 <= i < |bars| ==> bars[i].close > 0.0
  }

  // ----- The sign of a threshold exit

  /** Slippage-adjusted growth of a price that moved by `move` in the position's favour. */
  function NetFactor(cfg: Config, direction: Direction, move: real): real {
    if direction == Long then (1.0 + move) * (1.0 - cfg.slippage) - 1.0
    else 1.0 - (1.0 - move) * (1.0 + cfg.slippage)
  }

  /** The profit of closing is the position's entry value times the net factor of the price move. */
  lemma {:induction false} PnlFromMove(cfg: Config, pos: Position, price: real)
    requires pos.entryPrice > 0.0
    ensures Pnl(cfg, pos, price) ==
        (pos.quantity * pos.entryPrice) * NetFactor(cfg, pos.direction, PnlPct(pos, price))
  {
    var move := (price - pos.entryPrice) / pos.entryPrice;
    assert price == pos.entryPrice * (1.0 + move);
  }

  lemma {:induction false} NetFactorMonotone(cfg: Config, direction: Direction, x: real, y: real)
    requires -1.0 < cfg.slippage < 1.0 && x <= y
    ensures NetFactor(cfg, direction, x) <= NetFactor(cfg, direction, y)
  {
    if direction == Long {
      Scale(1.0 + x, 1.0 + y, 1.0 - cfg.slippage);
    } else {
      Scale(1.0 - y, 1.0 - x, 1.0 + cfg.slippage);
    }
  }

  /** The price at which a position shows exactly the given favourable move. */
  function PriceAt(pos: Position, move: real): real {
    if pos.direction == Long then pos.entryPrice * (1.0 + move) else pos.entryPrice * (1.0 - move)
  }

  lemma {:induction false} PriceAtShowsMove(pos: Position, move: real)
    requires pos.entryPrice > 0.0
    ensures PnlPct(pos, PriceAt(pos, move)) == move
  {
    var e := pos.entryPrice;
    if pos.direction == Long {
      assert (e * (1.0 + move) - e) == e * move;
    } else {
      assert (e * (1.0 - move) - e) == e * -move;
    }
  }

  /** Every stop-loss exit of a position loses money exactly when the stop itself, slippage included, does. */
  lemma {:induction false} StopLossLoses(cfg: Config, pos: Position)
    requires pos.entryPrice > 0.0 && pos.quantity > 0.0 && -1.0 < cfg.slippage < 1.0 && cfg.stopLoss > -1.0
    ensures (forall price :: price > 0.0 && Verdict(cfg, pos, price) == Some(StopLoss) ==> Pnl(cfg, pos, price) < 0.0)
       <==> NetFactor(cfg, pos.direction, -cfg.stopLoss) < 0.0
  {
    var stop := NetFactor(cfg, pos.direction, -cfg.stopLoss);
    forall price | price > 0.0 && Verdict(cfg, pos, price) == Some(StopLoss)
      ensures stop < 0.0 ==> Pnl(cfg, pos, price) < 0.0
    {
      PnlFromMove(cfg, pos, price);
      NetFactorMonotone(cfg, pos.direction, PnlPct(pos, price), -cfg.stopLoss);
    }
    if stop >= 0.0 {
      var edge := PriceAt(pos, -cfg.stopLoss);
      PriceAtShowsMove(pos, -cfg.stopLoss);
      PnlFromMove(cfg, pos, edge);
      FactorAboveZero(cfg, pos, -cfg.stopLoss);
      assert edge > 0.0 && Verdict(cfg, pos, edge) == Some(StopLoss) && Pnl(cfg, pos, edge) >= 0.0;
    }
  }

  /** Every take-profit exit gains exactly when the target clears the slippage. */
  lemma {:induction false} TakeProfitGains(cfg: Config, pos: Position)
    requires pos.entryPrice > 0.0 && pos.quantity > 0.0 && -1.0 < cfg.slippage < 1.0 && cfg.takeProfit > -1.0
    requires -cfg.stopLoss < cfg.takeProfit
    ensures (forall price :: price > 0.0 && Verdict(cfg, pos, price) == Some(TakeProfit) ==> Pnl(cfg, pos, price) > 0.0)
       <==> NetFactor(cfg, pos.direction, cfg.takeProfit) > 0.0
  {
    var target := NetFactor(cfg, pos.direction, cfg.takeProfit);
    forall price | price > 0.0 && Verdict(cfg, pos, price) == Some(TakeProfit)
      ensures target > 0.0 ==> Pnl(cfg, pos, price) > 0.0
    {
      PnlFromMove(cfg, pos, price);
      NetFactorMonotone(cfg, pos.direction, cfg.takeProfit, PnlPct(pos, price));
    }
    if target <= 0.0 {
      var edge := PriceAt(pos, cfg.takeProfit);
      PriceAtShowsMove(pos, cfg.takeProfit);
      PnlFromMove(cfg, pos, edge);
      FactorBelowZero(cfg, pos, cfg.takeProfit);
      assert edge > 0.0 && Verdict(cfg, pos, edge) == Some(TakeProfit) && Pnl(cfg, pos, edge) <= 0.0;
    }
  }

  lemma {:induction false} FactorAboveZero(cfg: Config, pos: Position, move: real)
    requires pos.entryPrice > 0.0 && -1.0 < cfg.slippage < 1.0 && move < 1.0
    requires NetFactor(cfg, pos.direction, move) >= 0.0
    ensures PriceAt(pos, move) > 0.0
  {
    if pos.direction == Long {
      PositiveFactor(1.0 + move, 1.0 - cfg.slippage);
      ProductPositive(pos.entryPrice, 1.0 + move);
    } else {
      ProductPositive(pos.entryPrice, 1.0 - move);
    }
  }

  lemma {:induction false} FactorBelowZero(cfg: Config, pos: Position, move: real)
    requires pos.entryPrice > 0.0 && -1.0 < cfg.slippage < 1.0 && move > -1.0
    requires NetFactor(cfg, pos.direction, move) <= 0.0
    ensures PriceAt(pos, move) > 0.0
  {
    if pos.direction == Short {
      PositiveFactor(1.0 - move, 1.0 + cfg.slippage);
      ProductPositive(pos.entryPrice, 1.0 - move);
    } else {
      ProductPositive(pos.entryPrice, 1.0 + move);
    }
  }

  /** A non-negative stop always loses, as soon as it or the slippage is positive. */
  lemma {:induction false} StopIsALoss(cfg: Config, direction: Direction)
    requires 0.0 <= cfg.slippage < 1.0 && cfg.stopLoss >= 0.0 && cfg.stopLoss + cfg.slippage > 0.0
    ensures NetFactor(cfg, direction, -cfg.stopLoss) < 0.0
  {
    var x, s := cfg.stopLoss, cfg.slippage;
    var kept := if direction == Long then 1.0 - s else 1.0 + s;
    assert x * kept >= 0.0;
    if x > 0.0 { ProductPositive(x, kept); }
    assert NetFactor(cfg, direction, -x) == -s - x * kept;
  }

  /** The loss slippage alone shows on the bar that opens the position. */
  function EntryMove(cfg: Config, direction: Direction): real
    requires -1.0 < cfg.slippage < 1.0
  {
    if direction == Long then -cfg.slippage / (1.0 + cfg.slippage) else -cfg.slippage / (1.0 - cfg.slippage)
  }

  lemma {:induction false} RelativeMove(p: real, f: real)
    requires p > 0.0 && f > 0.0
    ensures p * f > 0.0 && (p - p * f) / (p * f) == (1.0 - f) / f
  {
    ProductPositive(p, f);
    var q := (1.0 - f) / f;
    assert q * f == 1.0 - f;
    assert q * (p * f) == p * (1.0 - f);
    QuotientIs(p - p * f, p * f, q);
  }

  lemma {:induction false} OpeningMove(cfg: Config, i: nat, b: Bar, capital: real)
    requires Actionable(b) && b.close > 0.0 && -1.0 < cfg.slippage < 1.0
    ensures Opened(cfg, i, b, capital).entryPrice > 0.0
    ensures PnlPct(Opened(cfg, i, b, capital), b.close) == EntryMove(cfg, Opened(cfg, i, b, capital).direction)
  {
    var s := cfg.slippage;
    if b.outcome.kind == Buy {
      RelativeMove(b.close, 1.0 + s);
    } else {
      RelativeMove(b.close, 1.0 - s);
      QuotientIs(-s, 1.0 - s, -(s / (1.0 - s)));
    }
  }

  lemma {:induction false} QuantityPositive(capital: real, size: real, confidence: real, price: real)
    requires capital > 0.0 && size > 0.0 && confidence > 0.0 && price > 0.0
    ensures Quantity(capital, size, confidence, price) > 0.0
  {
    ProductPositive(capital, size);
    ProductPositive(capital * size, confidence);
    QuotientPositive(capital * size * confidence, price);
  }

  lemma {:induction false} OpenedPositive(cfg: Config, i: nat, b: Bar, capital: real)
    requires Actionable(b) && b.close > 0.0 && Confidence(b) > 0.0 && capital > 0.0
    requires cfg.positionSize > 0.0
    ensures Opened(cfg, i, b, capital).quantity > 0.0
  {
    QuantityPositive(capital, cfg.positionSize, Confidence(b), b.close);
  }

  /** In a run: stop-loss trades lose; take-profit trades gain when the target clears the slippage. */
  lemma {:induction false} TradeSigns(cfg: Config, bars: seq<Bar>, ts: seq<Trade>, k: nat)
    requires Divisible(cfg, bars) && Explained(cfg, bars, ts) && PositivePrices(bars) && k < |ts|
    requires 0.0 <= cfg.slippage < 1.0 && cfg.positionSize > 0.0
    requires CapitalBefore(cfg, ts, k) > 0.0
    requires forall i :: 0 <= i < |bars| && Actionable(bars[i]) ==> Confidence(bars[i]) > 0.0
    requires cfg.stopLoss >= 0.0 && cfg.stopLoss + cfg.slippage > 0.0 && cfg.takeProfit > 0.0
    ensures ts[k].reason == StopLoss ==> ts[k].pnl < 0.0
    ensures ts[k].reason == TakeProfit && NetFactor(cfg, ts[k].direction, cfg.takeProfit) > 0.0 ==> ts[k].pnl > 0.0
  {
    assert TradeExplained(cfg, bars, ts, k);
    OpenedPositive(cfg, ts[k].entryBar, bars[ts[k].entryBar], CapitalBefore(cfg, ts, k));
    OpeningMove(cfg, ts[k].entryBar, bars[ts[k].entryBar], CapitalBefore(cfg, ts, k));
    var pos := PositionOf(ts[k]);
    StopIsALoss(cfg, pos.direction);
    StopLossLoses(cfg, pos);
    TakeProfitGains(cfg, pos);
    assert ts[k].pnl == Pnl(cfg, pos, bars[ts[k].exitBar].close);
  }

  // ----- Exits on the entry bar

  /** A trade is closed by a threshold on its own entry bar exactly when the slippage alone meets one. */
  lemma {:induction false} EntryBarExit(cfg: Config, bars: seq<Bar>, ts: seq<Trade>, k: nat)
    requires Divisible(cfg, bars) && Explained(cfg, bars, ts) && PositivePrices(bars) && k < |ts|
    requires -1.0 < cfg.slippage < 1.0
    ensures ts[k].reason != End && ts[k].exitBar == ts[k].entryBar
       <==> EntryMove(cfg, ts[k].direction) <= -cfg.stopLoss || EntryMove(cfg, ts[k].direction) >= cfg.takeProfit
  {
    assert TradeExplained(cfg, bars, ts, k);
    var e := ts[k].entryBar;
    OpeningMove(cfg, e, bars[e], CapitalBefore(cfg, ts, k));
    assert Quiet(cfg, PositionOf(ts[k]), bars[e]) <==>
      !(EntryMove(cfg, ts[k].direction) <= -cfg.stopLoss || EntryMove(cfg, ts[k].direction) >= cfg.takeProfit);
  }

  lemma {:induction false} SmallerEntryMove(s: real)
    requires 0.0 <= s < 1.0
    ensures -s / (1.0 + s) == -(s / (1.0 + s)) && -s / (1.0 - s) == -(s / (1.0 - s))
    ensures 0.0 <= s / (1.0 + s) <= s / (1.0 - s)
  {
    var long, short := s / (1.0 + s), s / (1.0 - s);
    QuotientIs(-s, 1.0 + s, -long);
    QuotientIs(-s, 1.0 - s, -short);
    DivideCompares(s, 1.0 + s, 0.0);
    DivideCompares(s, 1.0 - s, 0.0);
    Scale(1.0 - s, 1.0 + s, short);
    DivideCompares(s, 1.0 + s, short);
  }

  /** So a stop wider than s/(1-s) and a positive target never fire on the entry bar. */
  lemma {:induction false} NoEntryBarExit(cfg: Config, bars: seq<Bar>, ts: seq<Trade>, k: nat)
    requires Divisible(cfg, bars) && Explained(cfg, bars, ts) && PositivePrices(bars) && k < |ts|
    requires 0.0 <= cfg.slippage < 1.0
    requires cfg.stopLoss > cfg.slippage / (1.0 - cfg.slippage) && cfg.takeProfit > 0.0
    ensures ts[k].reason != End ==> ts[k].entryBar < ts[k].exitBar
  {
    assert TradeExplained(cfg, bars, ts, k);
    var s := cfg.slippage;
    SmallerEntryMove(s);
    EntryBarExit(cfg, bars, ts, k);
  }
}
