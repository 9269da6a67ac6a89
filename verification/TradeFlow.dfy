/**
 * Per-minute aggregation of a month of trades, the cumulative volume delta (CVD), and its change
 * over a window of sixty rows.
 */
module TradeFlow {
  import opened Options
  import opened RealSeq

  /** `isBuyerMaker` marks an aggressive sell; its absence an aggressive buy. */
  datatype Trade = Trade(timestamp: int, quoteQty: real, isBuyerMaker: bool)

  /** `timestamp` is the start of the minute in milliseconds. */
  datatype Row = Row(
    timestamp: int,
    buyVolume: real,
    sellVolume: real,
    volumeDelta: real,
    tradeCount: nat,
    avgTradeSize: real,
    largeTradeCount: nat,
    largeTradeVolume: real,
    takerBuyRatio: real,
    imbalance: real,
    aggressiveBuy: real,
    aggressiveSell: real,
    totalVolume: real)

  /** Milliseconds truncated to the minute (rounding down, as `floor` does). */
  function MinuteOf(t: Trade): int { t.timestamp / 60000 }

  // ----- Sums of a quantity over the trades that satisfy a condition

  function Total(trades: seq<Trade>, cond: Trade -> bool, qty: Trade -> real): real {
    if |trades| == 0 then 0.0
    else
      var last := trades[|trades| - 1];
      Total(trades[..|trades| - 1], cond, qty) + if cond(last) then qty(last) else 0.0
  }

  function Tally(trades: seq<Trade>, cond: Trade -> bool): nat {
    if |trades| == 0 then 0
    else Tally(trades[..|trades| - 1], cond) + if cond(trades[|trades| - 1]) then 1 else 0
  }

  lemma {:induction false} RemoveFromPrefix(trades: seq<Trade>, i: nat)
    requires i < |trades| - 1
    ensures var n, rest := |trades| - 1, trades[..i] + trades[i + 1..];
      rest == trades[..n][..i] + trades[..n][i + 1..] + [trades[n]]
  {
    var n := |trades| - 1;
    assert trades[i + 1..] == trades[..n][i + 1..] + [trades[n]];
  }

  lemma {:induction false} TotalAppend(trades: seq<Trade>, t: Trade, cond: Trade -> bool, qty: Trade -> real)
    ensures Total(trades + [t], cond, qty) == Total(trades, cond, qty) + if cond(t) then qty(t) else 0.0
    ensures Tally(trades + [t], cond) == Tally(trades, cond) + if cond(t) then 1 else 0
  {
    assert (trades + [t])[..|trades|] == trades;
  }

  /** A total splits at any trade: what counts is the trades, not their order. */
  lemma {:induction false} TotalRemove(trades: seq<Trade>, cond: Trade -> bool, qty: Trade -> real, i: nat)
    requires i < |trades|
    ensures Total(trades, cond, qty)
         == Total(trades[..i] + trades[i + 1..], cond, qty) + if cond(trades[i]) then qty(trades[i]) else 0.0
    ensures Tally(trades, cond) == Tally(trades[..i] + trades[i + 1..], cond) + if cond(trades[i]) then 1 else 0
  {
    var n := |trades| - 1;
    if i < n {
      TotalRemove(trades[..n], cond, qty, i);
      RemoveFromPrefix(trades, i);
      TotalAppend(trades[..n][..i] + trades[..n][i + 1..], trades[n], cond, qty);
    } else {
      assert trades[..i] + trades[i + 1..] == trades[..n];
    }
  }

  lemma {:induction false} TotalPermuted(s: seq<Trade>, t: seq<Trade>, cond: Trade -> bool, qty: Trade -> real)
    requires multiset(s) == multiset(t)
    ensures Total(s, cond, qty) == Total(t, cond, qty) && Tally(s, cond) == Tally(t, cond)
    decreases |s|
  {
    SameLength(s, t);
    if |s| > 0 {
      var i := MatchLast(s, t);
      TotalPermuted(s[..|s| - 1], t[..i] + t[i + 1..], cond, qty);
      TotalRemove(t, cond, qty, i);
    }
  }

  /** The last trade of one list, found in a permutation of it; without it the rests are permutations. */
  lemma {:induction false} MatchLast(s: seq<Trade>, t: seq<Trade>) returns (i: nat)
    requires multiset(s) == multiset(t) && |s| > 0
    ensures i < |t| && t[i] == s[|s| - 1]
    ensures multiset(s[..|s| - 1]) == multiset(t[..i] + t[i + 1..])
  {
    var n := |s| - 1;
    assert s[n] in multiset(t);
    i :| 0 <= i < |t| && t[i] == s[n];
    WithoutOne(s, n);
    WithoutOne(t, i);
    assert s[..n] + s[n + 1..] == s[..n];
  }

  lemma {:induction false} WithoutOne(s: seq<Trade>, i: nat)
    requires i < |s|
    ensures multiset(s[..i] + s[i + 1..]) == multiset(s) - multiset{s[i]}
  {
    assert s == s[..i] + [s[i]] + s[i + 1..];
  }

  lemma {:induction false} SameLength(s: seq<Trade>, t: seq<Trade>)
    requires multiset(s) == multiset(t)
    ensures |s| == |t|
  {
    assert |multiset(s)| == |s| && |multiset(t)| == |t|;
  }

  /** Conditions that never hold together add up. */
  lemma {:induction false} TotalDisjoint(trades: seq<Trade>,
          a: Trade -> bool, b: Trade -> bool, c: Trade -> bool, qty: Trade -> real)
    requires forall t :: !(a(t) && b(t)) && (c(t) <==> a(t) || b(t))
    ensures Total(trades, c, qty) == Total(trades, a, qty) + Total(trades, b, qty)
    ensures Tally(trades, c) == Tally(trades, a) + Tally(trades, b)
  {
    if |trades| > 0 {
      TotalDisjoint(trades[..|trades| - 1], a, b, c, qty);
    }
  }

  /** Conditions that agree on the trades give the same total. */
  lemma {:induction false} TotalSame(trades: seq<Trade>, a: Trade -> bool, b: Trade -> bool, qty: Trade -> real)
    requires forall i :: 0 <= i < |trades| ==> (a(trades[i]) <==> b(trades[i]))
    ensures Total(trades, a, qty) == Total(trades, b, qty) && Tally(trades, a) == Tally(trades, b)
  {
    if |trades| > 0 {
      TotalSame(trades[..|trades| - 1], a, b, qty);
    }
  }

  /** A stronger condition totals no more of a non-negative quantity. */
  lemma {:induction false} TotalStronger(trades: seq<Trade>, a: Trade -> bool, b: Trade -> bool, qty: Trade -> real)
    requires forall i :: 0 <= i < |trades| ==> qty(trades[i]) >= 0.0
    requires forall t :: a(t) ==> b(t)
    ensures 0.0 <= Total(trades, a, qty) <= Total(trades, b, qty) && Tally(trades, a) <= Tally(trades, b)
  {
    if |trades| > 0 {
      TotalStronger(trades[..|trades| - 1], a, b, qty);
    }
  }

  // ----- The conditions of the aggregation

  function Qty(): Trade -> real { (t: Trade) => t.quoteQty }

  function Side(sells: bool): Trade -> bool { (t: Trade) => t.isBuyerMaker == sells }

  function InMinute(m: int): Trade -> bool { (t: Trade) => MinuteOf(t) == m }

  function SideIn(m: int, sells: bool): Trade -> bool {
    (t: Trade) => MinuteOf(t) == m && t.isBuyerMaker == sells
  }

  function LargeIn(m: int, sells: bool, threshold: real): Trade -> bool {
    (t: Trade) => MinuteOf(t) == m && t.isBuyerMaker == sells && t.quoteQty >= threshold
  }

  function SideAmong(ms: seq<int>, sells: bool): Trade -> bool {
    (t: Trade) => MinuteOf(t) in ms && t.isBuyerMaker == sells
  }

  // ----- The minutes of a month, sorted, each once

  ghost predicate Increasing(s: seq<int>) {
    forall i, j :: 0 <= i < j < |s| ==> s[i] < s[j]
  }

  function InsertMinute(s: seq<int>, m: int): (r: seq<int>)
    ensures forall x :: x in r <==> x in s || x == m
  {
    if |s| == 0 || s[|s| - 1] < m then s + [m]
    else if s[|s| - 1] == m then s
    else
      var r := InsertMinute(s[..|s| - 1], m) + [s[|s| - 1]];
      assert s == s[..|s| - 1] + [s[|s| - 1]];
      r
  }

  lemma {:induction false} InsertIncreasing(s: seq<int>, m: int)
    requires Increasing(s)
    ensures Increasing(InsertMinute(s, m))
  {
    if |s| > 0 && s[|s| - 1] > m {
      var init := s[..|s| - 1];
      InsertIncreasing(init, m);
      var inner := InsertMinute(init, m);
      forall i | 0 <= i < |inner| ensures inner[i] < s[|s| - 1] {
        assert inner[i] in inner;
      }
    }
  }

  /** The group keys of `groupby('minute')`. */
  function Minutes(trades: seq<Trade>): (ms: seq<int>)
    ensures forall m :: m in ms <==> exists i :: 0 <= i < |trades| && MinuteOf(trades[i]) == m
  {
    if |trades| == 0 then []
    else InsertMinute(Minutes(trades[..|trades| - 1]), MinuteOf(trades[|trades| - 1]))
  }

  lemma {:induction false} MinutesIncreasing(trades: seq<Trade>)
    ensures Increasing(Minutes(trades))
  {
    if |trades| > 0 {
      MinutesIncreasing(trades[..|trades| - 1]);
      InsertIncreasing(Minutes(trades[..|trades| - 1]), MinuteOf(trades[|trades| - 1]));
    }
  }

  lemma {:induction false} WithoutLast(s: seq<int>, x: int)
    requires Increasing(s) && |s| > 0
    ensures x in s[..|s| - 1] <==> x in s && x != s[|s| - 1]
  {
    if x in s && x != s[|s| - 1] {
      var i :| 0 <= i < |s| && s[i] == x;
      assert s[..|s| - 1][i] == x;
    }
  }

  lemma {:induction false} NonEmptyToo(s: seq<int>, t: seq<int>)
    requires forall x :: x in s ==> x in t
    ensures |s| > 0 ==> |t| > 0
  {
    if |s| > 0 {
      var x := s[0];
      assert x in s && x in t;
    }
  }

  lemma {:induction false} LastIsGreatest(s: seq<int>, x: int)
    requires Increasing(s) && x in s
    ensures x <= s[|s| - 1]
  {}

  /** An increasing list is determined by its elements. */
  lemma {:induction false} IncreasingUnique(s: seq<int>, t: seq<int>)
    requires Increasing(s) && Increasing(t) && forall x :: x in s <==> x in t
    ensures s == t
  {
    NonEmptyToo(s, t);
    NonEmptyToo(t, s);
    if |s| > 0 {
      LastIsGreatest(s, t[|t| - 1]);
      LastIsGreatest(t, s[|s| - 1]);
      assert s[|s| - 1] == t[|t| - 1];
      var p, q := s[..|s| - 1], t[..|t| - 1];
      forall x ensures x in p <==> x in q {
        WithoutLast(s, x);
        WithoutLast(t, x);
      }
      IncreasingUnique(p, q);
    }
  }

  // ----- Rows

  function MakeRow(m: int, count: nat, buy: real, sell: real, largeCount: nat, largeBuy: real, largeSell: real): Row {
    var total := buy + sell;
    Row(m * 60000, buy, sell, buy - sell, count,
        if count > 0 then total / count as real else 0.0,
        largeCount,
        largeBuy + largeSell,
        if total > 0.0 then buy / total else 0.5,
        if total > 0.0 then (buy - sell) / total else 0.0,
        largeBuy, largeSell, total)
  }

  /** The row of minute m, from all trades of the month. */
  function RowOf(trades: seq<Trade>, m: int, threshold: real): Row {
    MakeRow(m,
            Tally(trades, InMinute(m)),
            Total(trades, SideIn(m, false), Qty()),
            Total(trades, SideIn(m, true), Qty()),
            Tally(trades, LargeIn(m, false, threshold)) + Tally(trades, LargeIn(m, true, threshold)),
            Total(trades, LargeIn(m, false, threshold), Qty()),
            Total(trades, LargeIn(m, true, threshold), Qty()))
  }

  /** One row for each of the minutes. */
  ghost predicate RowsOf(trades: seq<Trade>, threshold: real, minutes: seq<int>, rows: seq<Row>) {
    |rows| == |minutes| && forall i :: 0 <= i < |rows| ==> rows[i] == RowOf(trades, minutes[i], threshold)
  }

  ghost predicate IsAggregation(trades: seq<Trade>, threshold: real, rows: seq<Row>) {
    RowsOf(trades, threshold, Minutes(trades), rows)
  }

  /** The trades of one minute, in their order. */
  function GroupOf(trades: seq<Trade>, m: int): seq<Trade> {
    if |trades| == 0 then []
    else
      var last := trades[|trades| - 1];
      GroupOf(trades[..|trades| - 1], m) + if MinuteOf(last) == m then [last] else []
  }

  /** What a condition totals within the group of a minute, it totals there over all trades. */
  lemma {:induction false} GroupTotals(trades: seq<Trade>, m: int, cond: Trade -> bool, both: Trade -> bool)
    requires forall t :: both(t) <==> MinuteOf(t) == m && cond(t)
    ensures Total(GroupOf(trades, m), cond, Qty()) == Total(trades, both, Qty())
    ensures Tally(GroupOf(trades, m), cond) == Tally(trades, both)
  {
    if |trades| > 0 {
      var init, last := trades[..|trades| - 1], trades[|trades| - 1];
      GroupTotals(init, m, cond, both);
      if MinuteOf(last) == m {
        var g := GroupOf(trades, m);
        assert g[..|g| - 1] == GroupOf(init, m);
      } else {
        assert GroupOf(trades, m) == GroupOf(init, m);
      }
    }
  }

  function Any(): Trade -> bool { (t: Trade) => true }

  function Large(sells: bool, threshold: real): Trade -> bool {
    (t: Trade) => t.isBuyerMaker == sells && t.quoteQty >= threshold
  }

  lemma {:induction false} GroupRow(trades: seq<Trade>, m: int, threshold: real)
    ensures var g := GroupOf(trades, m);
      MakeRow(m, |g|, Total(g, Side(false), Qty()), Total(g, Side(true), Qty()),
              Tally(g, Large(false, threshold)) + Tally(g, Large(true, threshold)),
              Total(g, Large(false, threshold), Qty()), Total(g, Large(true, threshold), Qty()))
      == RowOf(trades, m, threshold)
  {
    TallyAll(GroupOf(trades, m), Any());
    GroupTotals(trades, m, Any(), InMinute(m));
    GroupTotals(trades, m, Side(false), SideIn(m, false));
    GroupTotals(trades, m, Side(true), SideIn(m, true));
    GroupTotals(trades, m, Large(false, threshold), LargeIn(m, false, threshold));
    GroupTotals(trades, m, Large(true, threshold), LargeIn(m, true, threshold));
  }

  /** `groupby`: one pass that appends each trade to the group of its minute. */
  method GroupByMinute(trades: seq<Trade>) returns (minutes: seq<int>, groups: map<int, seq<Trade>>)
    ensures minutes == Minutes(trades)
    ensures forall m :: m in groups <==> m in minutes
    ensures forall m :: m in groups ==> groups[m] == GroupOf(trades, m)
  {
    minutes, groups := [], map[];
    for i := 0 to |trades|
      invariant minutes == Minutes(trades[..i])
      invariant forall m :: m in groups <==> m in minutes
      invariant forall m :: GroupOf(trades[..i], m) == if m in groups then groups[m] else []
    {
      assert trades[..i + 1][..i] == trades[..i];
      var m := MinuteOf(trades[i]);
      minutes := InsertMinute(minutes, m);
      groups := groups[m := (if m in groups then groups[m] else []) + [trades[i]]];
    }
    assert trades[..|trades|] == trades;
  }

  /** The trade that the loop adds, on each side's totals. */
  lemma {:induction false} OneMore(group: seq<Trade>, i: nat, cond: Trade -> bool)
    requires i < |group|
    ensures Total(group[..i + 1], cond, Qty())
         == Total(group[..i], cond, Qty()) + if cond(group[i]) then group[i].quoteQty else 0.0
    ensures Tally(group[..i + 1], cond) == Tally(group[..i], cond) + if cond(group[i]) then 1 else 0
  {
    assert group[..i + 1] == group[..i] + [group[i]];
    TotalAppend(group[..i], group[i], cond, Qty());
  }

  /** The features of one minute, accumulated over its trades: the row of that minute in all trades. */
  method AggregateMinute(ghost trades: seq<Trade>, group: seq<Trade>, m: int, threshold: real) returns (row: Row)
    requires group == GroupOf(trades, m)
    ensures row == RowOf(trades, m, threshold)
  {
    var buy, sell, largeBuy, largeSell := 0.0, 0.0, 0.0, 0.0;
    var largeCount: nat := 0;
    for i := 0 to |group|
      invariant buy == Total(group[..i], Side(false), Qty()) && sell == Total(group[..i], Side(true), Qty())
      invariant largeBuy == Total(group[..i], Large(false, threshold), Qty())
      invariant largeSell == Total(group[..i], Large(true, threshold), Qty())
      invariant largeCount == Tally(group[..i], Large(false, threshold)) + Tally(group[..i], Large(true, threshold))
    {
      OneMore(group, i, Side(false));
      OneMore(group, i, Side(true));
      OneMore(group, i, Large(false, threshold));
      OneMore(group, i, Large(true, threshold));
      var t := group[i];
      if t.isBuyerMaker {
        sell := sell + t.quoteQty;
      } else {
        buy := buy + t.quoteQty;
      }
      if t.quoteQty >= threshold {
        largeCount := largeCount + 1;
        if t.isBuyerMaker {
          largeSell := largeSell + t.quoteQty;
        } else {
          largeBuy := largeBuy + t.quoteQty;
        }
      }
    }
    assert group[..|group|] == group;
    GroupRow(trades, m, threshold);
    row := MakeRow(m, |group|, buy, sell, largeCount, largeBuy, largeSell);
  }

  lemma {:induction false} RowsExtend(trades: seq<Trade>, threshold: real, minutes: seq<int>, rows: seq<Row>, m: int,
          row: Row)
    requires RowsOf(trades, threshold, minutes, rows) && row == RowOf(trades, m, threshold)
    ensures RowsOf(trades, threshold, minutes + [m], rows + [row])
  {}

  /** One row per minute with trades, each from the group of its minute. */
  method AggregateRows(ghost trades: seq<Trade>, minutes: seq<int>, groups: map<int, seq<Trade>>, threshold: real)
    returns (rows: seq<Row>)
    requires forall i :: 0 <= i < |minutes| ==> minutes[i] in groups
    requires forall m :: m in groups ==> groups[m] == GroupOf(trades, m)
    ensures RowsOf(trades, threshold, minutes, rows)
  {
    rows := [];
    for i := 0 to |minutes|
      invariant RowsOf(trades, threshold, minutes[..i], rows)
    {
      var row := AggregateMinute(trades, groups[minutes[i]], minutes[i], threshold);
      RowsExtend(trades, threshold, minutes[..i], rows, minutes[i], row);
      assert minutes[..i] + [minutes[i]] == minutes[..i + 1];
      rows := rows + [row];
    }
    assert minutes[..|minutes|] == minutes;
  }

  /** The rows of a month, then the cumulative delta. */
  method AggregateTrades(trades: seq<Trade>, threshold: real) returns (rows: seq<Row>, cvd: seq<real>)
    ensures IsAggregation(trades, threshold, rows)
    ensures |cvd| == |rows| && forall i :: 0 <= i < |rows| ==> cvd[i] == Sum(Deltas(rows)[..i + 1])
  {
    var minutes, groups := GroupByMinute(trades);
    forall i | 0 <= i < |minutes| ensures minutes[i] in groups {
      assert minutes[i] in minutes;
    }
    rows := AggregateRows(trades, minutes, groups, threshold);
    cvd := CumulativeSum(Deltas(rows));
  }

  function Deltas(rows: seq<Row>): (d: seq<real>)
    ensures |d| == |rows| && forall i :: 0 <= i < |d| ==> d[i] == rows[i].volumeDelta
  {
    seq(|rows|, i requires 0 <= i < |rows| => rows[i].volumeDelta)
  }

  method CumulativeSum(s: seq<real>) returns (c: seq<real>)
    ensures |c| == |s| && forall i :: 0 <= i < |s| ==> c[i] == Sum(s[..i + 1])
  {
    c := [];
    var total := 0.0;
    for i := 0 to |s|
      invariant |c| == i && total == Sum(s[..i])
      invariant forall j :: 0 <= j < i ==> c[j] == Sum(s[..j + 1])
    {
      assert s[..i + 1] == s[..i] + [s[i]];
      SumAppend(s[..i], s[i]);
      total := total + s[i];
      c := c + [total];
    }
  }

  const WINDOW: nat := 60

  /** A window that takes in its right neighbour and lets go of its first element. */
  lemma {:induction false} Slide(s: seq<real>, lo: nat, hi: nat)
    requires lo <= hi < |s|
    ensures Sum(s[lo..hi + 1]) == Sum(s[lo..hi]) + s[hi]
    ensures Sum(s[lo + 1..hi + 1]) == Sum(s[lo..hi + 1]) - s[lo]
  {
    assert s[lo..hi + 1] == s[lo..hi] + [s[hi]];
    SumAppend(s[lo..hi], s[hi]);
    assert s[lo..hi + 1] == [s[lo]] + s[lo + 1..hi + 1];
    SumSplit([s[lo]], s[lo + 1..hi + 1]);
    SumConstant([s[lo]], s[lo]);
  }

  /** `rolling(window=60).sum()`: a running window sum, missing until the window is full. */
  method RollingSum(s: seq<real>) returns (r: seq<Option<real>>)
    ensures |r| == |s|
    ensures forall i :: 0 <= i < |s| ==> r[i] == if i < 59 then None else Some(Sum(s[i - 59..i + 1]))
  {
    r := [];
    var window := 0.0;
    for i := 0 to |s|
      invariant |r| == i && window == Sum(s[if i < WINDOW then 0 else i - WINDOW..i])
      invariant forall j :: 0 <= j < i ==> r[j] == if j < 59 then None else Some(Sum(s[j - 59..j + 1]))
    {
      Slide(s, if i < WINDOW then 0 else i - WINDOW, i);
      window := window + s[i];
      if i >= WINDOW {
        window := window - s[i - WINDOW];
      }
      r := r + [if i + 1 < WINDOW then None else Some(window)];
    }
  }

  // ----- Rows in terms of timestamps

  /** Trades of one side, with a quantity of at least `least`, whose timestamps lie in the minute from `start` on. */
  function Between(start: int, sells: bool, least: Option<real>): Trade -> bool {
    (t: Trade) =>
      && start <= t.timestamp < start + 60000 && t.isBuyerMaker == sells
      && (least.Some? ==> t.quoteQty >= least.value)
  }

  lemma {:induction false} MinuteInterval(t: Trade, m: int)
    ensures MinuteOf(t) == m <==> m * 60000 <= t.timestamp < m * 60000 + 60000
  {}

  /** A row's timestamp is a full minute, and its volumes are the totals over the trades of that minute. */
  lemma {:induction false} RowOfInterval(trades: seq<Trade>, threshold: real, rows: seq<Row>, j: nat)
    requires IsAggregation(trades, threshold, rows) && j < |rows|
    ensures var r := rows[j];
      && r.timestamp % 60000 == 0
      && r.buyVolume == Total(trades, Between(r.timestamp, false, None), Qty())
      && r.sellVolume == Total(trades, Between(r.timestamp, true, None), Qty())
      && r.aggressiveBuy == Total(trades, Between(r.timestamp, false, Some(threshold)), Qty())
      && r.aggressiveSell == Total(trades, Between(r.timestamp, true, Some(threshold)), Qty())
      && r.tradeCount == Tally(trades, Between(r.timestamp, false, None))
                         + Tally(trades, Between(r.timestamp, true, None))
      && r.largeTradeCount == Tally(trades, Between(r.timestamp, false, Some(threshold)))
                              + Tally(trades, Between(r.timestamp, true, Some(threshold)))
  {
    var m := Minutes(trades)[j];
    forall t ensures MinuteOf(t) == m <==> m * 60000 <= t.timestamp < m * 60000 + 60000 { MinuteInterval(t, m); }
    SideInterval(trades, m, false, threshold);
    SideInterval(trades, m, true, threshold);
    TotalDisjoint(trades, SideIn(m, false), SideIn(m, true), InMinute(m), Qty());
  }

  lemma {:induction false} SideInterval(trades: seq<Trade>, m: int, sells: bool, threshold: real)
    ensures Total(trades, SideIn(m, sells), Qty()) == Total(trades, Between(m * 60000, sells, None), Qty())
    ensures Tally(trades, SideIn(m, sells)) == Tally(trades, Between(m * 60000, sells, None))
    ensures Total(trades, LargeIn(m, sells, threshold), Qty())
         == Total(trades, Between(m * 60000, sells, Some(threshold)), Qty())
    ensures Tally(trades, LargeIn(m, sells, threshold)) == Tally(trades, Between(m * 60000, sells, Some(threshold)))
  {
    forall t ensures MinuteOf(t) == m <==> m * 60000 <= t.timestamp < m * 60000 + 60000 { MinuteInterval(t, m); }
    TotalSame(trades, SideIn(m, sells), Between(m * 60000, sells, None), Qty());
    TotalSame(trades, LargeIn(m, sells, threshold), Between(m * 60000, sells, Some(threshold)), Qty());
  }

  /** The trade falls within the sixty seconds a row covers. */
  predicate Covers(r: Row, t: Trade) {
    r.timestamp <= t.timestamp < r.timestamp + 60000
  }

  lemma {:induction false} RowStamp(trades: seq<Trade>, threshold: real, rows: seq<Row>, j: nat)
    requires IsAggregation(trades, threshold, rows) && j < |rows|
    ensures rows[j].timestamp == Minutes(trades)[j] * 60000
  {}

  lemma {:induction false} RowOfTrade(trades: seq<Trade>, threshold: real, rows: seq<Row>, i: nat) returns (j: nat)
    requires IsAggregation(trades, threshold, rows) && i < |trades|
    ensures j < |rows| && Covers(rows[j], trades[i])
  {
    var ms := Minutes(trades);
    assert MinuteOf(trades[i]) in ms;
    j :| 0 <= j < |ms| && ms[j] == MinuteOf(trades[i]);
    RowStamp(trades, threshold, rows, j);
    MinuteInterval(trades[i], ms[j]);
  }

  lemma {:induction false} TradeOfRow(trades: seq<Trade>, threshold: real, rows: seq<Row>, j: nat) returns (i: nat)
    requires IsAggregation(trades, threshold, rows) && j < |rows|
    ensures i < |trades| && Covers(rows[j], trades[i])
  {
    var ms := Minutes(trades);
    assert ms[j] in ms;
    i :| 0 <= i < |trades| && MinuteOf(trades[i]) == ms[j];
    RowStamp(trades, threshold, rows, j);
    MinuteInterval(trades[i], ms[j]);
  }

  lemma {:induction false} RowsApart(trades: seq<Trade>, threshold: real, rows: seq<Row>, j: nat, k: nat)
    requires IsAggregation(trades, threshold, rows) && j < k < |rows|
    ensures rows[j].timestamp + 60000 <= rows[k].timestamp
  {
    MinutesIncreasing(trades);
    RowStamp(trades, threshold, rows, j);
    RowStamp(trades, threshold, rows, k);
  }

  ghost predicate SomeRowCovers(rows: seq<Row>, t: Trade) {
    exists j :: 0 <= j < |rows| && Covers(rows[j], t)
  }

  ghost predicate CoversSome(r: Row, trades: seq<Trade>) {
    exists i :: 0 <= i < |trades| && Covers(r, trades[i])
  }

  /** Every trade falls into exactly one row, every row has a trade, and the rows are in order. */
  lemma {:induction false} OneRowPerTrade(trades: seq<Trade>, threshold: real, rows: seq<Row>)
    requires IsAggregation(trades, threshold, rows)
    ensures forall i :: 0 <= i < |trades| ==> SomeRowCovers(rows, trades[i])
    ensures forall j :: 0 <= j < |rows| ==> CoversSome(rows[j], trades)
    ensures forall j, k :: 0 <= j < k < |rows| ==> rows[j].timestamp + 60000 <= rows[k].timestamp
  {
    forall i | 0 <= i < |trades| ensures SomeRowCovers(rows, trades[i]) {
      TradeIsCovered(trades, threshold, rows, i);
    }
    forall j | 0 <= j < |rows| ensures CoversSome(rows[j], trades) {
      RowHasTrade(trades, threshold, rows, j);
    }
    forall j, k | 0 <= j < k < |rows| ensures rows[j].timestamp + 60000 <= rows[k].timestamp {
      RowsApart(trades, threshold, rows, j, k);
    }
  }

  lemma {:induction false} TradeIsCovered(trades: seq<Trade>, threshold: real, rows: seq<Row>, i: nat)
    requires IsAggregation(trades, threshold, rows) && i < |trades|
    ensures SomeRowCovers(rows, trades[i])
  {
    var j := RowOfTrade(trades, threshold, rows, i);
  }

  lemma {:induction false} RowHasTrade(trades: seq<Trade>, threshold: real, rows: seq<Row>, j: nat)
    requires IsAggregation(trades, threshold, rows) && j < |rows|
    ensures CoversSome(rows[j], trades)
  {
    var i := TradeOfRow(trades, threshold, rows, j);
  }

  /** The other columns of a row follow from its volumes and its count. */
  lemma {:induction false} DerivedColumns(trades: seq<Trade>, threshold: real, rows: seq<Row>, j: nat)
    requires IsAggregation(trades, threshold, rows) && j < |rows|
    ensures var r := rows[j];
      && r.totalVolume == r.buyVolume + r.sellVolume && r.volumeDelta == r.buyVolume - r.sellVolume
      && r.largeTradeVolume == r.aggressiveBuy + r.aggressiveSell
      && r.tradeCount > 0 && r.avgTradeSize * r.tradeCount as real == r.totalVolume
      && (r.totalVolume > 0.0 ==> r.takerBuyRatio * r.totalVolume == r.buyVolume
                                  && r.imbalance * r.totalVolume == r.volumeDelta)
      && (r.totalVolume <= 0.0 ==> r.takerBuyRatio == 0.5 && r.imbalance == 0.0)
  {
    var ms := Minutes(trades);
    assert ms[j] in ms;
    var i :| 0 <= i < |trades| && MinuteOf(trades[i]) == ms[j];
    TallyRemove(trades, InMinute(ms[j]), i);
  }

  lemma {:induction false} TallyRemove(trades: seq<Trade>, cond: Trade -> bool, i: nat)
    requires i < |trades| && cond(trades[i])
    ensures Tally(trades, cond) > 0
  {
    TotalRemove(trades, cond, Qty(), i);
  }

  // ----- Properties

  /** The rows do not depend on the order of the trades. */
  lemma {:induction false} OrderIrrelevant(s: seq<Trade>, t: seq<Trade>, threshold: real, rows: seq<Row>)
    requires multiset(s) == multiset(t)
    ensures IsAggregation(s, threshold, rows) <==> IsAggregation(t, threshold, rows)
  {
    SameMinutes(s, t);
    forall m ensures RowOf(s, m, threshold) == RowOf(t, m, threshold) {
      SameRow(s, t, m, threshold);
    }
  }

  lemma {:induction false} SameMinutes(s: seq<Trade>, t: seq<Trade>)
    requires multiset(s) == multiset(t)
    ensures Minutes(s) == Minutes(t)
  {
    MinutesIncreasing(s);
    MinutesIncreasing(t);
    MinuteKept(s, t);
    MinuteKept(t, s);
    IncreasingUnique(Minutes(s), Minutes(t));
  }

  lemma {:induction false} MinuteKept(s: seq<Trade>, t: seq<Trade>)
    requires multiset(s) == multiset(t)
    ensures forall m :: m in Minutes(s) ==> m in Minutes(t)
  {
    forall m | m in Minutes(s) ensures m in Minutes(t) {
      var i :| 0 <= i < |s| && MinuteOf(s[i]) == m;
      assert s[i] in multiset(t);
    }
  }

  lemma {:induction false} SameRow(s: seq<Trade>, t: seq<Trade>, m: int, threshold: real)
    requires multiset(s) == multiset(t)
    ensures RowOf(s, m, threshold) == RowOf(t, m, threshold)
  {
    TotalPermuted(s, t, InMinute(m), Qty());
    TotalPermuted(s, t, SideIn(m, false), Qty());
    TotalPermuted(s, t, SideIn(m, true), Qty());
    TotalPermuted(s, t, LargeIn(m, false, threshold), Qty());
    TotalPermuted(s, t, LargeIn(m, true, threshold), Qty());
  }

  /** The volume of one side, summed minute by minute. */
  function VolumeOver(trades: seq<Trade>, ms: seq<int>, sells: bool): real {
    if |ms| == 0 then 0.0
    else VolumeOver(trades, ms[..|ms| - 1], sells) + Total(trades, SideIn(ms[|ms| - 1], sells), Qty())
  }

  lemma {:induction false} VolumeOverIsTotal(trades: seq<Trade>, ms: seq<int>, sells: bool)
    requires Increasing(ms)
    ensures VolumeOver(trades, ms, sells) == Total(trades, SideAmong(ms, sells), Qty())
  {
    if |ms| == 0 {
      NothingTotals(trades, SideAmong(ms, sells));
    } else {
      var init, m := ms[..|ms| - 1], ms[|ms| - 1];
      VolumeOverIsTotal(trades, init, sells);
      assert ms == init + [m] && m !in init;
      TotalDisjoint(trades, SideAmong(init, sells), SideIn(m, sells), SideAmong(ms, sells), Qty());
    }
  }

  lemma {:induction false} NothingTotals(trades: seq<Trade>, cond: Trade -> bool)
    requires forall t :: !cond(t)
    ensures Total(trades, cond, Qty()) == 0.0 && Tally(trades, cond) == 0
  {
    if |trades| > 0 { NothingTotals(trades[..|trades| - 1], cond); }
  }

  /** The month's buy and sell volumes are those of all its trades: grouping loses and doubles nothing. */
  lemma {:induction false} VolumeConserved(trades: seq<Trade>, sells: bool)
    ensures VolumeOver(trades, Minutes(trades), sells) == Total(trades, Side(sells), Qty())
  {
    MinutesIncreasing(trades);
    VolumeOverIsTotal(trades, Minutes(trades), sells);
    TotalSame(trades, SideAmong(Minutes(trades), sells), Side(sells), Qty());
  }

  /** The number of trades, counted minute by minute. */
  function CountOver(trades: seq<Trade>, ms: seq<int>): nat {
    if |ms| == 0 then 0 else CountOver(trades, ms[..|ms| - 1]) + Tally(trades, InMinute(ms[|ms| - 1]))
  }

  function Among(ms: seq<int>): Trade -> bool { (t: Trade) => MinuteOf(t) in ms }

  lemma {:induction false} CountOverIsTally(trades: seq<Trade>, ms: seq<int>)
    requires Increasing(ms)
    ensures CountOver(trades, ms) == Tally(trades, Among(ms))
  {
    if |ms| == 0 {
      NothingTotals(trades, Among(ms));
    } else {
      var init, m := ms[..|ms| - 1], ms[|ms| - 1];
      CountOverIsTally(trades, init);
      assert ms == init + [m] && m !in init;
      TotalDisjoint(trades, Among(init), InMinute(m), Among(ms), Qty());
    }
  }

  lemma {:induction false} TallyAll(trades: seq<Trade>, cond: Trade -> bool)
    requires forall i :: 0 <= i < |trades| ==> cond(trades[i])
    ensures Tally(trades, cond) == |trades|
  {
    if |trades| > 0 { TallyAll(trades[..|trades| - 1], cond); }
  }

  /** Every trade is counted in exactly one row. */
  lemma {:induction false} CountConserved(trades: seq<Trade>)
    ensures CountOver(trades, Minutes(trades)) == |trades|
  {
    MinutesIncreasing(trades);
    CountOverIsTally(trades, Minutes(trades));
    TallyAll(trades, Among(Minutes(trades)));
  }

  lemma {:induction false} DeltaSum(trades: seq<Trade>, threshold: real, rows: seq<Row>, ms: seq<int>)
    requires RowsOf(trades, threshold, ms, rows)
    ensures Sum(Deltas(rows)) == VolumeOver(trades, ms, false) - VolumeOver(trades, ms, true)
  {
    if |rows| > 0 {
      DeltaSum(trades, threshold, rows[..|rows| - 1], ms[..|ms| - 1]);
      assert Deltas(rows)[..|rows| - 1] == Deltas(rows[..|rows| - 1]);
    }
  }

  /** The last CVD is everything bought less everything sold. */
  lemma {:induction false} LastCvd(trades: seq<Trade>, threshold: real, rows: seq<Row>)
    requires IsAggregation(trades, threshold, rows)
    ensures Sum(Deltas(rows)) == Total(trades, Side(false), Qty()) - Total(trades, Side(true), Qty())
  {
    DeltaSum(trades, threshold, rows, Minutes(trades));
    VolumeConserved(trades, false);
    VolumeConserved(trades, true);
  }

  /** The rolling window is a difference of two prefix sums: CVD now less CVD sixty rows ago. */
  lemma {:induction false} RollingIsDifference(d: seq<real>, i: nat)
    requires 59 <= i < |d|
    ensures Sum(d[i - 59..i + 1]) == Sum(d[..i + 1]) - Sum(d[..i - 59])
    ensures i == 59 ==> Sum(d[i - 59..i + 1]) == Sum(d[..i + 1])
  {
    assert d[..i + 1] == d[..i - 59] + d[i - 59..i + 1];
    SumSplit(d[..i - 59], d[i - 59..i + 1]);
  }

  /** In every row the imbalance is the taker-buy ratio rescaled to [-1, 1], also for an empty volume. */
  lemma {:induction false} ImbalanceIsRescaledRatio(trades: seq<Trade>, m: int, threshold: real)
    ensures RowOf(trades, m, threshold).imbalance == 2.0 * RowOf(trades, m, threshold).takerBuyRatio - 1.0
  {
    var r := RowOf(trades, m, threshold);
    if r.totalVolume > 0.0 {
      QuotientIs(r.buyVolume - r.sellVolume, r.totalVolume, 2.0 * (r.buyVolume / r.totalVolume) - 1.0);
    }
  }

  /** With non-negative quantities the ratio is a ratio, and large trades are part of the volume. */
  lemma {:induction false} RowBounds(trades: seq<Trade>, m: int, threshold: real)
    requires forall i :: 0 <= i < |trades| ==> trades[i].quoteQty >= 0.0
    ensures var r := RowOf(trades, m, threshold);
      && 0.0 <= r.takerBuyRatio <= 1.0
      && 0.0 <= r.aggressiveBuy <= r.buyVolume && 0.0 <= r.aggressiveSell <= r.sellVolume
      && r.largeTradeVolume == r.aggressiveBuy + r.aggressiveSell <= r.totalVolume
      && r.largeTradeCount <= r.tradeCount
  {
    TotalStronger(trades, LargeIn(m, false, threshold), SideIn(m, false), Qty());
    TotalStronger(trades, LargeIn(m, true, threshold), SideIn(m, true), Qty());
    TotalDisjoint(trades, SideIn(m, false), SideIn(m, true), InMinute(m), Qty());
    ShareInRange(Total(trades, SideIn(m, false), Qty()), Total(trades, SideIn(m, true), Qty()));
  }

  lemma {:induction false} ShareInRange(part: real, rest: real)
    requires part >= 0.0 && rest >= 0.0
    ensures part + rest > 0.0 ==> 0.0 <= part / (part + rest) <= 1.0
  {
    if part + rest > 0.0 {
      DivideCompares(part, part + rest, 0.0);
      DivideCompares(part, part + rest, 1.0);
    }
  }
}
