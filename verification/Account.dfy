/**
 * The margin account: clamped counters for used margin and frozen balance, the balance derived
 * from them, and the health status.
 */
module Account {
  import opened Options
  import opened RealSeq

  datatype Status = Healthy | Warning | Danger | Liquidated

  /** The fields the balance and the status depend on. */
  datatype Ledger = Ledger(balance: real, usedMargin: real, frozen: real, unrealizedPnl: real) {

    function Available(): real { balance - usedMargin - frozen + unrealizedPnl }

    function Equity(): real { balance + unrealizedPnl }

    function MarginRatio(): real {
      if Equity() == 0.0 then 0.0
      else if Equity() > 0.0 then Available() / Equity() else 0.0
    }

    function GetStatus(): Status {
      if MarginRatio() <= 0.0 then Liquidated
      else if MarginRatio() < 0.05 then Danger
      else if MarginRatio() < 0.15 then Warning
      else Healthy
    }
  }

  /** A call on the account; the last one changes no counter. */
  datatype Op =
    | Freeze(amount: real)
    | Unfreeze(amount: real)
    | AddMargin(amount: real)
    | ReleaseMargin(amount: real)
    | UpdatePnl(pnl: real)

  /** The account after an accepted call, or None when the call raises. */
  function Apply(l: Ledger, op: Op): Option<Ledger> {
    match op
    case Freeze(x) => if x > l.Available() then None else Some(l.(frozen := l.frozen + x))
    case Unfreeze(x) => Some(l.(frozen := Max(0.0, l.frozen - x)))
    case AddMargin(x) => if x > l.Available() then None else Some(l.(usedMargin := l.usedMargin + x))
    case ReleaseMargin(x) => Some(l.(usedMargin := Max(0.0, l.usedMargin - x)))
    case UpdatePnl(p) => Some(l.(unrealizedPnl := p))
  }

  /** The account after a run of calls; one that raises leaves it as it was. */
  function Run(l: Ledger, ops: seq<Op>): Ledger {
    if |ops| == 0 then l
    else
      var before := Run(l, ops[..|ops| - 1]);
      Apply(before, ops[|ops| - 1]).GetOr(before)
  }

  class AccountModel {
    const initialBalance: real
    var currentBalance: real
    var usedMargin: real
    var unrealizedPnl: real
    var frozenBalance: real
    var totalFees: real
    var totalFunding: real
    var totalRealizedPnl: real

    constructor (initialBalance: real, currentBalance: real)
      ensures this.initialBalance == initialBalance
      ensures State() == Ledger(if currentBalance == 0.0 then initialBalance else currentBalance, 0.0, 0.0, 0.0)
      ensures totalFees == totalFunding == totalRealizedPnl == 0.0
    {
      this.initialBalance := initialBalance;
      this.currentBalance := if currentBalance == 0.0 then initialBalance else currentBalance;
      usedMargin, unrealizedPnl, frozenBalance := 0.0, 0.0, 0.0;
      totalFees, totalFunding, totalRealizedPnl := 0.0, 0.0, 0.0;
    }

    function State(): Ledger
      reads this
    {
      Ledger(currentBalance, usedMargin, frozenBalance, unrealizedPnl)
    }

    method FreezeBalance(amount: real) returns (accepted: bool)
      modifies this`frozenBalance
      ensures accepted <==> amount <= old(currentBalance - usedMargin - frozenBalance + unrealizedPnl)
      ensures frozenBalance == if accepted then old(frozenBalance) + amount else old(frozenBalance)
      ensures accepted == Apply(old(State()), Freeze(amount)).Some?
      ensures State() == Apply(old(State()), Freeze(amount)).GetOr(old(State()))
    {
      if amount > State().Available() {
        return false;
      }
      frozenBalance := frozenBalance + amount;
      accepted := true;
    }

    method UnfreezeBalance(amount: real)
      modifies this`frozenBalance
      ensures frozenBalance == if old(frozenBalance) > amount then old(frozenBalance) - amount else 0.0
      ensures Some(State()) == Apply(old(State()), Unfreeze(amount))
    {
      frozenBalance := Max(0.0, frozenBalance - amount);
    }

    method AddMarginFor(margin: real) returns (accepted: bool)
      modifies this`usedMargin
      ensures accepted <==> margin <= old(currentBalance - usedMargin - frozenBalance + unrealizedPnl)
      ensures usedMargin == if accepted then old(usedMargin) + margin else old(usedMargin)
      ensures accepted == Apply(old(State()), AddMargin(margin)).Some?
      ensures State() == Apply(old(State()), AddMargin(margin)).GetOr(old(State()))
    {
      if margin > State().Available() {
        return false;
      }
      usedMargin := usedMargin + margin;
      accepted := true;
    }

    method ReleaseMarginFor(margin: real)
      modifies this`usedMargin
      ensures usedMargin == if old(usedMargin) > margin then old(usedMargin) - margin else 0.0
      ensures Some(State()) == Apply(old(State()), ReleaseMargin(margin))
    {
      usedMargin := Max(0.0, usedMargin - margin);
    }

    method UpdateUnrealizedPnl(pnl: real)
      modifies this`unrealizedPnl
      ensures Some(State()) == Apply(old(State()), UpdatePnl(pnl))
    {
      unrealizedPnl := pnl;
    }

    /** Fees, funding and realized profit only bump their totals. */
    method Book(fee: real, funding: real, realized: real)
      modifies this`totalFees, this`totalFunding, this`totalRealizedPnl
      ensures totalFees == old(totalFees) + fee
      ensures totalFunding == old(totalFunding) + funding
      ensures totalRealizedPnl == old(totalRealizedPnl) + realized
    {
      totalFees := totalFees + fee;
      totalFunding := totalFunding + funding;
      totalRealizedPnl := totalRealizedPnl + realized;
    }

    method Reset()
      modifies this
      ensures State() == Ledger(initialBalance, 0.0, 0.0, 0.0)
      ensures totalFees == totalFunding == totalRealizedPnl == 0.0
    {
      currentBalance := initialBalance;
      usedMargin, unrealizedPnl, frozenBalance := 0.0, 0.0, 0.0;
      totalFees, totalFunding, totalRealizedPnl := 0.0, 0.0, 0.0;
    }
  }

  // ----- The counters are reflected walks

  /** A counter that takes signed steps and is cut at zero from below. */
  function Clamped(steps: seq<real>): real {
    if |steps| == 0 then 0.0 else Max(0.0, Clamped(steps[..|steps| - 1]) + steps[|steps| - 1])
  }

  /** The least of the running totals S_0 = 0, S_1, ..., S_n. */
  function LowestTotal(steps: seq<real>): real {
    if |steps| == 0 then 0.0 else Min(LowestTotal(steps[..|steps| - 1]), Sum(steps))
  }

  lemma {:induction false} LowestTotalIsLeast(steps: seq<real>)
    ensures forall k :: 0 <= k <= |steps| ==> LowestTotal(steps) <= Sum(steps[..k])
    ensures exists k :: 0 <= k <= |steps| && LowestTotal(steps) == Sum(steps[..k])
  {
    assert steps[..|steps|] == steps;
    if |steps| == 0 {
      assert LowestTotal(steps) == Sum(steps[..0]);
    } else {
      var init := steps[..|steps| - 1];
      LowestTotalIsLeast(init);
      forall k | 0 <= k <= |init| ensures init[..k] == steps[..k] {}
      var k :| 0 <= k <= |init| && LowestTotal(init) == Sum(init[..k]);
      assert LowestTotal(steps) == Sum(steps[..k]) || LowestTotal(steps) == Sum(steps[..|steps|]);
    }
  }

  /** The clamped counter is the walk reflected at its running minimum: S_n - min_k S_k. */
  lemma {:induction false} ReflectedWalk(steps: seq<real>)
    ensures Clamped(steps) == Sum(steps) - LowestTotal(steps)
  {
    if |steps| > 0 {
      ReflectedWalk(steps[..|steps| - 1]);
    }
  }

  /** Margin requested is never negative; what is released may be anything. */
  predicate NonNegativeRequests(ops: seq<Op>) {
    forall i :: 0 <= i < |ops| && (ops[i].AddMargin? || ops[i].Freeze?) ==> ops[i].amount >= 0.0
  }

  /** The signed step an accepted call makes on the used margin, if any. */
  function MarginStep(l: Ledger, op: Op): seq<real> {
    if op.AddMargin? && Apply(l, op).Some? then [op.amount]
    else if op.ReleaseMargin? then [-op.amount] else []
  }

  /** The same for the frozen balance. */
  function FrozenStep(l: Ledger, op: Op): seq<real> {
    if op.Freeze? && Apply(l, op).Some? then [op.amount]
    else if op.Unfreeze? then [-op.amount] else []
  }

  /** The signed steps of a run. */
  function MarginSteps(l: Ledger, ops: seq<Op>): seq<real> {
    if |ops| == 0 then []
    else
      var init := ops[..|ops| - 1];
      MarginSteps(l, init) + MarginStep(Run(l, init), ops[|ops| - 1])
  }

  function FrozenSteps(l: Ledger, ops: seq<Op>): seq<real> {
    if |ops| == 0 then []
    else
      var init := ops[..|ops| - 1];
      FrozenSteps(l, init) + FrozenStep(Run(l, init), ops[|ops| - 1])
  }

  lemma {:induction false} ClampedAppend(steps: seq<real>, x: real)
    ensures Clamped(steps + [x]) == Max(0.0, Clamped(steps) + x)
  {
    assert (steps + [x])[..|steps|] == steps;
  }

  lemma {:induction false} ClampedNonNegative(steps: seq<real>)
    ensures Clamped(steps) >= 0.0
  {}

  /** One call moves the used margin as its step moves the clamped counter. */
  lemma {:induction false} MarginClampedStep(l: Ledger, op: Op, steps: seq<real>)
    requires l.usedMargin == Clamped(steps) && (op.AddMargin? ==> op.amount >= 0.0)
    ensures Apply(l, op).GetOr(l).usedMargin == Clamped(steps + MarginStep(l, op))
  {
    var step := MarginStep(l, op);
    ClampedNonNegative(steps);
    if |step| == 0 {
      assert steps + step == steps;
    } else {
      assert step == [step[0]];
      ClampedAppend(steps, step[0]);
    }
  }

  lemma {:induction false} FrozenClampedStep(l: Ledger, op: Op, steps: seq<real>)
    requires l.frozen == Clamped(steps) && (op.Freeze? ==> op.amount >= 0.0)
    ensures Apply(l, op).GetOr(l).frozen == Clamped(steps + FrozenStep(l, op))
  {
    var step := FrozenStep(l, op);
    ClampedNonNegative(steps);
    if |step| == 0 {
      assert steps + step == steps;
    } else {
      assert step == [step[0]];
      ClampedAppend(steps, step[0]);
    }
  }

  lemma {:induction false} CountersAreClamped(l: Ledger, ops: seq<Op>)
    requires l.usedMargin == 0.0 && l.frozen == 0.0 && NonNegativeRequests(ops)
    ensures Run(l, ops).usedMargin == Clamped(MarginSteps(l, ops))
    ensures Run(l, ops).frozen == Clamped(FrozenSteps(l, ops))
  {
    if |ops| > 0 {
      var init, op := ops[..|ops| - 1], ops[|ops| - 1];
      CountersAreClamped(l, init);
      MarginClampedStep(Run(l, init), op, MarginSteps(l, init));
      FrozenClampedStep(Run(l, init), op, FrozenSteps(l, init));
    }
  }

  /** In any run from a fresh account both counters have the closed form of a reflected walk. */
  lemma {:induction false} CountersClosedForm(l: Ledger, ops: seq<Op>)
    requires l.usedMargin == 0.0 && l.frozen == 0.0 && NonNegativeRequests(ops)
    ensures Run(l, ops).usedMargin == Sum(MarginSteps(l, ops)) - LowestTotal(MarginSteps(l, ops))
    ensures Run(l, ops).frozen == Sum(FrozenSteps(l, ops)) - LowestTotal(FrozenSteps(l, ops))
  {
    CountersAreClamped(l, ops);
    ReflectedWalk(MarginSteps(l, ops));
    ReflectedWalk(FrozenSteps(l, ops));
  }

  // ----- Solvency

  predicate NonNegativeAmounts(ops: seq<Op>) {
    forall i :: 0 <= i < |ops| && !ops[i].UpdatePnl? ==> ops[i].amount >= 0.0
  }

  predicate NoPnlUpdate(ops: seq<Op>) {
    forall i :: 0 <= i < |ops| ==> !ops[i].UpdatePnl?
  }

  /** Without a profit update, no run of calls overdraws the account, and balance and equity stay put. */
  lemma {:induction false} AvailableStays(l: Ledger, ops: seq<Op>)
    requires NonNegativeAmounts(ops) && NoPnlUpdate(ops)
    requires l.Available() >= 0.0 && l.usedMargin >= 0.0 && l.frozen >= 0.0
    ensures var r := Run(l, ops);
      r.Available() >= 0.0 && r.usedMargin >= 0.0 && r.frozen >= 0.0 && r.Equity() == l.Equity()
  {
    if |ops| > 0 {
      AvailableStays(l, ops[..|ops| - 1]);
    }
  }

  /** A profit update overdraws the account exactly when it falls below what is reserved beyond the balance. */
  lemma {:induction false} PnlUpdateOverdraws(l: Ledger, pnl: real)
    ensures Apply(l, UpdatePnl(pnl)).value.Available() >= 0.0 <==> pnl >= l.usedMargin + l.frozen - l.balance
  {}

  /** Releasing what was reserved undoes the reservation. */
  lemma {:induction false} ReleaseUndoes(l: Ledger, amount: real)
    requires l.usedMargin >= 0.0 && l.frozen >= 0.0 && 0.0 <= amount <= l.Available()
    ensures Run(l, [AddMargin(amount), ReleaseMargin(amount)]) == l
    ensures Run(l, [Freeze(amount), Unfreeze(amount)]) == l
  {
    assert [AddMargin(amount), ReleaseMargin(amount)][..1] == [AddMargin(amount)];
    assert [Freeze(amount), Unfreeze(amount)][..1] == [Freeze(amount)];
    assert [AddMargin(amount)][..0] == [] && [Freeze(amount)][..0] == [];
    assert Run(l, [AddMargin(amount)]) == l.(usedMargin := l.usedMargin + amount);
    assert Run(l, [Freeze(amount)]) == l.(frozen := l.frozen + amount);
  }

  // ----- The status

  /** The status in terms of the share of the equity that is reserved. */
  lemma {:induction false} StatusThresholds(l: Ledger)
    ensures var reserved, e := l.usedMargin + l.frozen, l.Equity();
      && (l.GetStatus() == Liquidated <==> e <= 0.0 || reserved >= e)
      && (l.GetStatus() == Danger <==> e > 0.0 && 0.95 * e < reserved < e)
      && (l.GetStatus() == Warning <==> e > 0.0 && 0.85 * e < reserved <= 0.95 * e)
      && (l.GetStatus() == Healthy <==> e > 0.0 && reserved <= 0.85 * e)
  {
    var e, a := l.Equity(), l.Available();
    if e > 0.0 {
      DivideCompares(a, e, 0.0);
      DivideCompares(a, e, 0.05);
      DivideCompares(a, e, 0.15);
    }
  }

  function Severity(s: Status): nat {
    match s
    case Healthy => 0
    case Warning => 1
    case Danger => 2
    case Liquidated => 3
  }

  lemma {:induction false} StatusMonotone(l: Ledger, m: Ledger)
    requires l.Equity() == m.Equity() && l.usedMargin + l.frozen <= m.usedMargin + m.frozen
    ensures Severity(l.GetStatus()) <= Severity(m.GetStatus())
  {
    StatusThresholds(l);
    StatusThresholds(m);
  }

  /** Reserving never improves the status. */
  lemma {:induction false} ReservingNeverImproves(l: Ledger, amount: real)
    requires 0.0 <= amount <= l.Available()
    ensures Severity(Apply(l, Freeze(amount)).value.GetStatus()) >= Severity(l.GetStatus())
    ensures Severity(Apply(l, AddMargin(amount)).value.GetStatus()) >= Severity(l.GetStatus())
  {
    StatusMonotone(l, Apply(l, Freeze(amount)).value);
    StatusMonotone(l, Apply(l, AddMargin(amount)).value);
  }

  /** Releasing never worsens it. */
  lemma {:induction false} ReleasingNeverWorsens(l: Ledger, amount: real)
    requires l.usedMargin >= 0.0 && l.frozen >= 0.0 && amount >= 0.0
    ensures Severity(Apply(l, Unfreeze(amount)).value.GetStatus()) <= Severity(l.GetStatus())
    ensures Severity(Apply(l, ReleaseMargin(amount)).value.GetStatus()) <= Severity(l.GetStatus())
  {
    StatusMonotone(Apply(l, Unfreeze(amount)).value, l);
    StatusMonotone(Apply(l, ReleaseMargin(amount)).value, l);
  }
}
