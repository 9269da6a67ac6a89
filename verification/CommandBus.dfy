/**
 * The runtime command bus. A call to `execute` runs in two atomic steps: it begins (history,
 * counter, handler look-up) and, once its handler is done, it completes; between the two any
 * other call may take a step. A call without a handler completes in the step that begins it.
 */
module CommandBus {
  import opened Sequences

  datatype Command = Command(id: string, kind: string, source: string)

  /** How the handler of a call ended. */
  datatype Outcome = Returned(value: string) | Raised(error: string)

  datatype CommandResult = CommandResult(id: string, success: bool, payload: string)

  const MAX_HISTORY: nat := 1000

  /** A completed call: its position among the calls begun, and its result. */
  datatype Completion = Completion(call: nat, result: CommandResult)

  function Results(done: seq<Completion>): (r: seq<CommandResult>)
    ensures |r| == |done| && forall i :: 0 <= i < |r| ==> r[i] == done[i].result
  {
    seq(|done|, i requires 0 <= i < |done| => done[i].result)
  }

  function Successes(done: seq<Completion>): nat {
    if |done| == 0 then 0
    else Successes(done[..|done| - 1]) + if done[|done| - 1].result.success then 1 else 0
  }

  function ResultOf(c: Command, outcome: Outcome): CommandResult {
    match outcome
    case Returned(v) => CommandResult(c.id, true, v)
    case Raised(e) => CommandResult(c.id, false, e)
  }

  function NoHandler(c: Command): CommandResult {
    CommandResult(c.id, false, "No handler for command: " + c.kind)
  }

  lemma {:induction false} SuccessesAppend(done: seq<Completion>, c: Completion)
    ensures Successes(done + [c]) == Successes(done) + if c.result.success then 1 else 0
    ensures Successes(done) <= |done|
  {
    assert (done + [c])[..|done|] == done;
    SuccessesBounded(done);
  }

  lemma {:induction false} SuccessesBounded(done: seq<Completion>)
    ensures Successes(done) <= |done|
  {
    if |done| > 0 { SuccessesBounded(done[..|done| - 1]); }
  }

  /** Calls complete at most once each, and only calls that have begun, under the id they began with. */
  ghost predicate OncePerCall(begun: seq<Command>, done: seq<Completion>) {
    && (forall i :: 0 <= i < |done| ==> done[i].call < |begun| && done[i].result.id == begun[done[i].call].id)
    && forall i, j :: 0 <= i < j < |done| ==> done[i].call != done[j].call
  }

  ghost predicate IsDone(done: seq<Completion>, call: nat) {
    exists i :: 0 <= i < |done| && done[i].call == call
  }

  /** Every begun call is suspended or done, never both. */
  ghost predicate Accounted(begun: seq<Command>, done: seq<Completion>, suspended: map<nat, Command>) {
    && |begun| == |done| + |suspended|
    && OncePerCall(begun, done)
    && (forall call :: call in suspended ==> call < |begun| && suspended[call] == begun[call])
    && (forall call: nat :: call < |begun| ==> (call in suspended <==> !IsDone(done, call)))
  }

  lemma {:induction false} IsDoneAppend(done: seq<Completion>, c: Completion, call: nat)
    ensures IsDone(done + [c], call) <==> IsDone(done, call) || c.call == call
  {
    var longer := done + [c];
    assert longer[|done|] == c;
    if i :| 0 <= i < |done| && done[i].call == call {
      assert longer[i].call == call;
    }
  }

  lemma {:induction false} BeginAccounted(begun: seq<Command>, done: seq<Completion>, suspended: map<nat, Command>,
          c: Command)
    requires Accounted(begun, done, suspended)
    ensures Accounted(begun + [c], done, suspended[|begun| := c])
  {
    var with := suspended[|begun| := c];
    assert !IsDone(done, |begun|);
    assert with.Keys == suspended.Keys + {|begun|};
    assert OncePerCall(begun + [c], done);
    forall call: nat | call < |begun| + 1 ensures call in with <==> !IsDone(done, call) {
      assert call < |begun| ==> (call in suspended <==> !IsDone(done, call));
    }
  }

  lemma {:induction false} CompleteAccounted(begun: seq<Command>, done: seq<Completion>, suspended: map<nat, Command>,
          call: nat, r: CommandResult)
    requires Accounted(begun, done, suspended) && call in suspended && r.id == suspended[call].id
    ensures Accounted(begun, done + [Completion(call, r)], suspended - {call})
  {
    assert (suspended - {call}).Keys == suspended.Keys - {call};
    assert !IsDone(done, call);
    forall other: nat ensures IsDone(done + [Completion(call, r)], other) <==> IsDone(done, other) || other == call {
      IsDoneAppend(done, Completion(call, r), other);
    }
  }

  /** What the bus keeps after any interleaving, in terms of everything begun and completed so far. */
  ghost predicate Reports(begun: seq<Command>, done: seq<Completion>, commands: seq<Command>,
          results: seq<CommandResult>, total: nat, successful: nat, failed: nat)
  {
    && commands == Last(begun, MAX_HISTORY)
    && results == Last(Results(done), MAX_HISTORY)
    && total == |begun|
    && successful == Successes(done) && successful + failed == |done|
  }

  lemma {:induction false} CompleteReports(begun: seq<Command>, done: seq<Completion>, commands: seq<Command>,
          results: seq<CommandResult>, total: nat, successful: nat, failed: nat, c: Completion)
    requires Reports(begun, done, commands, results, total, successful, failed)
    ensures Reports(begun, done + [c], commands, Last(results + [c.result], MAX_HISTORY), total,
                    if c.result.success then successful + 1 else successful,
                    if c.result.success then failed else failed + 1)
  {
    assert Results(done + [c]) == Results(done) + [c.result];
    LastAppend(Results(done), MAX_HISTORY, c.result);
    SuccessesAppend(done, c);
  }

  // ----- The bus as a state machine

  /** `suspended` holds the calls waiting for their handler, by the order in which they began. */
  datatype Bus = Bus(
    handlers: set<string>,
    commandHistory: seq<Command>,
    resultHistory: seq<CommandResult>,
    total: nat,
    successful: nat,
    failed: nat,
    suspended: map<nat, Command>)

  /** One move of the event loop. */
  datatype Step = Start(command: Command) | Finish(call: nat, outcome: Outcome) | Register(kind: string)

  function Deliver(b: Bus, r: CommandResult): Bus {
    b.(resultHistory := Last(b.resultHistory + [r], MAX_HISTORY),
       successful := if r.success then b.successful + 1 else b.successful,
       failed := if r.success then b.failed else b.failed + 1)
  }

  /** A `Finish` of a call that is not suspended is not a move the event loop can make; it changes nothing. */
  function After(b: Bus, step: Step): Bus {
    match step
    case Start(c) =>
      var begun := b.(commandHistory := Last(b.commandHistory + [c], MAX_HISTORY), total := b.total + 1);
      if c.kind in b.handlers then begun.(suspended := b.suspended[b.total := c]) else Deliver(begun, NoHandler(c))
    case Finish(call, outcome) =>
      if call in b.suspended then
        Deliver(b, ResultOf(b.suspended[call], outcome)).(suspended := b.suspended - {call})
      else b
    case Register(kind) => b.(handlers := b.handlers + {kind})
  }

  function Initial(handlers: set<string>): Bus {
    Bus(handlers, [], [], 0, 0, 0, map[])
  }

  function Run(handlers: set<string>, steps: seq<Step>): Bus {
    if |steps| == 0 then Initial(handlers)
    else After(Run(handlers, steps[..|steps| - 1]), steps[|steps| - 1])
  }

  class RuntimeCommandBus {
    var handlers: set<string>
    var commandHistory: seq<Command>
    var resultHistory: seq<CommandResult>
    var total: nat
    var successful: nat
    var failed: nat
    var suspended: map<nat, Command>

    function State(): Bus
      reads this
    {
      Bus(handlers, commandHistory, resultHistory, total, successful, failed, suspended)
    }

    constructor (handlers: set<string>)
      ensures State() == Initial(handlers)
    {
      this.handlers := handlers;
      commandHistory, resultHistory := [], [];
      total, successful, failed := 0, 0, 0;
      suspended := map[];
    }

    method RegisterHandler(kind: string)
      modifies this`handlers
      ensures State() == After(old(State()), Register(kind))
    {
      handlers := handlers + {kind};
    }

    /** Everything up to the await of the handler, or the whole call when there is none. */
    method Begin(c: Command) returns (call: nat)
      modifies this`commandHistory, this`resultHistory, this`total, this`failed, this`suspended
      ensures State() == After(old(State()), Start(c)) && call == old(total)
    {
      call := total;
      commandHistory := commandHistory + [c];
      if |commandHistory| > MAX_HISTORY {
        commandHistory := commandHistory[|commandHistory| - MAX_HISTORY..];
      }
      total := total + 1;
      if c.kind in handlers {
        suspended := suspended[call := c];
      } else {
        failed := failed + 1;
        AppendResult(NoHandler(c));
      }
    }

    /** The handler of a suspended call returned or raised. */
    method Complete(call: nat, outcome: Outcome)
      requires call in suspended
      modifies this`resultHistory, this`successful, this`failed, this`suspended
      ensures State() == After(old(State()), Finish(call, outcome))
    {
      var result := ResultOf(suspended[call], outcome);
      match outcome {
        case Returned(_) => successful := successful + 1;
        case Raised(_) => failed := failed + 1;
      }
      AppendResult(result);
      suspended := suspended - {call};
    }

    method AppendResult(result: CommandResult)
      modifies this`resultHistory
      ensures resultHistory == Last(old(resultHistory) + [result], MAX_HISTORY)
    {
      resultHistory := resultHistory + [result];
      if |resultHistory| > MAX_HISTORY {
        resultHistory := resultHistory[|resultHistory| - MAX_HISTORY..];
      }
    }
  }

  // ----- Whole runs

  /** Every command begun in a run, in order. */
  function Begun(steps: seq<Step>): seq<Command> {
    if |steps| == 0 then []
    else
      var last := steps[|steps| - 1];
      Begun(steps[..|steps| - 1]) + if last.Start? then [last.command] else []
  }

  /** What one step completes. */
  function Completes(b: Bus, step: Step): seq<Completion> {
    match step
    case Start(c) => if c.kind in b.handlers then [] else [Completion(b.total, NoHandler(c))]
    case Finish(call, outcome) =>
      if call in b.suspended then [Completion(call, ResultOf(b.suspended[call], outcome))] else []
    case Register(_) => []
  }

  /** Every completion of a run, in order. */
  function Done(handlers: set<string>, steps: seq<Step>): seq<Completion> {
    if |steps| == 0 then []
    else
      var init := steps[..|steps| - 1];
      Done(handlers, init) + Completes(Run(handlers, init), steps[|steps| - 1])
  }

  lemma {:induction false} StepReports(b: Bus, step: Step, begun: seq<Command>, done: seq<Completion>)
    requires Reports(begun, done, b.commandHistory, b.resultHistory, b.total, b.successful, b.failed)
    ensures var a := After(b, step);
      Reports(begun + (if step.Start? then [step.command] else []), done + Completes(b, step),
              a.commandHistory, a.resultHistory, a.total, a.successful, a.failed)
  {
    assert begun + [] == begun && done + [] == done;
    if step.Start? {
      LastAppend(begun, MAX_HISTORY, step.command);
    }
    if |Completes(b, step)| > 0 {
      CompleteReports(begun, done, b.commandHistory, b.resultHistory, b.total, b.successful, b.failed,
                      Completes(b, step)[0]);
    }
  }

  /** A command without a handler is begun and completed in one step. */
  lemma {:induction false} UnhandledAccounted(begun: seq<Command>, done: seq<Completion>,
          suspended: map<nat, Command>, c: Command)
    requires Accounted(begun, done, suspended)
    ensures Accounted(begun + [c], done + [Completion(|begun|, NoHandler(c))], suspended)
  {
    var with := suspended[|begun| := c];
    BeginAccounted(begun, done, suspended, c);
    CompleteAccounted(begun + [c], done, with, |begun|, NoHandler(c));
    RemoveAdded(suspended, |begun|, c);
  }

  lemma {:induction false} RemoveAdded(suspended: map<nat, Command>, call: nat, c: Command)
    requires call !in suspended
    ensures suspended[call := c] - {call} == suspended
  {}

  lemma {:induction false} StartAccounted(b: Bus, c: Command, begun: seq<Command>, done: seq<Completion>)
    requires Accounted(begun, done, b.suspended) && b.total == |begun|
    ensures Accounted(begun + [c], done + Completes(b, Start(c)), After(b, Start(c)).suspended)
  {
    if c.kind in b.handlers {
      BeginAccounted(begun, done, b.suspended, c);
      assert done + [] == done;
    } else {
      UnhandledAccounted(begun, done, b.suspended, c);
    }
  }

  lemma {:induction false} FinishAccounted(b: Bus, call: nat, outcome: Outcome, begun: seq<Command>,
          done: seq<Completion>)
    requires Accounted(begun, done, b.suspended)
    ensures Accounted(begun, done + Completes(b, Finish(call, outcome)), After(b, Finish(call, outcome)).suspended)
  {
    if call in b.suspended {
      CompleteAccounted(begun, done, b.suspended, call, ResultOf(b.suspended[call], outcome));
    } else {
      assert done + [] == done;
    }
  }

  lemma {:induction false} StepAccounted(b: Bus, step: Step, begun: seq<Command>, done: seq<Completion>)
    requires Accounted(begun, done, b.suspended) && b.total == |begun|
    ensures Accounted(begun + (if step.Start? then [step.command] else []), done + Completes(b, step),
                      After(b, step).suspended)
  {
    match step
    case Start(c) => StartAccounted(b, c, begun, done);
    case Finish(call, outcome) =>
      FinishAccounted(b, call, outcome, begun, done);
      assert begun + [] == begun;
    case Register(_) => assert begun + [] == begun && done + [] == done;
  }

  /**
   * After any schedule the counters add up, the histories are the last 1000, and every call is
   * in flight or done, once.
   */
  lemma {:induction false} RunKeepsBooks(handlers: set<string>, steps: seq<Step>)
    ensures var b, begun, done := Run(handlers, steps), Begun(steps), Done(handlers, steps);
      && Reports(begun, done, b.commandHistory, b.resultHistory, b.total, b.successful, b.failed)
      && Accounted(begun, done, b.suspended)
      && b.total == b.successful + b.failed + |b.suspended|
  {
    if |steps| > 0 {
      var init, last := steps[..|steps| - 1], steps[|steps| - 1];
      RunKeepsBooks(handlers, init);
      StepReports(Run(handlers, init), last, Begun(init), Done(handlers, init));
      StepAccounted(Run(handlers, init), last, Begun(init), Done(handlers, init));
    }
  }

  // ----- The books in terms of the steps taken

  /** A handler for the kind is there from the start or registered by one of the steps. */
  ghost predicate Handled(handlers: set<string>, steps: seq<Step>, kind: string) {
    kind in handlers || exists i :: 0 <= i < |steps| && steps[i] == Register(kind)
  }

  lemma {:induction false} HandlersOf(handlers: set<string>, steps: seq<Step>, kind: string)
    ensures kind in Run(handlers, steps).handlers <==> Handled(handlers, steps, kind)
  {
    if |steps| > 0 {
      var init, last := steps[..|steps| - 1], steps[|steps| - 1];
      HandlersOf(handlers, init, kind);
      if Handled(handlers, steps, kind) && kind !in handlers {
        var i :| 0 <= i < |steps| && steps[i] == Register(kind);
        assert i == |init| || init[i] == Register(kind);
      }
      if Handled(handlers, init, kind) && kind !in handlers {
        var i :| 0 <= i < |init| && init[i] == Register(kind);
        assert steps[i] == Register(kind);
      }
      assert last == Register(kind) ==> steps[|steps| - 1] == Register(kind);
    }
  }

  /** Step s starts the call with that number, a handler is there for it, and no step since has finished it. */
  ghost predicate WaitsSince(handlers: set<string>, steps: seq<Step>, call: nat, s: nat) {
    && s < |steps| && steps[s].Start? && |Begun(steps[..s])| == call
    && Handled(handlers, steps[..s], steps[s].command.kind)
    && forall t :: s < t < |steps| ==> !(steps[t].Finish? && steps[t].call == call)
  }

  ghost predicate Waits(handlers: set<string>, steps: seq<Step>, call: nat) {
    exists s: nat :: WaitsSince(handlers, steps, call, s)
  }

  lemma {:induction false} WaitsAppend(handlers: set<string>, steps: seq<Step>, step: Step, call: nat)
    ensures Waits(handlers, steps + [step], call) <==>
        || (Waits(handlers, steps, call) && !(step.Finish? && step.call == call))
        || (step.Start? && |Begun(steps)| == call && Handled(handlers, steps, step.command.kind))
  {
    var longer := steps + [step];
    assert longer[..|steps|] == steps;
    forall s: nat | s < |steps|
      ensures WaitsSince(handlers, longer, call, s)
         <==> WaitsSince(handlers, steps, call, s) && !(step.Finish? && step.call == call)
    {
      assert longer[..s] == steps[..s] && longer[s] == steps[s];
      if WaitsSince(handlers, longer, call, s) {
        forall t | s < t < |steps| ensures !(steps[t].Finish? && steps[t].call == call) {
          assert longer[t] == steps[t];
        }
        assert longer[|steps|] == step;
      }
    }
    assert WaitsSince(handlers, longer, call, |steps|)
      <==> step.Start? && |Begun(steps)| == call && Handled(handlers, steps, step.command.kind);
  }

  /** The suspended calls are those that wait, by the steps alone. */
  lemma {:induction false} SuspendedWaits(handlers: set<string>, steps: seq<Step>, call: nat)
    ensures call in Run(handlers, steps).suspended <==> Waits(handlers, steps, call)
  {
    if |steps| > 0 {
      var init, last := steps[..|steps| - 1], steps[|steps| - 1];
      assert steps == init + [last];
      SuspendedWaits(handlers, init, call);
      WaitsAppend(handlers, init, last, call);
      RunKeepsBooks(handlers, init);
      if last.Start? { HandlersOf(handlers, init, last.command.kind); }
    }
  }

  /** The step ends a call well: the handler of a waiting call returned. */
  ghost predicate Succeeds(handlers: set<string>, before: seq<Step>, step: Step) {
    step.Finish? && step.outcome.Returned? && Waits(handlers, before, step.call)
  }

  /** The step ends a call badly: its handler raised, or there is none for it. */
  ghost predicate Fails(handlers: set<string>, before: seq<Step>, step: Step) {
    || (step.Finish? && step.outcome.Raised? && Waits(handlers, before, step.call))
    || (step.Start? && !Handled(handlers, before, step.command.kind))
  }

  /** How many steps of a run end a call well, or badly. */
  ghost function EndedWell(handlers: set<string>, steps: seq<Step>): nat {
    if |steps| == 0 then 0
    else
      var init := steps[..|steps| - 1];
      EndedWell(handlers, init) + if Succeeds(handlers, init, steps[|steps| - 1]) then 1 else 0
  }

  ghost function EndedBadly(handlers: set<string>, steps: seq<Step>): nat {
    if |steps| == 0 then 0
    else
      var init := steps[..|steps| - 1];
      EndedBadly(handlers, init) + if Fails(handlers, init, steps[|steps| - 1]) then 1 else 0
  }

  lemma {:induction false} OutcomeOfStep(handlers: set<string>, before: seq<Step>, step: Step)
    ensures var b := Run(handlers, before);
      && After(b, step).successful == b.successful + (if Succeeds(handlers, before, step) then 1 else 0)
      && After(b, step).failed == b.failed + (if Fails(handlers, before, step) then 1 else 0)
  {
    match step
    case Start(c) => HandlersOf(handlers, before, c.kind);
    case Finish(call, _) => SuspendedWaits(handlers, before, call);
    case Register(_) =>
  }

  /** `successful` counts the handlers that returned, `failed` those that raised and the calls without one. */
  lemma {:induction false} OutcomesCounted(handlers: set<string>, steps: seq<Step>)
    ensures Run(handlers, steps).successful == EndedWell(handlers, steps)
    ensures Run(handlers, steps).failed == EndedBadly(handlers, steps)
  {
    if |steps| > 0 {
      var init := steps[..|steps| - 1];
      OutcomesCounted(handlers, init);
      OutcomeOfStep(handlers, init, steps[|steps| - 1]);
    }
  }

  /** The i-th step is what completed a call with that result: what its handler returned, or why there is none. */
  ghost predicate CompletedBy(handlers: set<string>, steps: seq<Step>, i: nat, c: Completion) {
    && i < |steps| && c.call < |Begun(steps)| && c.result.id == Begun(steps)[c.call].id
    && match steps[i]
       case Finish(call, Returned(v)) =>
         call == c.call && Waits(handlers, steps[..i], call) && c.result.success && c.result.payload == v
       case Finish(call, Raised(e)) =>
         call == c.call && Waits(handlers, steps[..i], call) && !c.result.success && c.result.payload == e
       case Start(command) =>
         |Begun(steps[..i])| == c.call && !Handled(handlers, steps[..i], command.kind)
         && !c.result.success && c.result.payload == "No handler for command: " + command.kind
       case Register(_) => false
  }

  lemma {:induction false} BegunPrefix(steps: seq<Step>, step: Step)
    ensures Begun(steps) <= Begun(steps + [step])
    ensures step.Start? ==> Begun(steps + [step]) == Begun(steps) + [step.command]
  {
    assert (steps + [step])[..|steps|] == steps;
  }

  lemma {:induction false} CompletedByExtends(handlers: set<string>, steps: seq<Step>, step: Step, i: nat,
          c: Completion)
    requires CompletedBy(handlers, steps, i, c)
    ensures CompletedBy(handlers, steps + [step], i, c)
  {
    BegunPrefix(steps, step);
    assert (steps + [step])[..i] == steps[..i];
  }

  lemma {:induction false} CompletedNow(handlers: set<string>, before: seq<Step>, step: Step, c: Completion)
    requires c in Completes(Run(handlers, before), step)
    ensures CompletedBy(handlers, before + [step], |before|, c)
  {
    RunKeepsBooks(handlers, before);
    BegunPrefix(before, step);
    assert (before + [step])[..|before|] == before;
    match step
    case Start(command) => HandlersOf(handlers, before, command.kind);
    case Finish(call, _) => SuspendedWaits(handlers, before, call);
    case Register(_) =>
  }

  /** Every reported completion comes from one step, in the order of the steps, and says how that step ended it. */
  lemma {:induction false} ResultsTellOutcomes(handlers: set<string>, steps: seq<Step>) returns (at: seq<nat>)
    ensures |at| == |Done(handlers, steps)|
    ensures forall k :: 0 <= k < |at| ==> CompletedBy(handlers, steps, at[k], Done(handlers, steps)[k])
    ensures forall k, l :: 0 <= k < l < |at| ==> at[k] < at[l]
  {
    at := [];
    if |steps| > 0 {
      var init, last := steps[..|steps| - 1], steps[|steps| - 1];
      assert steps == init + [last];
      at := ResultsTellOutcomes(handlers, init);
      var done, more := Done(handlers, init), Completes(Run(handlers, init), last);
      forall k | 0 <= k < |at| ensures CompletedBy(handlers, steps, at[k], done[k]) {
        CompletedByExtends(handlers, init, last, at[k], done[k]);
      }
      if |more| > 0 {
        CompletedNow(handlers, init, last, more[0]);
        at := at + [|init|];
      }
    }
  }

  /** The histories are cut to their last thousand entries, and hold everything before that. */
  lemma {:induction false} HistoriesHoldThousand(handlers: set<string>, steps: seq<Step>)
    ensures var b, begun, done := Run(handlers, steps), Begun(steps), Done(handlers, steps);
      && b.commandHistory == (if |begun| <= 1000 then begun else begun[|begun| - 1000..])
      && b.resultHistory == (if |done| <= 1000 then Results(done) else Results(done)[|done| - 1000..])
  {
    RunKeepsBooks(handlers, steps);
  }

  /** When the ids handed out are distinct, so are the ids of the results. */
  lemma {:induction false} ResultIdsUnique(handlers: set<string>, steps: seq<Step>, i: nat, j: nat)
    requires i < j < |Done(handlers, steps)|
    requires forall k, l :: 0 <= k < l < |Begun(steps)| ==> Begun(steps)[k].id != Begun(steps)[l].id
    ensures Done(handlers, steps)[i].result.id != Done(handlers, steps)[j].result.id
  {
    RunKeepsBooks(handlers, steps);
    var begun, done := Begun(steps), Done(handlers, steps);
    assert OncePerCall(begun, done);
    assert begun[done[i].call].id != begun[done[j].call].id;
  }

  ghost predicate OnlyCompletion(done: seq<Completion>, call: nat, i: nat) {
    i < |done| && done[i].call == call && forall j :: 0 <= j < |done| && done[j].call == call ==> j == i
  }

  /** Once nothing is in flight, every call has exactly one completion and the outcome counters cover all calls. */
  lemma {:induction false} QuietBus(handlers: set<string>, steps: seq<Step>, call: nat)
    requires |Run(handlers, steps).suspended| == 0 && call < |Begun(steps)|
    ensures Run(handlers, steps).total == Run(handlers, steps).successful + Run(handlers, steps).failed
    ensures exists i: nat :: OnlyCompletion(Done(handlers, steps), call, i)
  {
    RunKeepsBooks(handlers, steps);
    var done := Done(handlers, steps);
    assert Run(handlers, steps).suspended.Keys == {};
    assert IsDone(done, call);
    var i :| 0 <= i < |done| && done[i].call == call;
    assert OncePerCall(Begun(steps), done);
    assert OnlyCompletion(done, call, i);
  }

  /** A handler registered while a call is suspended does not change how that call ends. */
  lemma {:induction false} LateRegistration(b: Bus, kind: string, call: nat, outcome: Outcome)
    ensures After(After(b, Register(kind)), Finish(call, outcome))
         == After(After(b, Finish(call, outcome)), Register(kind))
  {}

  /** Completions of different calls commute up to the order in which their results are reported. */
  lemma {:induction false} CompletionsCommute(b: Bus, i: nat, j: nat, p: Outcome, q: Outcome)
    requires i != j && i in b.suspended && j in b.suspended
    ensures var x, y := After(After(b, Finish(i, p)), Finish(j, q)), After(After(b, Finish(j, q)), Finish(i, p));
      x.(resultHistory := []) == y.(resultHistory := [])
  {
    assert b.suspended - {i} - {j} == b.suspended - {j} - {i};
  }
}
