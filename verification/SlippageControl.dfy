/**
 * The slippage controller: per-symbol windows of measurements, a status derived from the most
 * recent ones, and a pause with a cooldown. The clock is an input.
 */
module SlippageControl {
  import opened Options
  import opened RealSeq
  import opened Sequences

  datatype Status = Normal | Elevated | High | Critical

  datatype Measurement = Measurement(time: real, slippagePct: real, slippageBps: real, orderSize: real)

  datatype ControlResult = ControlResult(
    status: Status,
    currentBps: real,
    avgBps: real,
    maxBps: real,
    shouldPause: bool,
    shouldReduce: bool,
    recommendedPct: real)

  datatype Settings = Settings(
    warning: real,
    high: real,
    critical: real,
    historySize: nat,
    cooldown: real,
    reduction: real)

  /** The retained measurements of each symbol. */
  type Windows = map<string, seq<Measurement>>

  // ----- Readings of a window

  function Bps(w: seq<Measurement>): (r: seq<real>)
    ensures |r| == |w| && forall i :: 0 <= i < |r| ==> r[i] == w[i].slippageBps
  {
    seq(|w|, i requires 0 <= i < |w| => w[i].slippageBps)
  }

  function Mean(s: seq<real>): real
    requires |s| > 0
  {
    Sum(s) / |s| as real
  }

  function Largest(s: seq<real>): real
    requires |s| > 0
  {
    if |s| == 1 then s[0] else Max(Largest(s[..|s| - 1]), s[|s| - 1])
  }

  function DetermineStatus(c: Settings, current: real, avg: real): Status {
    if current >= c.critical then Critical
    else if current >= c.high || avg >= c.high then High
    else if current >= c.warning || avg >= c.warning then Elevated
    else Normal
  }

  function RecommendedSize(c: Settings, status: Status): real {
    match status
    case Normal => 1.0
    case Elevated => 0.8
    case High => c.reduction
    case Critical => c.reduction * 0.5
  }

  /** The status a symbol's window gives; an empty one is normal. */
  function StatusOf(c: Settings, window: seq<Measurement>): Status {
    var recent := Bps(Last(window, 20));
    if |recent| == 0 then Normal else DetermineStatus(c, recent[|recent| - 1], Mean(recent))
  }

  /** The three readings reported with a status: latest, mean and largest of the last twenty, or zeros. */
  ghost predicate ReadsWindow(r: ControlResult, window: seq<Measurement>) {
    var recent := Bps(Last(window, 20));
    if |recent| == 0 then r.currentBps == r.avgBps == r.maxBps == 0.0
    else
      && r.currentBps == recent[|recent| - 1]
      && r.avgBps * |recent| as real == Sum(recent)
      && r.maxBps in recent && forall i :: 0 <= i < |recent| ==> recent[i] <= r.maxBps
  }

  /** The result of a check on a non-empty window. */
  function Reading(c: Settings, window: seq<Measurement>, pause: bool): (r: ControlResult)
    requires |window| > 0
    ensures r.status == StatusOf(c, window) && r.shouldPause == pause && ReadsWindow(r, window)
  {
    var recent := Bps(Last(window, 20));
    var current, avg, max := recent[|recent| - 1], Mean(recent), Largest(recent);
    var status := DetermineStatus(c, current, avg);
    LargestIsMax(recent);
    ControlResult(status, current, avg, max, pause, status == High || status == Critical, RecommendedSize(c, status))
  }

  /** The status in terms of the reported readings: the latest one alone makes it critical. */
  lemma {:induction false} StatusByReadings(c: Settings, window: seq<Measurement>, r: ControlResult)
    requires |window| > 0 && r.status == StatusOf(c, window) && ReadsWindow(r, window)
    ensures var now, mean := r.currentBps, r.avgBps;
      && (r.status == Critical <==> now >= c.critical)
      && (r.status == High <==> now < c.critical && (now >= c.high || mean >= c.high))
      && (r.status == Elevated <==> now < c.critical && now < c.high && mean < c.high
                                    && (now >= c.warning || mean >= c.warning))
      && (r.status == Normal <==> now < c.critical && now < c.high && mean < c.high
                                  && now < c.warning && mean < c.warning)
  {
    var recent := Bps(Last(window, 20));
    QuotientIs(Sum(recent), |recent| as real, r.avgBps);
  }

  lemma {:induction false} RecentIs(window: seq<Measurement>)
    ensures Last(window, 20) == window[if |window| < 20 then 0 else |window| - 20..]
  {}

  /** The reported mean is that of the last twenty measurements, or of all if there are fewer. */
  lemma {:induction false} MeanOfTwenty(window: seq<Measurement>, r: ControlResult)
    requires |window| > 0 && ReadsWindow(r, window)
    ensures |window| >= 20 ==> r.avgBps * 20.0 == Sum(Bps(window[|window| - 20..]))
    ensures |window| < 20 ==> r.avgBps * |window| as real == Sum(Bps(window))
  {
    RecentIs(window);
  }

  /** The other two readings are the latest of all and the largest of the last twenty. */
  lemma {:induction false} LatestAndLargest(window: seq<Measurement>, r: ControlResult)
    requires |window| > 0 && ReadsWindow(r, window)
    ensures r.currentBps == window[|window| - 1].slippageBps
    ensures forall i :: 0 <= i < |window| && i >= |window| - 20 ==> window[i].slippageBps <= r.maxBps
    ensures exists i :: 0 <= i < |window| && i >= |window| - 20 && window[i].slippageBps == r.maxBps
  {
    RecentIs(window);
    var start := if |window| < 20 then 0 else |window| - 20;
    var recent := Bps(window[start..]);
    forall i | start <= i < |window| ensures window[i].slippageBps == recent[i - start] {}
    var j :| 0 <= j < |recent| && recent[j] == r.maxBps;
    assert window[start + j].slippageBps == r.maxBps;
  }

  /** What each status recommends; a critical one half of what a high one does. */
  lemma {:induction false} SizeByStatus(c: Settings)
    ensures RecommendedSize(c, Normal) == 1.0 && RecommendedSize(c, Elevated) == 0.8
    ensures RecommendedSize(c, High) == c.reduction && 2.0 * RecommendedSize(c, Critical) == c.reduction
  {}

  lemma {:induction false} LargestIsMax(s: seq<real>)
    requires |s| > 0
    ensures Largest(s) in s && forall i :: 0 <= i < |s| ==> s[i] <= Largest(s)
  {
    if |s| > 1 {
      LargestIsMax(s[..|s| - 1]);
      assert s == s[..|s| - 1] + [s[|s| - 1]];
    }
  }

  /** Only the last twenty measurements, or the whole window if it is shorter, decide the status. */
  lemma {:induction false} StatusFromRecent(c: Settings, all: seq<Measurement>)
    ensures StatusOf(c, Last(all, c.historySize))
         == StatusOf(c, Last(all, if c.historySize <= 20 then c.historySize else 20))
  {
    LastLast(all, 20, c.historySize);
    LastLast(all, 20, if c.historySize <= 20 then c.historySize else 20);
  }

  /** The relative and absolute slippage of one fill. */
  function Measured(expected: real, actual: real, orderSize: real, now: real): (m: Measurement)
    requires expected != 0.0
    ensures m.slippagePct * expected == actual - expected && m.time == now && m.orderSize == orderSize
    ensures m.slippageBps >= 0.0
    ensures m.slippageBps == m.slippagePct * 10000.0 || m.slippageBps == -m.slippagePct * 10000.0
  {
    var pct := (actual - expected) / expected;
    Measurement(now, pct, (if pct >= 0.0 then pct else -pct) * 10000.0, orderSize)
  }

  // ----- The history of a controller

  datatype Event =
    | Recorded(symbol: string, measurement: Measurement)
    | Checked(symbol: string, now: real, status: Status)

  function TimeOf(e: Event): real {
    match e
    case Recorded(_, m) => m.time
    case Checked(_, now, _) => now
  }

  /** Everything recorded for a symbol, in order. */
  function RecordedFor(log: seq<Event>, symbol: string): seq<Measurement> {
    if |log| == 0 then []
    else
      var e := log[|log| - 1];
      RecordedFor(log[..|log| - 1], symbol)
      + if e.Recorded? && e.symbol == symbol then [e.measurement] else []
  }

  predicate CriticalAt(log: seq<Event>, symbol: string, i: nat) {
    i < |log| && log[i].Checked? && log[i].symbol == symbol && log[i].status == Critical
  }

  /** An earlier critical check of the symbol is less than a cooldown ago. */
  ghost predicate CoolingDown(c: Settings, log: seq<Event>, symbol: string, now: real) {
    exists i: nat :: CriticalAt(log, symbol, i) && now < log[i].now + c.cooldown
  }

  lemma {:induction false} RecordedForAppend(log: seq<Event>, e: Event, symbol: string)
    ensures RecordedFor(log + [e], symbol)
         == RecordedFor(log, symbol) + if e.Recorded? && e.symbol == symbol then [e.measurement] else []
  {
    assert (log + [e])[..|log|] == log;
  }

  lemma {:induction false} CriticalAtAppend(log: seq<Event>, e: Event, symbol: string, i: nat)
    ensures CriticalAt(log + [e], symbol, i) <==>
        CriticalAt(log, symbol, i) || (i == |log| && e.Checked? && e.symbol == symbol && e.status == Critical)
    ensures CriticalAt(log, symbol, i) ==> (log + [e])[i] == log[i]
  {}

  /** What the retained window of a symbol is, in terms of the history. */
  ghost predicate WindowIs(c: Settings, log: seq<Event>, symbol: string, window: seq<Measurement>) {
    window == Last(RecordedFor(log, symbol), c.historySize)
  }

  /** The pause entry of a symbol covers every critical check that has not cooled down by `clock`. */
  ghost predicate PauseCovers(c: Settings, log: seq<Event>, symbol: string, until: Option<real>, clock: real) {
    && (forall i: nat :: CriticalAt(log, symbol, i) ==>
          log[i].now + c.cooldown <= clock || (until.Some? && log[i].now + c.cooldown <= until.value))
    && (until.Some? ==> exists i: nat :: CriticalAt(log, symbol, i) && until.value == log[i].now + c.cooldown)
    && (forall i: nat :: CriticalAt(log, symbol, i) ==> |RecordedFor(log, symbol)| > 0)
  }

  lemma {:induction false} PauseAnswers(c: Settings, log: seq<Event>, symbol: string, until: Option<real>,
          clock: real, now: real)
    requires PauseCovers(c, log, symbol, until, clock) && clock <= now
    ensures CoolingDown(c, log, symbol, now) <==> until.Some? && now < until.value
  {
    if until.Some? && now < until.value {
      var i: nat :| CriticalAt(log, symbol, i) && until.value == log[i].now + c.cooldown;
    }
  }

  /** Any event but a critical check of the symbol keeps a covering entry, and an expired one may be dropped. */
  lemma {:induction false} PauseKept(c: Settings, log: seq<Event>, symbol: string, until: Option<real>, clock: real,
          e: Event)
    requires PauseCovers(c, log, symbol, until, clock) && clock <= TimeOf(e)
    requires !(e.Checked? && e.symbol == symbol && e.status == Critical)
    ensures PauseCovers(c, log + [e], symbol, until, TimeOf(e))
    ensures until.Some? && until.value <= TimeOf(e) ==> PauseCovers(c, log + [e], symbol, None, TimeOf(e))
  {
    forall i: nat ensures CriticalAt(log + [e], symbol, i) <==> CriticalAt(log, symbol, i) {
      CriticalAtAppend(log, e, symbol, i);
    }
    RecordedForAppend(log, e, symbol);
    if until.Some? {
      var i: nat :| CriticalAt(log, symbol, i) && until.value == log[i].now + c.cooldown;
      assert CriticalAt(log + [e], symbol, i);
    }
  }

  lemma {:induction false} PauseSet(c: Settings, log: seq<Event>, symbol: string, until: Option<real>, clock: real,
          now: real)
    requires PauseCovers(c, log, symbol, until, clock) && clock <= now
    requires forall i :: 0 <= i < |log| ==> TimeOf(log[i]) <= clock
    requires |RecordedFor(log, symbol)| > 0
    ensures PauseCovers(c, log + [Checked(symbol, now, Critical)], symbol, Some(now + c.cooldown), now)
  {
    var e := Checked(symbol, now, Critical);
    RecordedForAppend(log, e, symbol);
    forall i: nat | CriticalAt(log + [e], symbol, i) ensures (log + [e])[i].now <= now {
      CriticalAtAppend(log, e, symbol, i);
    }
    assert CriticalAt(log + [e], symbol, |log|);
  }

  function WindowOf(history: Windows, symbol: string): seq<Measurement> {
    if symbol in history then history[symbol] else []
  }

  function UntilOf(pauseUntil: map<string, real>, symbol: string): Option<real> {
    if symbol in pauseUntil then Some(pauseUntil[symbol]) else None
  }

  /** The two dictionaries say, for every symbol, what the history does. */
  ghost predicate Consistent(c: Settings, log: seq<Event>, clock: real, history: Windows,
          pauseUntil: map<string, real>)
  {
    && c.historySize >= 1
    && (forall i :: 0 <= i < |log| ==> TimeOf(log[i]) <= clock)
    && (forall s: string :: WindowIs(c, log, s, WindowOf(history, s)))
    && (forall s: string :: PauseCovers(c, log, s, UntilOf(pauseUntil, s), clock))
  }

  lemma {:induction false} RecordedWindow(c: Settings, log: seq<Event>, symbol: string, m: Measurement, s: string,
          window: seq<Measurement>)
    requires c.historySize >= 1 && WindowIs(c, log, s, window)
    ensures WindowIs(c, log + [Recorded(symbol, m)], s,
                     if s == symbol then Last(window + [m], c.historySize) else window)
  {
    RecordedForAppend(log, Recorded(symbol, m), s);
    LastAppend(RecordedFor(log, s), c.historySize, m);
    assert RecordedFor(log, s) + [] == RecordedFor(log, s);
  }

  lemma {:induction false} RecordKeeps(c: Settings, log: seq<Event>, clock: real, history: Windows,
          pauseUntil: map<string, real>, symbol: string, m: Measurement)
    requires Consistent(c, log, clock, history, pauseUntil) && clock <= m.time
    ensures Consistent(c, log + [Recorded(symbol, m)], m.time,
                       history[symbol := Last(WindowOf(history, symbol) + [m], c.historySize)], pauseUntil)
  {
    var e := Recorded(symbol, m);
    var after := history[symbol := Last(WindowOf(history, symbol) + [m], c.historySize)];
    forall s: string ensures WindowIs(c, log + [e], s, WindowOf(after, s)) {
      RecordedWindow(c, log, symbol, m, s, WindowOf(history, s));
    }
    forall s: string ensures PauseCovers(c, log + [e], s, UntilOf(pauseUntil, s), m.time) {
      PauseKept(c, log, s, UntilOf(pauseUntil, s), clock, e);
    }
  }

  lemma {:induction false} CheckKeepsWindows(c: Settings, log: seq<Event>, clock: real, history: Windows,
          pauseUntil: map<string, real>, e: Event, s: string)
    requires Consistent(c, log, clock, history, pauseUntil) && e.Checked?
    ensures WindowIs(c, log + [e], s, WindowOf(history, s))
  {
    assert WindowIs(c, log, s, WindowOf(history, s));
    RecordedForAppend(log, e, s);
    assert RecordedFor(log, s) + [] == RecordedFor(log, s);
  }

  /** The pause entries after a check: set by a critical one, dropped by a later one once expired. */
  function PauseAfter(c: Settings, pauseUntil: map<string, real>, symbol: string, now: real,
          status: Status): map<string, real>
  {
    if status == Critical then pauseUntil[symbol := now + c.cooldown]
    else if symbol in pauseUntil && pauseUntil[symbol] <= now then pauseUntil - {symbol}
    else pauseUntil
  }

  lemma {:induction false} CheckCovers(c: Settings, log: seq<Event>, clock: real, pauseUntil: map<string, real>,
          symbol: string, now: real, status: Status, s: string)
    requires PauseCovers(c, log, s, UntilOf(pauseUntil, s), clock) && clock <= now
    requires forall i :: 0 <= i < |log| ==> TimeOf(log[i]) <= clock
    requires |RecordedFor(log, symbol)| > 0 || status != Critical
    ensures PauseCovers(c, log + [Checked(symbol, now, status)], s,
                        UntilOf(PauseAfter(c, pauseUntil, symbol, now, status), s), now)
  {
    if s == symbol && status == Critical {
      PauseSet(c, log, s, UntilOf(pauseUntil, s), clock, now);
    } else {
      PauseKept(c, log, s, UntilOf(pauseUntil, s), clock, Checked(symbol, now, status));
    }
  }

  lemma {:induction false} CheckKeeps(c: Settings, log: seq<Event>, clock: real, history: Windows,
          pauseUntil: map<string, real>, symbol: string, now: real, status: Status)
    requires Consistent(c, log, clock, history, pauseUntil) && clock <= now
    requires |WindowOf(history, symbol)| > 0 || status != Critical
    ensures Consistent(c, log + [Checked(symbol, now, status)], now, history,
                       PauseAfter(c, pauseUntil, symbol, now, status))
  {
    var e, after := Checked(symbol, now, status), PauseAfter(c, pauseUntil, symbol, now, status);
    assert WindowIs(c, log, symbol, WindowOf(history, symbol));
    forall s: string
      ensures WindowIs(c, log + [e], s, WindowOf(history, s)) && PauseCovers(c, log + [e], s, UntilOf(after, s), now)
    {
      CheckKeepsWindows(c, log, clock, history, pauseUntil, e, s);
      CheckCovers(c, log, clock, pauseUntil, symbol, now, status, s);
    }
  }

  lemma {:induction false} CoolingDownIsPending(c: Settings, log: seq<Event>, clock: real, history: Windows,
          pauseUntil: map<string, real>, symbol: string, now: real)
    requires Consistent(c, log, clock, history, pauseUntil) && clock <= now
    ensures CoolingDown(c, log, symbol, now) <==> symbol in pauseUntil && now < pauseUntil[symbol]
  {
    PauseAnswers(c, log, symbol, UntilOf(pauseUntil, symbol), clock, now);
  }

  /** Before anything was recorded for a symbol it cannot be cooling down. */
  lemma {:induction false} NoHistoryNoPause(c: Settings, log: seq<Event>, clock: real, history: Windows,
          pauseUntil: map<string, real>, symbol: string, now: real)
    requires Consistent(c, log, clock, history, pauseUntil) && |WindowOf(history, symbol)| == 0
    ensures !CoolingDown(c, log, symbol, now) && symbol !in pauseUntil
  {
    assert WindowIs(c, log, symbol, WindowOf(history, symbol));
    assert PauseCovers(c, log, symbol, UntilOf(pauseUntil, symbol), clock);
  }

  class SlippageController {
    const settings: Settings
    var history: Windows
    var pauseUntil: map<string, real>
    ghost var log: seq<Event>
    ghost var clock: real

    ghost predicate Valid()
      reads this
    {
      Consistent(settings, log, clock, history, pauseUntil)
    }

    constructor (settings: Settings, start: real)
      requires settings.historySize >= 1
      ensures Valid() && this.settings == settings && log == [] && clock == start
    {
      this.settings := settings;
      history, pauseUntil := map[], map[];
      log, clock := [], start;
    }

    method Record(symbol: string, expected: real, actual: real, orderSize: real, now: real) returns (m: Measurement)
      requires Valid() && clock <= now && expected != 0.0
      modifies this`history, this`log, this`clock
      ensures Valid() && log == old(log) + [Recorded(symbol, m)] && clock == now
      ensures m == Measured(expected, actual, orderSize, now)
    {
      m := Measured(expected, actual, orderSize, now);
      RecordKeeps(settings, log, clock, history, pauseUntil, symbol, m);
      ghost var after := history[symbol := Last(WindowOf(history, symbol) + [m], settings.historySize)];
      if symbol !in history {
        history := history[symbol := []];
      }
      history := history[symbol := history[symbol] + [m]];
      if |history[symbol]| > settings.historySize {
        history := history[symbol := Last(history[symbol], settings.historySize)];
      }
      assert history == after;
      log, clock := log + [Recorded(symbol, m)], now;
    }

    method Check(symbol: string, now: real) returns (r: ControlResult)
      requires Valid() && clock <= now
      modifies this`pauseUntil, this`log, this`clock
      ensures Valid() && log == old(log) + [Checked(symbol, now, r.status)] && clock == now
      ensures r.status == StatusOf(settings, Last(RecordedFor(old(log), symbol), settings.historySize))
      ensures r.shouldPause <==>
          || r.status == Critical
          || exists i: nat :: CriticalAt(old(log), symbol, i) && now < old(log)[i].now + settings.cooldown
      ensures r.shouldReduce <==> r.status == High || r.status == Critical
      ensures r.recommendedPct == RecommendedSize(settings, r.status)
      ensures ReadsWindow(r, Last(RecordedFor(old(log), symbol), settings.historySize))
      ensures RecordedFor(old(log), symbol) != [] ==>
          && (r.status == Critical <==> r.currentBps >= settings.critical)
          && (r.status == High <==>
                r.currentBps < settings.critical && (r.currentBps >= settings.high || r.avgBps >= settings.high))
    {
      var window := WindowOf(history, symbol);
      assert WindowIs(settings, log, symbol, window);
      if |window| == 0 {
        NoHistoryNoPause(settings, log, clock, history, pauseUntil, symbol, now);
        CheckKeeps(settings, log, clock, history, pauseUntil, symbol, now, Normal);
        log, clock := log + [Checked(symbol, now, Normal)], now;
        return ControlResult(Normal, 0.0, 0.0, 0.0, false, false, 1.0);
      }
      var status := StatusOf(settings, window);
      var pause := ShouldPause(symbol, status, now);
      r := Reading(settings, window, pause);
      StatusByReadings(settings, window, r);
    }

    method ShouldPause(symbol: string, status: Status, now: real) returns (pause: bool)
      requires Valid() && clock <= now && |WindowOf(history, symbol)| > 0
      modifies this`pauseUntil, this`log, this`clock
      ensures Valid() && log == old(log) + [Checked(symbol, now, status)] && clock == now
      ensures pause <==> status == Critical || CoolingDown(settings, old(log), symbol, now)
    {
      CoolingDownIsPending(settings, log, clock, history, pauseUntil, symbol, now);
      CheckKeeps(settings, log, clock, history, pauseUntil, symbol, now, status);
      log, clock := log + [Checked(symbol, now, status)], now;
      if status == Critical {
        pauseUntil := pauseUntil[symbol := now + settings.cooldown];
        return true;
      }
      if symbol in pauseUntil {
        if now < pauseUntil[symbol] {
          return true;
        } else {
          pauseUntil := pauseUntil - {symbol};
        }
      }
      return false;
    }
  }

  // ----- Whole runs

  datatype Request =
    | RecordRequest(symbol: string, expected: real, actual: real, orderSize: real, now: real)
    | CheckRequest(symbol: string, now: real)

  /** The times of a run never go back, and no expected price is zero. */
  predicate RunnableFrom(requests: seq<Request>, start: real) {
    && (forall i :: 0 <= i < |requests| ==> requests[i].now >= start)
    && (forall i, j :: 0 <= i < j < |requests| ==> requests[i].now <= requests[j].now)
    && forall i :: 0 <= i < |requests| && requests[i].RecordRequest? ==> requests[i].expected != 0.0
  }

  /** What a request and its answer add to the history. */
  function EventOf(q: Request, a: Option<ControlResult>): Event
    requires q.RecordRequest? ==> q.expected != 0.0
    requires q.CheckRequest? ==> a.Some?
  {
    match q
    case RecordRequest(s, expected, actual, size, now) => Recorded(s, Measured(expected, actual, size, now))
    case CheckRequest(s, now) => Checked(s, now, a.value.status)
  }

  /** What the controller answers to a request, given the history before it. */
  ghost predicate Answered(c: Settings, log: seq<Event>, q: Request, a: Option<ControlResult>) {
    match q
    case RecordRequest(_, expected, _, _, _) => a == None && expected != 0.0
    case CheckRequest(s, now) =>
      && a.Some?
      && a.value.status == StatusOf(c, Last(RecordedFor(log, s), c.historySize))
      && ReadsWindow(a.value, Last(RecordedFor(log, s), c.historySize))
      && a.value.recommendedPct == RecommendedSize(c, a.value.status)
      && (a.value.shouldPause <==> a.value.status == Critical || CoolingDown(c, log, s, now))
  }

  method Serve(controller: SlippageController, q: Request) returns (a: Option<ControlResult>)
    requires controller.Valid() && controller.clock <= q.now && (q.RecordRequest? ==> q.expected != 0.0)
    modifies controller
    ensures controller.Valid() && controller.clock == q.now
    ensures Answered(controller.settings, old(controller.log), q, a)
    ensures controller.log == old(controller.log) + [EventOf(q, a)]
  {
    match q {
      case RecordRequest(s, expected, actual, size, now) =>
        var _ := controller.Record(s, expected, actual, size, now);
        a := None;
      case CheckRequest(s, now) =>
        var r := controller.Check(s, now);
        a := Some(r);
    }
  }

  /** Each answer is the one determined by the requests before it and the answers to them. */
  ghost predicate AllAnswered(c: Settings, requests: seq<Request>, answers: seq<Option<ControlResult>>)
    decreases |requests|, 0
  {
    |requests| == |answers| &&
    if |requests| == 0 then true
    else
      var n := |requests| - 1;
      && AllAnswered(c, requests[..n], answers[..n])
      && Answered(c, LogOf(c, requests[..n], answers[..n]), requests[n], answers[n])
  }

  /** The history a run leaves. */
  ghost function LogOf(c: Settings, requests: seq<Request>, answers: seq<Option<ControlResult>>): seq<Event>
    requires AllAnswered(c, requests, answers)
    decreases |requests|, 1
  {
    if |requests| == 0 then []
    else
      var n := |requests| - 1;
      LogOf(c, requests[..n], answers[..n]) + [EventOf(requests[n], answers[n])]
  }

  /** Every answer to a check, in terms of the readings it reports and of the critical checks before it. */
  lemma {:induction false} AnswerByReadings(c: Settings, log: seq<Event>, s: string, now: real, r: ControlResult)
    requires c.historySize >= 1 && Answered(c, log, CheckRequest(s, now), Some(r)) && RecordedFor(log, s) != []
    ensures r.status == Critical <==> r.currentBps >= c.critical
    ensures r.status == High <==> r.currentBps < c.critical && (r.currentBps >= c.high || r.avgBps >= c.high)
    ensures r.shouldPause <==>
        || r.currentBps >= c.critical
        || exists i: nat :: CriticalAt(log, s, i) && now < log[i].now + c.cooldown
    ensures r.status == Critical ==> 2.0 * r.recommendedPct == c.reduction
    ensures r.status == Normal ==> r.recommendedPct == 1.0
  {
    StatusByReadings(c, Last(RecordedFor(log, s), c.historySize), r);
    SizeByStatus(c);
  }

  /** Over every interleaving of records and checks of all symbols, a check pauses exactly by the history. */
  method Replay(c: Settings, requests: seq<Request>, start: real) returns (answers: seq<Option<ControlResult>>)
    requires c.historySize >= 1 && RunnableFrom(requests, start)
    ensures AllAnswered(c, requests, answers)
  {
    var controller := new SlippageController(c, start);
    answers := [];
    for i := 0 to |requests|
      invariant fresh(controller) && controller.Valid() && controller.settings == c
      invariant controller.clock == if i == 0 then start else requests[i - 1].now
      invariant |answers| == i && AllAnswered(c, requests[..i], answers)
      invariant controller.log == LogOf(c, requests[..i], answers)
    {
      var a := Serve(controller, requests[i]);
      assert requests[..i + 1][..i] == requests[..i] && (answers + [a])[..i] == answers;
      answers := answers + [a];
    }
    assert requests[..|requests|] == requests;
  }

  // ----- The recommended size

  function Severity(s: Status): nat {
    match s
    case Normal => 0
    case Elevated => 1
    case High => 2
    case Critical => 3
  }

  /** With ordered thresholds the status only worsens as either reading grows. */
  lemma {:induction false} StatusMonotone(c: Settings, current: real, avg: real, current': real, avg': real)
    requires current <= current' && avg <= avg'
    ensures Severity(DetermineStatus(c, current, avg)) <= Severity(DetermineStatus(c, current', avg'))
  {}

  /** A worse status recommends no larger size exactly when the reduction factor lies in [0, 0.8]. */
  lemma {:induction false} SizeShrinks(c: Settings)
    ensures (forall s, t :: Severity(s) <= Severity(t) ==> RecommendedSize(c, s) >= RecommendedSize(c, t))
       <==> 0.0 <= c.reduction <= 0.8
  {
    assert Severity(Elevated) <= Severity(High) && Severity(High) <= Severity(Critical);
  }
}
