/** The standalone server's graceful shutdown: signals, the drain deadline, the
    close callback, the cleanup and its timer, in any interleaving.

    Assumed of the environment, and built into `Enabled`: `server.close` calls back
    at most once and never from inside `closeAllConnections()`; a timer fires only
    while it is armed and due; the cleanup's promise settles at most once. */
module Shutdown {
  import opened Text

  const DEFAULT_DRAIN_TIMEOUT_MS: nat := 10_000

  datatype Options = Options(hasCleanup: bool, drainTimeoutMs: Option<nat>, cleanupTimeoutMs: Option<nat>)

  datatype Config = Config(hasCleanup: bool, drainTimeoutMs: nat, cleanupTimeoutMs: nat)

  /** The defaults of the options: the cleanup's budget defaults to the drain's. */
  function Resolve(options: Options): Config {
    var drain := options.drainTimeoutMs.GetOr(DEFAULT_DRAIN_TIMEOUT_MS);
    Config(options.hasCleanup, drain, options.cleanupTimeoutMs.GetOr(drain))
  }

  datatype Timer = Unset | Armed(due: nat) | Cleared | Fired

  datatype CloseCall = NotCalled | Waiting | CalledBack

  datatype CleanupCall = NotStarted | Pending | Settled

  /** The values `reason` and `drain` of the completion line can take: "drained",
      "close-failed", "drain-timeout", "cleanup-failed" and "cleanup-timeout". */
  datatype Reason = Unsaid | Drained | CloseFailure | DrainTimeout | CleanupFailure | CleanupTimeout

  datatype Line =
    | Draining
    | DeadlineExceeded
    | CloseFailedLine
    | CleanupTimedOutLine
    | CleanupFailedLine
    | Complete(reason: Reason, drain: Reason, exitCode: nat)

  /** Everything the shutdown's closures hold, the calls they made, and the clock.
      `signalledAt` is history: when the first signal was handled. */
  datatype State = State(
    now: nat,
    signalledAt: Option<nat>,
    shuttingDown: bool,
    finished: bool,
    exitCode: nat,
    outcome: Reason,
    drain: Reason,
    deadline: Timer,
    close: CloseCall,
    connectionsCut: bool,
    cleanup: CleanupCall,
    cleanupCalls: nat,
    cleanupTimer: Timer,
    awaiting: bool,
    log: seq<Line>,
    exits: seq<nat>)

  const INITIAL: State :=
    State(0, None, false, false, 0, Unsaid, Unsaid, Unset, NotCalled, false, NotStarted, 0, Unset, false, [], [])

  datatype Event =
    | Signal
    | Deadline
    | Closed(closeFailed: bool)
    | CleanupSettles(cleanupFailed: bool)
    | CleanupTimerFires
    | Tick(ms: nat)

  predicate Enabled(s: State, e: Event) {
    match e
    case Signal => true
    case Deadline => s.deadline.Armed? && s.deadline.due <= s.now
    case Closed(_) => s.close.Waiting?
    case CleanupSettles(_) => s.cleanup.Pending?
    case CleanupTimerFires => s.cleanupTimer.Armed? && s.cleanupTimer.due <= s.now
    case Tick(_) => true
  }

  // --- the closures, one function a callback ---------------------------------

  function Handle(c: Config, s: State): State {
    if s.shuttingDown then s
    else s.(shuttingDown := true,
            signalledAt := Some(s.now),
            log := s.log + [Draining],
            deadline := Armed(s.now + c.drainTimeoutMs),
            close := Waiting)
  }

  function ReportCompletion(s: State): State {
    s.(awaiting := false,
       log := s.log + [Complete(s.outcome, s.drain, s.exitCode)],
       exits := s.exits + [s.exitCode])
  }

  function Decide(s: State, code: nat, reason: Reason): State {
    s.(finished := true, exitCode := code, outcome := reason, drain := reason)
  }

  function BeginCleanup(c: Config, s: State): State {
    s.(cleanup := Pending,
       cleanupCalls := s.cleanupCalls + 1,
       cleanupTimer := Armed(s.now + c.cleanupTimeoutMs),
       awaiting := true)
  }

  function Finish(c: Config, s: State, code: nat, reason: Reason): State {
    if s.finished then s
    else if c.hasCleanup then BeginCleanup(c, Decide(s, code, reason))
    else ReportCompletion(Decide(s, code, reason))
  }

  function DeadlineExpires(c: Config, s: State): State {
    Finish(c, s.(deadline := Fired, log := s.log + [DeadlineExceeded], connectionsCut := true), 1, DrainTimeout)
  }

  function CloseCallsBack(c: Config, s: State, closeFailed: bool): State {
    var s1 := s.(close := CalledBack, deadline := if s.deadline.Armed? then Cleared else s.deadline);
    if closeFailed then Finish(c, s1.(log := s1.log + [CloseFailedLine]), 1, CloseFailure)
    else Finish(c, s1, 0, Drained)
  }

  function CleanupEnds(s: State, cleanupFailed: bool): State {
    var s1 := s.(cleanup := Settled);
    if !s1.awaiting then s1
    else
      var s2 := s1.(cleanupTimer := Cleared);
      if cleanupFailed
      then ReportCompletion(s2.(exitCode := 1, outcome := CleanupFailure, log := s2.log + [CleanupFailedLine]))
      else ReportCompletion(s2)
  }

  function CleanupTimesOut(s: State): State {
    var s1 := s.(cleanupTimer := Fired);
    if !s1.awaiting then s1
    else ReportCompletion(s1.(exitCode := 1, outcome := CleanupTimeout, log := s1.log + [CleanupTimedOutLine]))
  }

  function Step(c: Config, s: State, e: Event): State {
    match e
    case Signal => Handle(c, s)
    case Deadline => DeadlineExpires(c, s)
    case Closed(closeFailed) => CloseCallsBack(c, s, closeFailed)
    case CleanupSettles(cleanupFailed) => CleanupEnds(s, cleanupFailed)
    case CleanupTimerFires => CleanupTimesOut(s)
    case Tick(ms) => s.(now := s.now + ms)
  }

  // --- runs ------------------------------------------------------------------

  function Run(c: Config, events: seq<Event>): State {
    if events == [] then INITIAL
    else Step(c, Run(c, events[..|events| - 1]), events[|events| - 1])
  }

  /** Every event of the run could happen when it did. */
  predicate Legal(c: Config, events: seq<Event>) {
    events == [] ||
    (Legal(c, events[..|events| - 1]) && Enabled(Run(c, events[..|events| - 1]), events[|events| - 1]))
  }

  // --- the sequential specification ------------------------------------------

  datatype Drain = DrainedInTime | CloseFailed | DrainTimedOut

  datatype CleanupEnd = CleanedUp | CleanupFailed | CleanupTimedOut

  function DrainOf(e: Event): Option<Drain> {
    match e
    case Closed(false) => Some(DrainedInTime)
    case Closed(true) => Some(CloseFailed)
    case Deadline => Some(DrainTimedOut)
    case _ => None
  }

  function CleanupEndOf(e: Event): Option<CleanupEnd> {
    match e
    case CleanupSettles(false) => Some(CleanedUp)
    case CleanupSettles(true) => Some(CleanupFailed)
    case CleanupTimerFires => Some(CleanupTimedOut)
    case _ => None
  }

  /** What decided the drain: the first of close and deadline. */
  function FirstDrain(events: seq<Event>): Option<Drain> {
    if events == [] then None
    else
      var first := DrainOf(events[0]);
      if first.Some? then first else FirstDrain(events[1..])
  }

  /** What decided the cleanup: the first of its settling and its timer. */
  function FirstCleanupEnd(events: seq<Event>): Option<CleanupEnd> {
    if events == [] then None
    else
      var first := CleanupEndOf(events[0]);
      if first.Some? then first else FirstCleanupEnd(events[1..])
  }

  function DrainLabel(d: Drain): Reason {
    match d
    case DrainedInTime => Drained
    case CloseFailed => CloseFailure
    case DrainTimedOut => DrainTimeout
  }

  /** Drain first, then clean up, then exit: what one thread doing the three in
      sequence would log, given how the first two came out. */
  function Sequential(d: Drain, k: CleanupEnd): (r: Line) {
    var code := if d.DrainedInTime? then 0 else 1;
    match k
    case CleanedUp => Complete(DrainLabel(d), DrainLabel(d), code)
    case CleanupFailed => Complete(CleanupFailure, DrainLabel(d), 1)
    case CleanupTimedOut => Complete(CleanupTimeout, DrainLabel(d), 1)
  }

  /** The last line of a run, or `None` while a decision it rests on is open. */
  function Outcome(c: Config, drain: Option<Drain>, end: Option<CleanupEnd>): Option<Line> {
    if drain.None? then None
    else if !c.hasCleanup then Some(Sequential(drain.value, CleanedUp))
    else if end.None? then None
    else Some(Sequential(drain.value, end.value))
  }

  function OutcomeOf(c: Config, events: seq<Event>): Option<Line> {
    Outcome(c, FirstDrain(events), FirstCleanupEnd(events))
  }

  function Completions(log: seq<Line>): seq<Line> {
    if log == [] then []
    else Completions(log[..|log| - 1]) + (if log[|log| - 1].Complete? then [log[|log| - 1]] else [])
  }

  function Earlier<T>(first: Option<T>, second: Option<T>): Option<T> {
    if first.Some? then first else second
  }

  lemma {:induction false} FirstDrainSnoc(events: seq<Event>, e: Event)
    ensures FirstDrain(events + [e]) == Earlier(FirstDrain(events), DrainOf(e))
  {
    if events != [] {
      assert (events + [e])[1..] == events[1..] + [e];
      FirstDrainSnoc(events[1..], e);
    } else {
      assert (events + [e])[1..] == [];
    }
  }

  lemma {:induction false} FirstCleanupEndSnoc(events: seq<Event>, e: Event)
    ensures FirstCleanupEnd(events + [e]) == Earlier(FirstCleanupEnd(events), CleanupEndOf(e))
  {
    if events != [] {
      assert (events + [e])[1..] == events[1..] + [e];
      FirstCleanupEndSnoc(events[1..], e);
    } else {
      assert (events + [e])[1..] == [];
    }
  }

  lemma {:induction false} CompletionsSnoc(log: seq<Line>, line: Line)
    ensures Completions(log + [line]) == Completions(log) + (if line.Complete? then [line] else [])
  {
    assert (log + [line])[..|log|] == log;
  }

  /** How the closures' variables stand to what has been decided so far. */
  ghost predicate Phase(c: Config, s: State, d: Option<Drain>, k: Option<CleanupEnd>) {
    && (s.shuttingDown <==> !s.close.NotCalled?)
    && (s.shuttingDown <==> s.signalledAt.Some?)
    && (s.finished <==> d.Some?)
    && (!s.shuttingDown ==> s.deadline.Unset? && !s.finished)
    && (s.shuttingDown && !s.finished ==> s.deadline.Armed? && s.close.Waiting?)
    && (s.finished ==> !s.deadline.Armed?)
    && (s.awaiting <==> c.hasCleanup && d.Some? && k.None?)
    && (k.Some? ==> c.hasCleanup && d.Some?)
    && (s.awaiting ==> s.cleanup.Pending?)
    && (s.awaiting <==> s.cleanupTimer.Armed?)
    && (d.None? || !c.hasCleanup <==> s.cleanup.NotStarted?)
    && (s.connectionsCut <==> d == Some(DrainTimedOut))
    && s.cleanupCalls == (if c.hasCleanup && d.Some? then 1 else 0)
  }

  ghost predicate Reported(c: Config, s: State, d: Option<Drain>, k: Option<CleanupEnd>) {
    && (s.awaiting ==> d.Some? && s.exitCode == (if d.value.DrainedInTime? then 0 else 1)
                       && s.outcome == s.drain == DrainLabel(d.value))
    && s.exits == (match Outcome(c, d, k) case None => [] case Some(line) => [line.exitCode])
    && Completions(s.log) == (match Outcome(c, d, k) case None => [] case Some(line) => [line])
  }

  lemma {:induction false} PhaseStep(c: Config, s: State, d: Option<Drain>, k: Option<CleanupEnd>, e: Event)
    requires Phase(c, s, d, k) && Enabled(s, e)
    ensures Phase(c, Step(c, s, e), Earlier(d, DrainOf(e)), Earlier(k, CleanupEndOf(e)))
  {
  }

  lemma {:induction false} DeadlineReports(c: Config, s: State, d: Option<Drain>, k: Option<CleanupEnd>)
    requires Phase(c, s, d, k) && Reported(c, s, d, k) && Enabled(s, Deadline)
    ensures Reported(c, Step(c, s, Deadline), Earlier(d, Some(DrainTimedOut)), k)
  {
    CompletionsSnoc(s.log, DeadlineExceeded);
    var s1 := s.(deadline := Fired, log := s.log + [DeadlineExceeded], connectionsCut := true);
    CloseOrDeadlineFinishes(c, s1, DrainTimedOut);
  }

  lemma {:induction false} CloseReports(c: Config, s: State, d: Option<Drain>, k: Option<CleanupEnd>, e: Event)
    requires Phase(c, s, d, k) && Reported(c, s, d, k) && Enabled(s, e) && e.Closed?
    ensures Reported(c, Step(c, s, e), Earlier(d, DrainOf(e)), k)
  {
    CompletionsSnoc(s.log, CloseFailedLine);
    if d.None? {
      var s1 := s.(close := CalledBack, deadline := Cleared);
      CloseOrDeadlineFinishes(c, if e.closeFailed then s1.(log := s1.log + [CloseFailedLine]) else s1, DrainOf(e).value);
    }
  }

  lemma {:induction false} CloseOrDeadlineFinishes(c: Config, s: State, d: Drain)
    requires Reported(c, s, None, None) && !s.finished && !s.awaiting
    ensures Reported(c, Finish(c, s, if d.DrainedInTime? then 0 else 1, DrainLabel(d)), Some(d), None)
  {
    CompletionsSnoc(s.log, Complete(DrainLabel(d), DrainLabel(d), if d.DrainedInTime? then 0 else 1));
  }

  lemma {:induction false} CleanupSettlesReports(c: Config, s: State, d: Option<Drain>, k: Option<CleanupEnd>,
                                                 cleanupFailed: bool)
    requires Phase(c, s, d, k) && Reported(c, s, d, k) && Enabled(s, CleanupSettles(cleanupFailed))
    ensures var e := CleanupSettles(cleanupFailed); Reported(c, Step(c, s, e), d, Earlier(k, CleanupEndOf(e)))
  {
    if s.awaiting {
      if cleanupFailed {
        CompletionsSnoc(s.log, CleanupFailedLine);
        CompletionsSnoc(s.log + [CleanupFailedLine], Sequential(d.value, CleanupFailed));
      } else {
        CompletionsSnoc(s.log, Sequential(d.value, CleanedUp));
      }
    }
  }

  lemma {:induction false} CleanupTimerReports(c: Config, s: State, d: Option<Drain>, k: Option<CleanupEnd>)
    requires Phase(c, s, d, k) && Reported(c, s, d, k) && Enabled(s, CleanupTimerFires)
    ensures Reported(c, Step(c, s, CleanupTimerFires), d, Earlier(k, Some(CleanupTimedOut)))
  {
    var end := Sequential(d.value, CleanupTimedOut);
    TimerCompletes(c, s, end);
    CompletionsSnoc(s.log, CleanupTimedOutLine);
    CompletionsSnoc(s.log + [CleanupTimedOutLine], end);
  }

  lemma {:induction false} TimerCompletes(c: Config, s: State, end: Line)
    requires s.awaiting && end == Complete(CleanupTimeout, s.drain, 1)
    ensures var t := Step(c, s, CleanupTimerFires);
            && t.log == s.log + [CleanupTimedOutLine] + [end] && t.exits == s.exits + [1] && !t.awaiting
  {
  }

  lemma {:induction false} StepReports(c: Config, s: State, d: Option<Drain>, k: Option<CleanupEnd>, e: Event)
    requires Phase(c, s, d, k) && Reported(c, s, d, k) && Enabled(s, e)
    ensures Reported(c, Step(c, s, e), Earlier(d, DrainOf(e)), Earlier(k, CleanupEndOf(e)))
  {
    match e
    case Deadline => DeadlineReports(c, s, d, k);
    case Closed(_) => CloseReports(c, s, d, k, e);
    case CleanupSettles(cleanupFailed) => CleanupSettlesReports(c, s, d, k, cleanupFailed);
    case CleanupTimerFires => CleanupTimerReports(c, s, d, k);
    case Signal => CompletionsSnoc(s.log, Draining);
    case Tick(_) =>
  }

  /** The state stands so to what the events have decided. */
  ghost predicate Tracks(c: Config, s: State, events: seq<Event>) {
    && Phase(c, s, FirstDrain(events), FirstCleanupEnd(events))
    && Reported(c, s, FirstDrain(events), FirstCleanupEnd(events))
  }

  lemma {:induction false} TracksOn(c: Config, s: State, before: seq<Event>, e: Event, events: seq<Event>)
    requires Tracks(c, s, before) && Enabled(s, e) && events == before + [e]
    ensures Tracks(c, Step(c, s, e), events)
  {
    FirstDrainSnoc(before, e);
    FirstCleanupEndSnoc(before, e);
    PhaseStep(c, s, FirstDrain(before), FirstCleanupEnd(before), e);
    StepReports(c, s, FirstDrain(before), FirstCleanupEnd(before), e);
  }

  lemma {:induction false} AlwaysTracks(c: Config, events: seq<Event>)
    requires Legal(c, events)
    ensures Tracks(c, Run(c, events), events)
  {
    if events != [] {
      var before := events[..|events| - 1];
      AlwaysTracks(c, before);
      TracksOn(c, Run(c, before), before, events[|events| - 1], events);
    }
  }

  lemma {:induction false} RunTracks(c: Config, events: seq<Event>)
    requires Legal(c, events)
    ensures Phase(c, Run(c, events), FirstDrain(events), FirstCleanupEnd(events))
    ensures Reported(c, Run(c, events), FirstDrain(events), FirstCleanupEnd(events))
  {
    AlwaysTracks(c, events);
  }

  // --- what every run keeps --------------------------------------------------

  /** Every interleaving exits as the sequential specification says, once, logs
      that one completion line, runs the cleanup once, after the drain, and cuts the
      remaining connections exactly when the deadline decided the drain. */
  lemma {:induction false} RunRefinesSequential(c: Config, events: seq<Event>)
    requires Legal(c, events)
    ensures var s := Run(c, events);
            && s.exits == (match OutcomeOf(c, events) case None => [] case Some(line) => [line.exitCode])
            && Completions(s.log) == (match OutcomeOf(c, events) case None => [] case Some(line) => [line])
            && s.cleanupCalls == (if c.hasCleanup && FirstDrain(events).Some? then 1 else 0)
            && (s.connectionsCut <==> FirstDrain(events) == Some(DrainTimedOut))
  {
    RunTracks(c, events);
  }

  /** Exit code 0 means: close succeeded before the deadline, and the cleanup, if
      there is one, ended without error before its timer. Then and only then the
      reason logged is "drained". */
  lemma {:induction false} CleanExit(c: Config, events: seq<Event>)
    requires Legal(c, events)
    ensures var s := Run(c, events);
            && (s.exits == [0] <==>
                FirstDrain(events) == Some(DrainedInTime) &&
                (c.hasCleanup ==> FirstCleanupEnd(events) == Some(CleanedUp)))
            && (s.exits == [0] <==> exists line :: line in Completions(s.log) && line.Complete? && line.reason.Drained?)
            && |s.exits| <= 1 && |Completions(s.log)| <= 1
  {
    RunTracks(c, events);
    var s := Run(c, events);
    if OutcomeOf(c, events).Some? {
      assert Completions(s.log)[0] in Completions(s.log);
    }
  }

  lemma {:induction false} DecisionsStand(events: seq<Event>, more: seq<Event>)
    ensures FirstDrain(events).Some? ==> FirstDrain(events + more) == FirstDrain(events)
    ensures FirstCleanupEnd(events).Some? ==> FirstCleanupEnd(events + more) == FirstCleanupEnd(events)
    decreases |more|
  {
    if more == [] {
      assert events + more == events;
    } else {
      var init, last := more[..|more| - 1], more[|more| - 1];
      DecisionsStand(events, init);
      assert events + more == (events + init) + [last];
      FirstDrainSnoc(events + init, last);
      FirstCleanupEndSnoc(events + init, last);
    }
  }

  lemma {:induction false} LegalPrefix(c: Config, events: seq<Event>, more: seq<Event>)
    requires Legal(c, events + more)
    ensures Legal(c, events)
    decreases |more|
  {
    if more == [] {
      assert events + more == events;
    } else {
      assert (events + more)[..|events + more| - 1] == events + more[..|more| - 1];
      LegalPrefix(c, events, more[..|more| - 1]);
    }
  }

  /** Once the process has exited, nothing that still arrives — a late close, a late
      settling, another signal — exits again or logs another completion. */
  lemma {:induction false} LateEventsChangeNothing(c: Config, events: seq<Event>, more: seq<Event>)
    requires Legal(c, events + more)
    requires Run(c, events).exits != []
    ensures Run(c, events + more).exits == Run(c, events).exits
    ensures Completions(Run(c, events + more).log) == Completions(Run(c, events).log)
    ensures Run(c, events + more).cleanupCalls == Run(c, events).cleanupCalls
  {
    LegalPrefix(c, events, more);
    RunTracks(c, events);
    RunTracks(c, events + more);
    DecisionsStand(events, more);
  }

  /** The deadline never acts once close has called back. */
  lemma {:induction false} NoDeadlineAfterClose(c: Config, events: seq<Event>, i: nat, j: nat)
    requires Legal(c, events)
    requires i < j < |events| && events[i].Closed?
    ensures !events[j].Deadline?
  {
    var before := events[..j];
    LegalPrefix(c, before, events[j..]) by { assert events == before + events[j..]; }
    LegalPrefix(c, before + [events[j]], events[j + 1..]) by {
      assert events == before + [events[j]] + events[j + 1..];
    }
    assert (before + [events[j]])[..j] == before;
    RunTracks(c, before);
    ClosedDecides(before, i);
  }

  lemma {:induction false} ClosedDecides(events: seq<Event>, i: nat)
    requires i < |events| && events[i].Closed?
    ensures FirstDrain(events).Some?
  {
    if i > 0 { ClosedDecides(events[1..], i - 1); }
  }

  // --- time ------------------------------------------------------------------

  /** The event loop stays alive and serves timers when they fall due: time does
      not pass a timer that is still armed. */
  predicate Punctual(s: State, e: Event) {
    e.Tick? ==>
      && (s.deadline.Armed? ==> s.now + e.ms <= s.deadline.due)
      && (s.cleanupTimer.Armed? ==> s.now + e.ms <= s.cleanupTimer.due)
  }

  predicate Timely(c: Config, events: seq<Event>) {
    events == [] ||
    (Timely(c, events[..|events| - 1]) &&
     Enabled(Run(c, events[..|events| - 1]), events[|events| - 1]) &&
     Punctual(Run(c, events[..|events| - 1]), events[|events| - 1]))
  }

  lemma {:induction false} TimelyIsLegal(c: Config, events: seq<Event>)
    requires Timely(c, events)
    ensures Legal(c, events)
  {
    if events != [] { TimelyIsLegal(c, events[..|events| - 1]); }
  }

  ghost predicate WithinBudgets(c: Config, s: State) {
    s.signalledAt.Some? ==>
      var t0 := s.signalledAt.value;
      && (!s.finished ==> s.deadline == Armed(t0 + c.drainTimeoutMs) && s.now <= s.deadline.due)
      && (s.awaiting ==> s.cleanupTimer.Armed? && s.now <= s.cleanupTimer.due
                         && s.cleanupTimer.due <= t0 + c.drainTimeoutMs + c.cleanupTimeoutMs)
  }

  lemma {:induction false} WithinBudgetsStep(c: Config, s: State, d: Option<Drain>, k: Option<CleanupEnd>, e: Event)
    requires Phase(c, s, d, k) && Enabled(s, e) && Punctual(s, e) && WithinBudgets(c, s)
    ensures WithinBudgets(c, Step(c, s, e))
  {
  }

  lemma {:induction false} RunWithinBudgets(c: Config, events: seq<Event>)
    requires Timely(c, events)
    ensures WithinBudgets(c, Run(c, events))
  {
    if events != [] {
      var before := events[..|events| - 1];
      RunWithinBudgets(c, before);
      TimelyIsLegal(c, before);
      RunTracks(c, before);
      WithinBudgetsStep(c, Run(c, before), FirstDrain(before), FirstCleanupEnd(before), events[|events| - 1]);
    }
  }

  /** A shutdown that has not exited has not used up its two budgets. */
  lemma {:induction false} ShutdownIsBounded(c: Config, events: seq<Event>)
    requires Timely(c, events)
    ensures var s := Run(c, events);
            s.signalledAt.Some? && s.exits == [] ==>
              s.now <= s.signalledAt.value + c.drainTimeoutMs + c.cleanupTimeoutMs
  {
    TimelyIsLegal(c, events);
    RunTracks(c, events);
    RunWithinBudgets(c, events);
  }

  /** With the cleanup's budget defaulted the bound is twice the drain's. */
  lemma {:induction false} DefaultedBoundIsTwiceTheDrain(o: Options, events: seq<Event>)
    requires o.cleanupTimeoutMs.None?
    requires Timely(Resolve(o), events)
    ensures var s := Run(Resolve(o), events);
            s.signalledAt.Some? && s.now > s.signalledAt.value + 2 * o.drainTimeoutMs.GetOr(DEFAULT_DRAIN_TIMEOUT_MS)
            ==> |s.exits| == 1
  {
    TimelyIsLegal(Resolve(o), events);
    RunTracks(Resolve(o), events);
    ShutdownIsBounded(Resolve(o), events);
  }

  /** How many more callbacks can act. */
  function Remaining(s: State): nat {
    (if s.shuttingDown then 0 else 5)
    + (if s.close.Waiting? then 1 else 0)
    + (if s.deadline.Armed? then 1 else 0)
    + (if s.shuttingDown && !s.finished then 2 else 0)
    + (if s.cleanup.Pending? then 1 else 0)
    + (if s.cleanupTimer.Armed? then 1 else 0)
  }

  ghost predicate SpendsOne(c: Config, s: State, e: Event) {
    if e.Tick? || (e.Signal? && s.shuttingDown)
    then Remaining(Step(c, s, e)) == Remaining(s)
    else Remaining(Step(c, s, e)) < Remaining(s)
  }

  lemma {:induction false} CallbackSpendsOne(c: Config, s: State, d: Option<Drain>, k: Option<CleanupEnd>, e: Event)
    requires Phase(c, s, d, k) && Enabled(s, e)
    ensures SpendsOne(c, s, e)
  {
  }

  /** Every callback that is not a repeated signal uses one up, so no run goes on
      calling back forever. */
  lemma {:induction false} EveryCallbackSpendsOne(c: Config, events: seq<Event>, e: Event)
    requires Legal(c, events) && Enabled(Run(c, events), e)
    ensures SpendsOne(c, Run(c, events), e)
  {
    RunTracks(c, events);
    CallbackSpendsOne(c, Run(c, events), FirstDrain(events), FirstCleanupEnd(events), e);
  }

  predicate ClockOnly(events: seq<Event>) {
    forall i :: 0 <= i < |events| ==> events[i].Tick? || events[i].Deadline? || events[i].CleanupTimerFires?
  }

  /** Where `events`, each possible and punctual when it comes, lead from `s`. */
  predicate Plays(c: Config, s: State, events: seq<Event>, t: State)
    decreases |events|
  {
    if events == [] then s == t
    else Enabled(s, events[0]) && Punctual(s, events[0]) && Plays(c, Step(c, s, events[0]), events[1..], t)
  }

  lemma {:induction false} PlaysTwo(c: Config, s: State, e0: Event, e1: Event, rest: seq<Event>, t: State)
    requires Enabled(s, e0) && Punctual(s, e0)
    requires Enabled(Step(c, s, e0), e1) && Punctual(Step(c, s, e0), e1)
    requires Plays(c, Step(c, Step(c, s, e0), e1), rest, t)
    ensures Plays(c, s, [e0, e1] + rest, t)
  {
    var all := [e0, e1] + rest;
    assert all[1..] == [e1] + rest && all[1..][1..] == rest;
  }

  /** From any point after the first signal the clock alone brings the shutdown to
      its exit, within the two budgets: close and cleanup may both hang. */
  lemma {:induction false} ClockAloneExits(c: Config, events: seq<Event>) returns (more: seq<Event>, t: State)
    requires Timely(c, events) && Run(c, events).signalledAt.Some?
    ensures |more| <= 4 && ClockOnly(more) && Plays(c, Run(c, events), more, t)
    ensures |t.exits| == 1
    ensures Run(c, events).exits == [] ==>
              t.now <= Run(c, events).signalledAt.value + c.drainTimeoutMs + c.cleanupTimeoutMs
  {
    TimelyIsLegal(c, events);
    RunTracks(c, events);
    RunWithinBudgets(c, events);
    more, t := ClockPlays(c, Run(c, events), FirstDrain(events), FirstCleanupEnd(events));
  }

  ghost predicate ExitsInTime(c: Config, s: State, t: State)
    requires s.signalledAt.Some?
  {
    && |t.exits| == 1
    && (s.exits == [] ==> t.now <= s.signalledAt.value + c.drainTimeoutMs + c.cleanupTimeoutMs)
  }

  lemma {:induction false} ClockPlays(c: Config, s: State, d: Option<Drain>,
                                      k: Option<CleanupEnd>) returns (more: seq<Event>, t: State)
    requires Phase(c, s, d, k) && Reported(c, s, d, k) && WithinBudgets(c, s) && s.signalledAt.Some?
    ensures |more| <= 4 && ClockOnly(more) && Plays(c, s, more, t)
    ensures ExitsInTime(c, s, t)
  {
    if s.finished {
      more, t := CleanupClockPlays(c, s, d, k);
    } else {
      var tick, s2 := DrainClock(c, s, d, k);
      var rest;
      rest, t := CleanupClockPlays(c, s2, Some(DrainTimedOut), k);
      PlaysTwo(c, s, tick, Deadline, rest, t);
      more := [tick, Deadline] + rest;
    }
  }

  lemma {:induction false} TickKeeps(c: Config, s: State, d: Option<Drain>, k: Option<CleanupEnd>, ms: nat)
    requires Phase(c, s, d, k) && Reported(c, s, d, k)
    ensures var s1 := Step(c, s, Tick(ms)); Phase(c, s1, d, k) && Reported(c, s1, d, k)
  {
  }

  lemma {:induction false} DueDeadline(c: Config, s: State, d: Option<Drain>, k: Option<CleanupEnd>)
    requires Phase(c, s, d, k) && Reported(c, s, d, k) && Enabled(s, Deadline) && s.signalledAt.Some?
    requires s.now == s.signalledAt.value + c.drainTimeoutMs
    ensures var s2 := Step(c, s, Deadline);
            && Phase(c, s2, Some(DrainTimedOut), k) && Reported(c, s2, Some(DrainTimedOut), k)
            && WithinBudgets(c, s2)
            && s2.finished && s2.signalledAt == s.signalledAt && s2.now == s.now
  {
    PhaseStep(c, s, d, k, Deadline);
    DeadlineReports(c, s, d, k);
    assert d.None?;
  }

  lemma {:induction false} DrainClock(c: Config, s: State, d: Option<Drain>,
                                      k: Option<CleanupEnd>) returns (tick: Event, s2: State)
    requires Phase(c, s, d, k) && Reported(c, s, d, k) && WithinBudgets(c, s) && s.signalledAt.Some? && !s.finished
    ensures tick.Tick? && Punctual(s, tick)
    ensures Enabled(Step(c, s, tick), Deadline) && s2 == Step(c, Step(c, s, tick), Deadline)
    ensures Phase(c, s2, Some(DrainTimedOut), k) && Reported(c, s2, Some(DrainTimedOut), k) && WithinBudgets(c, s2)
    ensures s2.finished && s2.signalledAt == s.signalledAt && s2.now == s.signalledAt.value + c.drainTimeoutMs
  {
    tick := Tick(s.deadline.due - s.now);
    TickKeeps(c, s, d, k, tick.ms);
    DueDeadline(c, Step(c, s, tick), d, k);
    s2 := Step(c, Step(c, s, tick), Deadline);
  }

  lemma {:induction false} CleanupClockPlays(c: Config, s: State, d: Option<Drain>, k: Option<CleanupEnd>)
    returns (more: seq<Event>, t: State)
    requires Phase(c, s, d, k) && Reported(c, s, d, k) && WithinBudgets(c, s) && s.finished
    ensures |more| <= 2 && ClockOnly(more) && Plays(c, s, more, t)
    ensures |t.exits| == 1
    ensures if s.awaiting then s.signalledAt.Some? && t.now <= s.signalledAt.value + c.drainTimeoutMs + c.cleanupTimeoutMs
            else t.now == s.now && s.exits == t.exits
  {
    if !s.awaiting {
      more, t := [], s;
    } else {
      var tick := Tick(s.cleanupTimer.due - s.now);
      var s1 := Step(c, s, tick);
      t := Step(c, s1, CleanupTimerFires);
      PlaysTwo(c, s, tick, CleanupTimerFires, [], t);
      more := [tick, CleanupTimerFires] + [];
    }
  }

  // --- the closures as they are: variables changed by callbacks ---------------

  /** What `installGracefulShutdown` sets up: the variables its callbacks share, and a
      record of what they called. Each callback takes the state through one `Step`. */
  class GracefulShutdown {
    const config: Config
    var now: nat
    ghost var signalledAt: Option<nat>
    var shuttingDown: bool
    var finished: bool
    var exitCode: nat
    var outcome: Reason
    var drain: Reason
    var deadline: Timer
    var close: CloseCall
    var connectionsCut: bool
    var cleanup: CleanupCall
    var cleanupCalls: nat
    var cleanupTimer: Timer
    var awaiting: bool
    var log: seq<Line>
    var exits: seq<nat>

    ghost function View(): State
      reads this
    {
      State(now, signalledAt, shuttingDown, finished, exitCode, outcome, drain, deadline, close, connectionsCut,
            cleanup, cleanupCalls, cleanupTimer, awaiting, log, exits)
    }

    constructor (options: Options)
      ensures View() == INITIAL && config == Resolve(options)
    {
      var drainTimeoutMs := options.drainTimeoutMs.GetOr(DEFAULT_DRAIN_TIMEOUT_MS);
      config := Config(options.hasCleanup, drainTimeoutMs, options.cleanupTimeoutMs.GetOr(drainTimeoutMs));
      now, signalledAt := 0, None;
      shuttingDown, finished, exitCode, outcome, drain := false, false, 0, Unsaid, Unsaid;
      deadline, close, connectionsCut := Unset, NotCalled, false;
      cleanup, cleanupCalls, cleanupTimer, awaiting := NotStarted, 0, Unset, false;
      log, exits := [], [];
    }

    method Handler()
      modifies this
      ensures View() == Step(config, old(View()), Signal)
    {
      if shuttingDown { return; }
      shuttingDown := true;
      signalledAt := Some(now);
      log := log + [Draining];
      deadline := Armed(now + config.drainTimeoutMs);
      close := Waiting;
    }

    method OnDeadline()
      requires Enabled(View(), Deadline)
      modifies this
      ensures View() == Step(config, old(View()), Deadline)
    {
      deadline := Fired;
      log := log + [DeadlineExceeded];
      connectionsCut := true;
      FinishWith(1, DrainTimeout);
    }

    method OnClosed(closeFailed: bool)
      requires Enabled(View(), Closed(closeFailed))
      modifies this
      ensures View() == Step(config, old(View()), Closed(closeFailed))
    {
      close := CalledBack;
      if deadline.Armed? { deadline := Cleared; }
      if closeFailed {
        log := log + [CloseFailedLine];
        FinishWith(1, CloseFailure);
        return;
      }
      FinishWith(0, Drained);
    }

    /** `finish`, up to the await of the cleanup. */
    method FinishWith(code: nat, reason: Reason)
      modifies this
      ensures View() == Finish(config, old(View()), code, reason)
    {
      if finished { return; }
      finished := true;
      exitCode := code;
      outcome, drain := reason, reason;
      if config.hasCleanup {
        RunCleanup();
      } else {
        Conclude();
      }
    }

    /** `runCleanup`, up to its await: the cleanup is called and its timer armed. */
    method RunCleanup()
      modifies this
      ensures View() == BeginCleanup(config, old(View()))
    {
      cleanup := Pending;
      cleanupCalls := cleanupCalls + 1;
      cleanupTimer := Armed(now + config.cleanupTimeoutMs);
      awaiting := true;
    }

    /** `finish`, after the await. */
    method Conclude()
      modifies this
      ensures View() == ReportCompletion(old(View()))
    {
      awaiting := false;
      log := log + [Complete(outcome, drain, exitCode)];
      exits := exits + [exitCode];
    }

    method OnCleanupSettled(cleanupFailed: bool)
      requires Enabled(View(), CleanupSettles(cleanupFailed))
      modifies this
      ensures View() == Step(config, old(View()), CleanupSettles(cleanupFailed))
    {
      cleanup := Settled;
      if !awaiting { return; }
      cleanupTimer := Cleared;
      if cleanupFailed {
        log := log + [CleanupFailedLine];
        exitCode := 1;
        outcome := CleanupFailure;
      }
      Conclude();
    }

    method OnCleanupTimer()
      requires Enabled(View(), CleanupTimerFires)
      modifies this
      ensures View() == Step(config, old(View()), CleanupTimerFires)
    {
      cleanupTimer := Fired;
      if !awaiting { return; }
      log := log + [CleanupTimedOutLine];
      exitCode := 1;
      outcome := CleanupTimeout;
      Conclude();
    }

    method Elapse(ms: nat)
      modifies this
      ensures View() == Step(config, old(View()), Tick(ms))
    {
      now := now + ms;
    }
  }
}
