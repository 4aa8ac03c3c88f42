/** When the shutdown's timers fire, and what each callback logs, over whole runs. */
module ShutdownTimes {
  import opened Text
  import opened Shutdown

  /** What the clock shows after these events. */
  function Clock(events: seq<Event>): nat {
    if events == [] then 0
    else
      var last := events[|events| - 1];
      Clock(events[..|events| - 1]) + (if last.Tick? then last.ms else 0)
  }

  lemma {:induction false} ClockIsNow(c: Config, events: seq<Event>)
    ensures Run(c, events).now == Clock(events)
  {
    if events != [] { ClockIsNow(c, events[..|events| - 1]); }
  }

  lemma {:induction false} ClockGoesOn(events: seq<Event>, i: nat)
    requires i <= |events|
    ensures Clock(events[..i]) <= Clock(events)
    decreases |events|
  {
    if i < |events| {
      ClockGoesOn(events[..|events| - 1], i);
      assert events[..|events| - 1][..i] == events[..i];
    } else {
      assert events[..i] == events;
    }
  }

  /** The first signal of the run. */
  ghost predicate SignalledAt(events: seq<Event>, i: nat) {
    i < |events| && events[i].Signal? && forall j :: 0 <= j < i ==> !events[j].Signal?
  }

  predicate Decides(e: Event) { e.Deadline? || e.Closed? }

  /** The event that decides the drain: the deadline or the close callback, whichever first. */
  ghost predicate DecidedAt(events: seq<Event>, i: nat) {
    i < |events| && Decides(events[i]) && forall j :: 0 <= j < i ==> !Decides(events[j])
  }

  ghost predicate NeverSignalled(events: seq<Event>) { forall j :: 0 <= j < |events| ==> !events[j].Signal? }

  ghost predicate NeverDecided(events: seq<Event>) { forall j :: 0 <= j < |events| ==> !Decides(events[j]) }

  ghost predicate CleanupNeverEnded(events: seq<Event>) {
    forall j :: 0 <= j < |events| ==> !events[j].CleanupSettles? && !events[j].CleanupTimerFires?
  }

  function DrainBudget(o: Options): nat {
    if o.drainTimeoutMs.Some? then o.drainTimeoutMs.value else 10_000
  }

  function CleanupBudget(o: Options): nat {
    if o.cleanupTimeoutMs.Some? then o.cleanupTimeoutMs.value else DrainBudget(o)
  }

  // --- what the timers are set to --------------------------------------------

  ghost predicate DeadlineTells(drainTimeoutMs: nat, s: State, events: seq<Event>) {
    && (s.deadline.Armed? <==> !NeverSignalled(events) && NeverDecided(events))
    && (s.deadline.Armed? ==>
          exists i: nat :: SignalledAt(events, i) && s.deadline.due == Clock(events[..i]) + drainTimeoutMs)
  }

  ghost predicate CleanupTimerTells(cleanupTimeoutMs: nat, s: State, events: seq<Event>) {
    s.cleanupTimer.Armed? ==>
      exists i: nat :: DecidedAt(events, i) && s.cleanupTimer.due == Clock(events[..i]) + cleanupTimeoutMs
  }

  lemma {:induction false} DrainIsDecided(events: seq<Event>)
    ensures FirstDrain(events).None? <==> NeverDecided(events)
    ensures FirstCleanupEnd(events).None? <==> CleanupNeverEnded(events)
  {
    if events != [] {
      DrainIsDecided(events[1..]);
      assert events == [events[0]] + events[1..];
      if !NeverDecided(events[1..]) {
        var j :| 0 <= j < |events[1..]| && Decides(events[1..][j]);
        assert Decides(events[j + 1]);
      }
      if !CleanupNeverEnded(events[1..]) {
        var j :| 0 <= j < |events[1..]| && (events[1..][j].CleanupSettles? || events[1..][j].CleanupTimerFires?);
        assert events[j + 1] == events[1..][j];
      }
    }
  }

  lemma {:induction false} NeverSnoc(before: seq<Event>, e: Event, events: seq<Event>)
    requires events == before + [e]
    ensures NeverSignalled(events) <==> NeverSignalled(before) && !e.Signal?
    ensures NeverDecided(events) <==> NeverDecided(before) && !Decides(e)
  {
    if NeverSignalled(events) || NeverDecided(events) {
      assert events[|before|] == e;
      assert forall j :: 0 <= j < |before| ==> events[j] == before[j];
    }
  }

  lemma {:induction false} StillSignalled(before: seq<Event>, i: nat, events: seq<Event>)
    requires before <= events
    ensures SignalledAt(before, i) ==> SignalledAt(events, i) && events[..i] == before[..i]
    ensures DecidedAt(before, i) ==> DecidedAt(events, i) && events[..i] == before[..i]
  {
  }

  lemma {:induction false} FirstSignal(before: seq<Event>, e: Event, events: seq<Event>)
    requires events == before + [e]
    ensures NeverSignalled(before) && e.Signal? ==> SignalledAt(events, |before|)
    ensures NeverDecided(before) && Decides(e) ==> DecidedAt(events, |before|)
    ensures events[..|before|] == before
  {
  }

  lemma {:induction false} DeadlineStep(c: Config, s: State, before: seq<Event>, e: Event, events: seq<Event>)
    requires events == before + [e] && Enabled(s, e) && s.now == Clock(before)
    requires Phase(c, s, FirstDrain(before), FirstCleanupEnd(before))
    requires DeadlineTells(c.drainTimeoutMs, s, before) && (s.shuttingDown <==> !NeverSignalled(before))
    ensures DeadlineTells(c.drainTimeoutMs, Step(c, s, e), events)
    ensures Step(c, s, e).shuttingDown <==> !NeverSignalled(events)
  {
    NeverSnoc(before, e, events);
    FirstSignal(before, e, events);
    DrainIsDecided(before);
    if s.deadline.Armed? {
      var i: nat :| SignalledAt(before, i) && s.deadline.due == Clock(before[..i]) + c.drainTimeoutMs;
      StillSignalled(before, i, events);
    }
  }

  lemma {:induction false} CleanupTimerStep(c: Config, s: State, before: seq<Event>, e: Event, events: seq<Event>)
    requires events == before + [e] && Enabled(s, e) && s.now == Clock(before)
    requires Phase(c, s, FirstDrain(before), FirstCleanupEnd(before))
    requires CleanupTimerTells(c.cleanupTimeoutMs, s, before)
    ensures CleanupTimerTells(c.cleanupTimeoutMs, Step(c, s, e), events)
  {
    FirstSignal(before, e, events);
    DrainIsDecided(before);
    if s.cleanupTimer.Armed? {
      var i: nat :| DecidedAt(before, i) && s.cleanupTimer.due == Clock(before[..i]) + c.cleanupTimeoutMs;
      StillSignalled(before, i, events);
    }
  }

  lemma {:induction false} TimersTell(c: Config, events: seq<Event>)
    requires Legal(c, events)
    ensures DeadlineTells(c.drainTimeoutMs, Run(c, events), events)
    ensures Run(c, events).shuttingDown <==> !NeverSignalled(events)
    ensures CleanupTimerTells(c.cleanupTimeoutMs, Run(c, events), events)
  {
    if events != [] {
      var before, e := events[..|events| - 1], events[|events| - 1];
      TimersTell(c, before);
      RunTracks(c, before);
      ClockIsNow(c, before);
      DeadlineStep(c, Run(c, before), before, e, events);
      CleanupTimerStep(c, Run(c, before), before, e, events);
    }
  }

  lemma {:induction false} OneFirst(events: seq<Event>, i: nat, j: nat)
    ensures SignalledAt(events, i) && SignalledAt(events, j) ==> i == j
    ensures DecidedAt(events, i) && DecidedAt(events, j) ==> i == j
  {
  }

  /** The drain deadline can fire exactly while the drain is undecided and its budget, the one
      given or ten seconds, is up, counted from the first signal. */
  lemma {:induction false} DeadlineKeepsItsBudget(o: Options, events: seq<Event>, i: nat)
    requires Legal(Resolve(o), events) && SignalledAt(events, i)
    ensures Enabled(Run(Resolve(o), events), Deadline) <==>
            NeverDecided(events) && Clock(events) >= Clock(events[..i]) + DrainBudget(o)
  {
    var s := Run(Resolve(o), events);
    TimersTell(Resolve(o), events);
    ClockIsNow(Resolve(o), events);
    if s.deadline.Armed? {
      var k: nat :| SignalledAt(events, k) && s.deadline.due == Clock(events[..k]) + Resolve(o).drainTimeoutMs;
      OneFirst(events, i, k);
    }
  }

  lemma {:induction false} TimerAwaits(c: Config, events: seq<Event>)
    requires Legal(c, events) && !NeverDecided(events)
    ensures Run(c, events).cleanupTimer.Armed? <==> c.hasCleanup && CleanupNeverEnded(events)
  {
    RunTracks(c, events);
    DrainIsDecided(events);
  }

  lemma {:induction false} TimerIsDue(cleanupTimeoutMs: nat, s: State, events: seq<Event>, i: nat)
    requires CleanupTimerTells(cleanupTimeoutMs, s, events) && DecidedAt(events, i)
    ensures s.cleanupTimer.Armed? ==> s.cleanupTimer.due == Clock(events[..i]) + cleanupTimeoutMs
  {
    if s.cleanupTimer.Armed? {
      var k: nat :| DecidedAt(events, k) && s.cleanupTimer.due == Clock(events[..k]) + cleanupTimeoutMs;
      OneFirst(events, i, k);
    }
  }

  /** The cleanup's timer can fire exactly while a cleanup is awaited and its budget, the one
      given or the drain's, is up, counted from the moment the drain was decided. */
  lemma {:induction false} CleanupKeepsItsBudget(o: Options, events: seq<Event>, i: nat)
    requires Legal(Resolve(o), events) && DecidedAt(events, i)
    ensures Enabled(Run(Resolve(o), events), CleanupTimerFires) <==>
            o.hasCleanup && CleanupNeverEnded(events) && Clock(events) >= Clock(events[..i]) + CleanupBudget(o)
  {
    TimersTell(Resolve(o), events);
    TimerAwaits(Resolve(o), events);
    TimerIsDue(Resolve(o).cleanupTimeoutMs, Run(Resolve(o), events), events, i);
    ClockIsNow(Resolve(o), events);
  }

  // --- which callbacks can come -----------------------------------------------

  ghost predicate NeverClosed(events: seq<Event>) { forall j :: 0 <= j < |events| ==> !events[j].Closed? }

  ghost predicate NeverSettled(events: seq<Event>) { forall j :: 0 <= j < |events| ==> !events[j].CleanupSettles? }

  lemma {:induction false} CallsSnoc(before: seq<Event>, e: Event, events: seq<Event>)
    requires events == before + [e]
    ensures NeverClosed(events) <==> NeverClosed(before) && !e.Closed?
    ensures NeverSettled(events) <==> NeverSettled(before) && !e.CleanupSettles?
  {
    if NeverClosed(events) || NeverSettled(events) {
      assert events[|before|] == e;
      assert forall j :: 0 <= j < |before| ==> events[j] == before[j];
    }
  }

  lemma {:induction false} CallsStep(c: Config, s: State, d: Option<Drain>, k: Option<CleanupEnd>, e: Event)
    requires Phase(c, s, d, k) && Enabled(s, e)
    ensures Step(c, s, e).close.CalledBack? <==> s.close.CalledBack? || e.Closed?
    ensures Step(c, s, e).cleanup.Settled? <==> s.cleanup.Settled? || e.CleanupSettles?
  {
  }

  lemma {:induction false} CallsTell(c: Config, events: seq<Event>)
    requires Legal(c, events)
    ensures Run(c, events).close.CalledBack? <==> !NeverClosed(events)
    ensures Run(c, events).cleanup.Settled? <==> !NeverSettled(events)
  {
    if events != [] {
      var before, e := events[..|events| - 1], events[|events| - 1];
      CallsTell(c, before);
      RunTracks(c, before);
      CallsStep(c, Run(c, before), FirstDrain(before), FirstCleanupEnd(before), e);
      CallsSnoc(before, e, events);
    }
  }

  lemma {:induction false} PhaseTells(c: Config, s: State, d: Option<Drain>, k: Option<CleanupEnd>, e: Event)
    requires Phase(c, s, d, k)
    ensures Enabled(s, Signal) && Enabled(s, Tick(0))
    ensures e.Closed? ==> (Enabled(s, e) <==> s.shuttingDown && !s.close.CalledBack?)
    ensures e.CleanupSettles? ==> (Enabled(s, e) <==> s.cleanupCalls > 0 && !s.cleanup.Settled?)
  {
  }

  /** A signal and the clock always can; the close callback once after the first signal, and the
      cleanup's settling once after it was begun, which is at the decision if there is one. */
  lemma {:induction false} CallbacksComeExactlyWhen(c: Config, events: seq<Event>, e: Event)
    requires Legal(c, events)
    ensures e.Signal? || e.Tick? ==> Enabled(Run(c, events), e)
    ensures e.Closed? ==> (Enabled(Run(c, events), e) <==> !NeverSignalled(events) && NeverClosed(events))
    ensures e.CleanupSettles? ==>
              (Enabled(Run(c, events), e) <==> c.hasCleanup && !NeverDecided(events) && NeverSettled(events))
  {
    RunTracks(c, events);
    TimersTell(c, events);
    CallsTell(c, events);
    DrainIsDecided(events);
    PhaseTells(c, Run(c, events), FirstDrain(events), FirstCleanupEnd(events), e);
  }

  // --- a cleanup that is in time ----------------------------------------------

  lemma {:induction false} LegalAt(c: Config, events: seq<Event>, i: nat)
    requires Legal(c, events) && i < |events|
    ensures Legal(c, events[..i]) && Enabled(Run(c, events[..i]), events[i])
  {
    LegalPrefix(c, events[..i], events[i..]) by { assert events == events[..i] + events[i..]; }
    var upTo := events[..i] + [events[i]];
    LegalPrefix(c, upTo, events[i + 1..]) by { assert events == upTo + events[i + 1..]; }
    assert upTo[..i] == events[..i];
  }

  /** The first event that ends the cleanup: its settling or its timer. */
  ghost predicate CleanupEndsAt(events: seq<Event>, j: nat) {
    && j < |events| && (events[j].CleanupSettles? || events[j].CleanupTimerFires?)
    && forall i :: 0 <= i < j ==> !events[i].CleanupSettles? && !events[i].CleanupTimerFires?
  }

  lemma {:induction false} FirstsAre(events: seq<Event>, i: nat)
    ensures DecidedAt(events, i) ==> FirstDrain(events) == DrainOf(events[i])
    ensures CleanupEndsAt(events, i) ==> FirstCleanupEnd(events) == CleanupEndOf(events[i])
  {
    if events != [] && 0 < i < |events| {
      FirstsAre(events[1..], i - 1);
      assert forall j :: 0 <= j < |events[1..]| ==> events[1..][j] == events[j + 1];
    }
  }

  /** Where the deadline fires, the drain has had all of its budget. */
  lemma {:induction false} DeadlineIsNoSooner(o: Options, events: seq<Event>, sig: nat, j: nat)
    requires Legal(Resolve(o), events) && SignalledAt(events, sig)
    requires j < |events| && events[j].Deadline?
    ensures sig < j && Clock(events[..j]) >= Clock(events[..sig]) + DrainBudget(o)
  {
    LegalAt(Resolve(o), events, j);
    NotBeforeTheSignal(Resolve(o), events, sig, j);
    assert SignalledAt(events[..j], sig) && events[..j][..sig] == events[..sig];
    DeadlineKeepsItsBudget(o, events[..j], sig);
  }

  lemma {:induction false} DecidedByClosing(o: Options, events: seq<Event>, sig: nat, i: nat)
    requires Legal(Resolve(o), events) && SignalledAt(events, sig)
    requires sig < i < |events| && events[i] == Closed(false)
    requires Clock(events[..i]) < Clock(events[..sig]) + DrainBudget(o)
    ensures DecidedAt(events, i)
  {
    var c := Resolve(o);
    forall j | 0 <= j < i ensures !Decides(events[j]) {
      LegalAt(c, events, i);
      if events[j].Closed? {
        CalledBackOnce(c, events, j, i);
      } else if events[j].Deadline? {
        ClockGoesOn(events[..i], j);
        assert events[..i][..j] == events[..j];
        DeadlineIsNoSooner(o, events, sig, j);
      }
    }
  }

  lemma {:induction false} NotBeforeTheSignal(c: Config, events: seq<Event>, sig: nat, j: nat)
    requires Legal(c, events) && SignalledAt(events, sig) && j < |events|
    requires events[j].Deadline?
    ensures sig < j
  {
    LegalAt(c, events, j);
    TimersTell(c, events[..j]);
    assert events[..j] <= events;
  }

  lemma {:induction false} CalledBackOnce(c: Config, events: seq<Event>, j: nat, i: nat)
    requires Legal(c, events) && j < i < |events| && events[j].Closed?
    ensures !events[i].Closed?
  {
    LegalAt(c, events, i);
    CallsTell(c, events[..i]);
    assert events[..i][j] == events[j];
  }

  /** A server that closes without error before the drain's budget is up, and a cleanup that
      settles without error before its own is, counted from then: the process exits 0. */
  lemma {:induction false} CleanupInTimeExitsClean(o: Options, events: seq<Event>, sig: nat, i: nat, j: nat)
    requires Legal(Resolve(o), events) && SignalledAt(events, sig) && o.hasCleanup
    requires sig < i < j < |events|
    requires events[i] == Closed(false) && Clock(events[..i]) < Clock(events[..sig]) + DrainBudget(o)
    requires events[j] == CleanupSettles(false) && Clock(events[..j]) < Clock(events[..i]) + CleanupBudget(o)
    ensures Run(Resolve(o), events).exits == [0]
  {
    var c := Resolve(o);
    DecidedByClosing(o, events, sig, i);
    FirstsAre(events, i);
    SettlesFirst(o, events, i, j);
    FirstsAre(events, j);
    CleanExit(c, events);
  }

  lemma {:induction false} SettlesFirst(o: Options, events: seq<Event>, i: nat, j: nat)
    requires Legal(Resolve(o), events) && DecidedAt(events, i) && i < j < |events|
    requires events[j] == CleanupSettles(false) && Clock(events[..j]) < Clock(events[..i]) + CleanupBudget(o)
    ensures CleanupEndsAt(events, j)
  {
    var c := Resolve(o);
    forall k | 0 <= k < j ensures !events[k].CleanupSettles? && !events[k].CleanupTimerFires? {
      if events[k].CleanupTimerFires? {
        ClockGoesOn(events[..j], k);
        assert events[..j][..k] == events[..k];
        CleanupTimerIsNoSooner(o, events, i, k);
      } else if events[k].CleanupSettles? {
        SettlesOnce(c, events, k, j);
      }
    }
  }

  /** Where the cleanup's timer fires, the cleanup has had all of its budget. */
  lemma {:induction false} CleanupTimerIsNoSooner(o: Options, events: seq<Event>, i: nat, k: nat)
    requires Legal(Resolve(o), events) && DecidedAt(events, i)
    requires k < |events| && events[k].CleanupTimerFires?
    ensures i < k && Clock(events[..k]) >= Clock(events[..i]) + CleanupBudget(o)
  {
    LegalAt(Resolve(o), events, k);
    AfterTheDecision(Resolve(o), events, i, k);
    assert DecidedAt(events[..k], i) && events[..k][..i] == events[..i];
    CleanupKeepsItsBudget(o, events[..k], i);
  }

  lemma {:induction false} AfterTheDecision(c: Config, events: seq<Event>, i: nat, k: nat)
    requires Legal(c, events) && DecidedAt(events, i)
    requires k < |events| && events[k].CleanupTimerFires?
    ensures i < k
  {
    LegalAt(c, events, k);
    TimersTell(c, events[..k]);
    var n: nat :| DecidedAt(events[..k], n);
    StillSignalled(events[..k], n, events);
    OneFirst(events, i, n);
  }

  lemma {:induction false} SettlesOnce(c: Config, events: seq<Event>, k: nat, j: nat)
    requires Legal(c, events) && k < j < |events| && events[k].CleanupSettles?
    ensures !events[j].CleanupSettles?
  {
    LegalAt(c, events, j);
    CallsTell(c, events[..j]);
    assert events[..j][k] == events[k];
  }

  // --- what is logged ----------------------------------------------------------

  /** Every event logs what it brings about and no more: the draining at the first signal, the
      deadline, a close that failed however late, and the end of a cleanup still awaited; with
      the completion where that ends the shutdown. */
  lemma {:induction false} EveryEventLogs(c: Config, events: seq<Event>, e: Event)
    requires Legal(c, events) && Enabled(Run(c, events), e)
    ensures Run(c, []).log == []
    ensures var log, ended := Run(c, events).log, !CleanupNeverEnded(events);
            Step(c, Run(c, events), e).log ==
            match e
            case Tick(_) => log
            case Signal => if NeverSignalled(events) then log + [Draining] else log
            case Deadline =>
              if c.hasCleanup then log + [DeadlineExceeded]
              else log + [DeadlineExceeded] + [Complete(DrainTimeout, DrainTimeout, 1)]
            case Closed(failed) =>
              var said := if failed then log + [CloseFailedLine] else log;
              if c.hasCleanup || !NeverDecided(events) then said
              else said + [if failed then Complete(CloseFailure, CloseFailure, 1) else Complete(Drained, Drained, 0)]
            case CleanupSettles(failed) =>
              if ended then log
              else if failed then log + [CleanupFailedLine] + [CompletionOf(events, Some(CleanupFailure))]
              else log + [CompletionOf(events, None)]
            case CleanupTimerFires => log + [CleanupTimedOutLine] + [CompletionOf(events, Some(CleanupTimeout))]
  {
    TimersTell(c, events);
    RunTracks(c, events);
    DrainIsDecided(events);
  }

  /** The completion line after a cleanup that failed so, or did not: what decided the exit code,
      how the drain went, and the code. */
  function CompletionOf(events: seq<Event>, failure: Option<Reason>): Line {
    var drain :=
      match FirstDrain(events)
      case Some(DrainedInTime) => Drained
      case Some(CloseFailed) => CloseFailure
      case _ => DrainTimeout;
    Complete(failure.GetOr(drain), drain, if failure.Some? || drain != Drained then 1 else 0)
  }
}
