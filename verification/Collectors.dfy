/** The bounded collector fan-out: lanes pulling collectors off one cursor, a timer
    for each, a deadline and a caller's signal for all, in any interleaving.

    The race of a collector against its signal is decided by one event (`Collects`,
    `Throws`, `TimesOut`, or the abort); the lane that awaited it resumes later, as a
    promise continuation does, and so does the `Promise.all` over the lanes. What
    happens in between may start further collectors, as it may in the source. */
module Collectors {
  import opened Text

  datatype Reason =
    | DeadlineReached
    | CallerLeft
    | CollectorFailed(index: nat, error: int)
    | CollectorTimedOut(index: nat)

  datatype Slot<T> =
    | Queued
    | Running
    | Won(value: T)
    | Lost(reason: Reason)
    | Stored(result: T)
    | Failed
    | Refused

  /** The results as the array they are put in: a slot nothing was stored in is a hole. */
  datatype Answer<T> = Returned(results: seq<Option<T>>) | Rejected(reason: Reason)

  /** A limit is resolved before it is used, to a positive whole number. */
  type Permits = n: int | n >= 1 witness 1

  datatype State<T> = State(
    lanes: nat,
    slots: seq<Slot<T>>,
    next: nat,
    started: seq<nat>,
    lanesDone: nat,
    lanesFailed: nat,
    aborted: Option<Reason>,
    rejection: Option<Reason>,
    answer: Option<Answer<T>>)

  datatype Event<T> =
    | Collects(index: nat, value: T)
    | Throws(index: nat, error: int)
    | TimesOut(index: nat)
    | DeadlinePasses
    | CallerLeaves
    | LaneResumes(index: nat)
    | Settles

  predicate Enabled<T>(s: State<T>, e: Event<T>) {
    match e
    case Collects(i, _) => i < |s.slots| && s.slots[i].Running?
    case Throws(i, _) => i < |s.slots| && s.slots[i].Running?
    case TimesOut(i) => i < |s.slots| && s.slots[i].Running?
    case DeadlinePasses => s.answer.None?
    case CallerLeaves => s.answer.None?
    case LaneResumes(i) => i < |s.slots| && (s.slots[i].Won? || s.slots[i].Lost?)
    case Settles => s.answer.None? && (s.rejection.Some? || s.lanesDone == s.lanes)
  }

  function Reject<T>(s: State<T>, reason: Reason): State<T> {
    s.(lanesFailed := s.lanesFailed + 1, rejection := if s.rejection.Some? then s.rejection else Some(reason))
  }

  /** One turn of a lane: the next collector off the cursor, unless the fan-out is
      already lost, in which case the collector is not invoked and the lane fails. */
  function Pull<T>(s: State<T>): State<T> {
    if s.next >= |s.slots| then s.(lanesDone := s.lanesDone + 1)
    else if s.aborted.Some?
    then Reject(s.(slots := s.slots[s.next := Refused], next := s.next + 1), s.aborted.value)
    else s.(slots := s.slots[s.next := Running], next := s.next + 1, started := s.started + [s.next])
  }

  function PullTimes<T>(s: State<T>, k: nat): State<T> {
    if k == 0 then s else Pull(PullTimes(s, k - 1))
  }

  function Idle<T>(collectors: nat, concurrency: Permits, callerGone: bool): State<T> {
    State(if concurrency < collectors then concurrency else collectors,
          seq(collectors, _ => Queued), 0, [], 0, 0,
          if callerGone then Some(CallerLeft) else None, None,
          if collectors == 0 then Some(Returned([])) else None)
  }

  /** One lane a permit, never more than there is work for, each taking its first turn. */
  function Start<T>(collectors: nat, concurrency: Permits, callerGone: bool): State<T> {
    var idle := Idle(collectors, concurrency, callerGone);
    PullTimes(idle, idle.lanes)
  }

  function LoseRunning<T>(slots: seq<Slot<T>>, reason: Reason): (lost: seq<Slot<T>>)
    ensures |lost| == |slots|
    ensures forall i :: 0 <= i < |slots| ==> lost[i] == (if slots[i].Running? then Lost(reason) else slots[i])
  {
    if slots == [] then []
    else
      var n := |slots| - 1;
      LoseRunning(slots[..n], reason) + [if slots[n].Running? then Lost(reason) else slots[n]]
  }

  function Abort<T>(s: State<T>, reason: Reason): State<T> {
    if s.aborted.Some? then s
    else s.(aborted := Some(reason), slots := LoseRunning(s.slots, reason))
  }

  function ResultsOf<T>(slots: seq<Slot<T>>): (results: seq<Option<T>>)
    ensures |results| == |slots|
    ensures forall i :: 0 <= i < |slots| ==> results[i] == (if slots[i].Stored? then Some(slots[i].result) else None)
  {
    if slots == [] then []
    else
      var n := |slots| - 1;
      ResultsOf(slots[..n]) + [if slots[n].Stored? then Some(slots[n].result) else None]
  }

  ghost predicate AllStored<T>(slots: seq<Slot<T>>) {
    forall i :: 0 <= i < |slots| ==> slots[i].Stored?
  }

  function Resume<T>(s: State<T>, i: nat): State<T>
    requires i < |s.slots|
  {
    match s.slots[i]
    case Won(value) => Pull(s.(slots := s.slots[i := Stored(value)]))
    case Lost(reason) => Reject(s.(slots := s.slots[i := Failed]), reason)
    case _ => s
  }

  /** What the `await Promise.all(…)` does: return every result, or cancel and rethrow. */
  function Settle<T>(s: State<T>): State<T> {
    if s.rejection.Some? then Abort(s, s.rejection.value).(answer := Some(Rejected(s.rejection.value)))
    else s.(answer := Some(Returned(ResultsOf(s.slots))))
  }

  function Step<T>(s: State<T>, e: Event<T>): State<T>
    requires Enabled(s, e)
  {
    match e
    case Collects(i, value) => s.(slots := s.slots[i := Won(value)])
    case Throws(i, error) => s.(slots := s.slots[i := Lost(CollectorFailed(i, error))])
    case TimesOut(i) => s.(slots := s.slots[i := Lost(CollectorTimedOut(i))])
    case DeadlinePasses => Abort(s, DeadlineReached)
    case CallerLeaves => Abort(s, CallerLeft)
    case LaneResumes(i) => Resume(s, i)
    case Settles => Settle(s)
  }

  datatype Fan = Fan(collectors: nat, concurrency: Permits, callerGone: bool)

  predicate Legal<T>(f: Fan, events: seq<Event<T>>)
    decreases |events|, 0
  {
    events == [] ||
    (Legal(f, events[..|events| - 1]) && Enabled(Run(f, events[..|events| - 1]), events[|events| - 1]))
  }

  function Run<T>(f: Fan, events: seq<Event<T>>): State<T>
    requires Legal(f, events)
    decreases |events|, 1
  {
    if events == [] then Start(f.collectors, f.concurrency, f.callerGone)
    else Step(Run(f, events[..|events| - 1]), events[|events| - 1])
  }

  // --- the invariant ---------------------------------------------------------

  predicate Flying<T>(slot: Slot<T>) {
    slot.Running? || slot.Won? || slot.Lost?
  }

  function InFlight<T>(slots: seq<Slot<T>>): nat {
    if slots == [] then 0
    else InFlight(slots[..|slots| - 1]) + (if Flying(slots[|slots| - 1]) then 1 else 0)
  }

  lemma {:induction false} InFlightUpdate<T>(slots: seq<Slot<T>>, i: nat, slot: Slot<T>)
    requires i < |slots|
    ensures InFlight(slots[i := slot]) ==
            InFlight(slots) - (if Flying(slots[i]) then 1 else 0) + (if Flying(slot) then 1 else 0)
  {
    var n := |slots| - 1;
    if i == n {
      assert slots[i := slot][..n] == slots[..n];
    } else {
      InFlightUpdate(slots[..n], i, slot);
      assert slots[i := slot][..n] == slots[..n][i := slot];
    }
  }

  lemma {:induction false} InFlightLost<T>(slots: seq<Slot<T>>, reason: Reason)
    ensures InFlight(LoseRunning(slots, reason)) == InFlight(slots)
  {
    if slots != [] {
      var n := |slots| - 1;
      InFlightLost(slots[..n], reason);
      assert LoseRunning(slots, reason)[..n] == LoseRunning(slots[..n], reason);
    }
  }

  lemma {:induction false} NoneInFlight<T>(slots: seq<Slot<T>>, i: nat)
    requires InFlight(slots) == 0 && i < |slots|
    ensures !Flying(slots[i])
  {
    if i < |slots| - 1 { NoneInFlight(slots[..|slots| - 1], i); }
  }

  lemma {:induction false} InFlightQueued<T>(slots: seq<Slot<T>>)
    requires forall i :: 0 <= i < |slots| ==> slots[i].Queued?
    ensures InFlight(slots) == 0
  {
    if slots != [] { InFlightQueued(slots[..|slots| - 1]); }
  }

  lemma {:induction false} SomeInFlight<T>(slots: seq<Slot<T>>) returns (i: nat)
    requires InFlight(slots) > 0
    ensures i < |slots| && Flying(slots[i])
  {
    var n := |slots| - 1;
    if Flying(slots[n]) { i := n; } else { i := SomeInFlight(slots[..n]); }
  }

  /** Where the cursor stands: everything behind it was pulled, what was started is the
      collectors in order, and nothing runs once the fan-out is aborted. */
  ghost predicate Cursor<T>(s: State<T>) {
    && s.next <= |s.slots|
    && (forall i :: 0 <= i < |s.slots| ==> (s.slots[i].Queued? <==> s.next <= i))
    && |s.started| <= s.next
    && (forall j :: 0 <= j < |s.started| ==> s.started[j] == j)
    && (s.aborted.None? ==> |s.started| == s.next)
    && (forall i :: 0 <= i < s.next ==> (s.slots[i].Refused? <==> |s.started| <= i))
    && (s.aborted.Some? ==> forall i :: 0 <= i < |s.slots| ==> !s.slots[i].Running?)
  }

  /** Every lane is at work on one collector, has run out of them, or has failed;
      `busy` lanes hold no slot at the moment because they are about to pull one. */
  ghost predicate Lanes<T>(s: State<T>, busy: nat) {
    && InFlight(s.slots) + s.lanesDone + s.lanesFailed + busy == s.lanes
    && (s.rejection.Some? <==> s.lanesFailed > 0)
    && (s.lanesDone > 0 ==> s.next == |s.slots|)
    && ((exists i :: 0 <= i < |s.slots| && (s.slots[i].Failed? || s.slots[i].Refused?)) ==> s.lanesFailed > 0)
  }

  ghost predicate Inv<T>(f: Fan, s: State<T>) {
    && |s.slots| == f.collectors
    && s.lanes == (if f.concurrency < f.collectors then f.concurrency else f.collectors)
    && Cursor(s) && Lanes(s, 0)
    && (s.answer.Some? && s.answer.value.Returned? ==>
          AllStored(s.slots) && s.answer.value.results == ResultsOf(s.slots))
    && (s.answer.Some? && s.answer.value.Rejected? ==>
          s.rejection == Some(s.answer.value.reason) && s.aborted.Some?)
  }

  lemma {:induction false} PullKeeps<T>(s: State<T>, busy: nat)
    requires Cursor(s) && Lanes(s, busy + 1)
    ensures Cursor(Pull(s)) && Lanes(Pull(s), busy)
  {
    if s.next < |s.slots| {
      InFlightUpdate(s.slots, s.next, if s.aborted.Some? then Refused else Running);
    }
  }

  lemma {:induction false} PullTimesKeeps<T>(s: State<T>, k: nat, busy: nat)
    requires Cursor(s) && Lanes(s, busy + k)
    ensures var t := PullTimes(s, k);
            && Cursor(t) && Lanes(t, busy)
            && |t.slots| == |s.slots| && t.lanes == s.lanes && t.answer == s.answer
  {
    if k > 0 {
      PullTimesKeeps(s, k - 1, busy + 1);
      PullKeeps(PullTimes(s, k - 1), busy);
    }
  }

  lemma {:induction false} IdleKeeps<T>(f: Fan, idle: State<T>)
    requires idle == Idle(f.collectors, f.concurrency, f.callerGone)
    ensures Cursor(idle) && Lanes(idle, idle.lanes)
  {
    InFlightQueued(idle.slots);
  }

  lemma {:induction false} UnansweredInv<T>(f: Fan, s: State<T>)
    requires |s.slots| == f.collectors && s.lanes == Idle<T>(f.collectors, f.concurrency, f.callerGone).lanes
    requires Cursor(s) && Lanes(s, 0)
    requires s.answer == if f.collectors == 0 then Some(Returned([])) else None
    ensures Inv(f, s)
  {
    if f.collectors == 0 { assert ResultsOf(s.slots) == []; }
  }

  lemma {:induction false} StartInv<T>(f: Fan, idle: State<T>, t: State<T>)
    requires idle == Idle(f.collectors, f.concurrency, f.callerGone)
    requires t == PullTimes(idle, idle.lanes)
    ensures Inv(f, t)
  {
    IdleKeeps(f, idle);
    PullTimesKeeps(idle, idle.lanes, 0);
    UnansweredInv(f, t);
  }

  lemma {:induction false} SlotKeeps<T>(f: Fan, s: State<T>, i: nat, slot: Slot<T>)
    requires Inv(f, s) && i < |s.slots| && s.slots[i].Running?
    requires slot.Won? || slot.Lost?
    ensures Inv(f, s.(slots := s.slots[i := slot]))
  {
    InFlightUpdate(s.slots, i, slot);
  }

  lemma {:induction false} AbortKeepsCursor<T>(s: State<T>, reason: Reason)
    requires Cursor(s)
    ensures Cursor(Abort(s, reason))
  {
  }

  lemma {:induction false} AbortKeepsLanes<T>(s: State<T>, reason: Reason)
    requires Lanes(s, 0)
    ensures Lanes(Abort(s, reason), 0)
  {
    InFlightLost(s.slots, reason);
    var t := Abort(s, reason);
    if i :| 0 <= i < |t.slots| && (t.slots[i].Failed? || t.slots[i].Refused?) {
      assert s.slots[i] == t.slots[i];
    }
  }

  lemma {:induction false} AbortKeeps<T>(f: Fan, s: State<T>, reason: Reason)
    requires Inv(f, s)
    ensures Inv(f, Abort(s, reason))
  {
    AbortKeepsCursor(s, reason);
    AbortKeepsLanes(s, reason);
    if AllStored(s.slots) { assert LoseRunning(s.slots, reason) == s.slots; }
  }

  lemma {:induction false} ResumeKeeps<T>(f: Fan, s: State<T>, i: nat)
    requires Inv(f, s) && i < |s.slots| && (s.slots[i].Won? || s.slots[i].Lost?)
    ensures Inv(f, Resume(s, i))
  {
    var slot := if s.slots[i].Won? then Stored(s.slots[i].value) else Failed;
    InFlightUpdate(s.slots, i, slot);
    var t := s.(slots := s.slots[i := slot]);
    if s.slots[i].Won? {
      assert Lanes(t, 1);
      PullKeeps(t, 0);
    }
  }

  /** Once every lane has run out of collectors and none failed, nothing is missing: the
      array that is returned has no hole. */
  lemma {:induction false} LanesDoneMeansStored<T>(f: Fan, s: State<T>)
    requires Inv(f, s) && s.lanesDone == s.lanes
    ensures AllStored(s.slots)
  {
    forall i | 0 <= i < |s.slots| ensures s.slots[i].Stored? {
      NoneInFlight(s.slots, i);
    }
  }

  lemma {:induction false} SettleKeeps<T>(f: Fan, s: State<T>)
    requires Inv(f, s) && Enabled(s, Settles)
    ensures Inv(f, Settle(s))
  {
    if s.rejection.Some? { AbortKeeps(f, s, s.rejection.value); } else { LanesDoneMeansStored(f, s); }
  }

  lemma {:induction false} StepKeeps<T>(f: Fan, s: State<T>, e: Event<T>)
    requires Inv(f, s) && Enabled(s, e)
    ensures Inv(f, Step(s, e))
  {
    match e
    case Collects(i, value) => SlotKeeps(f, s, i, Won(value));
    case Throws(i, error) => SlotKeeps(f, s, i, Lost(CollectorFailed(i, error)));
    case TimesOut(i) => SlotKeeps(f, s, i, Lost(CollectorTimedOut(i)));
    case DeadlinePasses => AbortKeeps(f, s, DeadlineReached);
    case CallerLeaves => AbortKeeps(f, s, CallerLeft);
    case LaneResumes(i) => ResumeKeeps(f, s, i);
    case Settles => SettleKeeps(f, s);
  }

  lemma {:induction false} RunInv<T>(f: Fan, events: seq<Event<T>>)
    requires Legal(f, events)
    ensures Inv(f, Run(f, events))
  {
    if events == [] {
      var idle: State<T> := Idle(f.collectors, f.concurrency, f.callerGone);
      StartInv(f, idle, PullTimes(idle, idle.lanes));
    } else {
      var before := events[..|events| - 1];
      RunInv(f, before);
      StepKeeps(f, Run(f, before), events[|events| - 1]);
    }
  }

  // --- what every run keeps --------------------------------------------------

  lemma {:induction false} RunningAreFlying<T>(slots: seq<Slot<T>>)
    ensures Count(slots) <= InFlight(slots)
  {
    if slots != [] { RunningAreFlying(slots[..|slots| - 1]); }
  }

  /** How many collectors are running. */
  function Count<T>(slots: seq<Slot<T>>): nat {
    if slots == [] then 0
    else Count(slots[..|slots| - 1]) + (if slots[|slots| - 1].Running? then 1 else 0)
  }

  /** At most `concurrency` collectors run at once; they are started in collector order,
      each at most once. */
  lemma {:induction false} NeverMoreThanTheLimit<T>(f: Fan, events: seq<Event<T>>)
    requires Legal(f, events)
    ensures var s := Run(f, events);
            && Count(s.slots) <= InFlight(s.slots) <= f.concurrency
            && |s.started| <= f.collectors
            && forall j :: 0 <= j < |s.started| ==> s.started[j] == j
  {
    RunInv(f, events);
    RunningAreFlying(Run(f, events).slots);
  }

  /** Once the fan-out is aborted — the deadline, the caller, or a failure that has been
      handled — no collector is invoked any more, and none is left running. */
  lemma {:induction false} NoneStartedOnceLost<T>(f: Fan, events: seq<Event<T>>, e: Event<T>)
    requires Legal(f, events) && Enabled(Run(f, events), e)
    requires Run(f, events).aborted.Some?
    ensures Step(Run(f, events), e).started == Run(f, events).started
    ensures Step(Run(f, events), e).aborted == Run(f, events).aborted
    ensures Count(Run(f, events).slots) == 0
  {
    RunInv(f, events);
    NoneRunning(Run(f, events).slots);
  }

  /** A turn starts a collector exactly when a lane stores a result while the fan-out is
      not aborted and the cursor has not reached the end; a failure that the await has
      not handled yet does not prevent it. */
  lemma {:induction false} StartsExactlyWhen<T>(f: Fan, events: seq<Event<T>>, e: Event<T>)
    requires Legal(f, events) && Enabled(Run(f, events), e)
    ensures var s := Run(f, events);
            Step(s, e).started ==
              if e.LaneResumes? && s.slots[e.index].Won? && s.aborted.None? && s.next < f.collectors
              then s.started + [s.next] else s.started
  {
    RunInv(f, events);
  }

  /** Such a run: of three collectors under a limit of two the first fails, the second
      collects, and before the await has handled the failure the second's lane goes on —
      and starts the third. */
  lemma {:induction false} AThirdStartsAfterAFailure()
    ensures var f := Fan(3, 2, false);
            var events: seq<Event<int>> := [Throws(0, 7), Collects(1, 5), LaneResumes(0)];
            && Legal(f, events) && Legal(f, events + [LaneResumes(1)])
            && Run(f, events).rejection == Some(CollectorFailed(0, 7)) && Run(f, events).aborted.None?
            && Run(f, events).started == [0, 1]
            && Run(f, events + [LaneResumes(1)]).started == [0, 1, 2]
  {
    var f := Fan(3, 2, false);
    var two := [Throws(0, 7), Collects(1, 5)];
    var s0: State<int> := State(2, [Running, Running, Queued], 2, [0, 1], 0, 0, None, None, None);
    var s2 := s0.(slots := [Lost(CollectorFailed(0, 7)), Won(5), Queued]);
    var s3 := s2.(slots := [Failed, Won(5), Queued], lanesFailed := 1, rejection := Some(CollectorFailed(0, 7)));
    TwoStart(f, s0);
    GoesOn(f, [], Throws(0, 7), s0, s0.(slots := [Lost(CollectorFailed(0, 7)), Running, Queued]), [Throws(0, 7)]);
    GoesOn(f, [Throws(0, 7)], Collects(1, 5), s0.(slots := [Lost(CollectorFailed(0, 7)), Running, Queued]), s2, two);
    GoesOn(f, two, LaneResumes(0), s2, s3, two + [LaneResumes(0)]);
    GoesOn(f, two + [LaneResumes(0)], LaneResumes(1), s3, Step(s3, LaneResumes(1)), two + [LaneResumes(0)] + [LaneResumes(1)]);
    assert two + [LaneResumes(0)] == [Throws(0, 7), Collects(1, 5), LaneResumes(0)];
  }

  lemma {:induction false} TwoStart(f: Fan, s: State<int>)
    requires f == Fan(3, 2, false)
    requires s == State(2, [Running, Running, Queued], 2, [0, 1], 0, 0, None, None, None)
    ensures Legal<int>(f, []) && Run(f, []) == s
  {
    var idle: State<int> := Idle(3, 2, false);
    assert PullTimes(idle, 2) == Pull(Pull(idle));
  }

  lemma {:induction false} GoesOn<T>(f: Fan, events: seq<Event<T>>, e: Event<T>, s: State<T>, t: State<T>,
                                     all: seq<Event<T>>)
    requires Legal(f, events) && Run(f, events) == s && Enabled(s, e)
    requires t == Step(s, e) && all == events + [e]
    ensures Legal(f, all) && Run(f, all) == t
  {
    assert all[..|events|] == events;
  }

  lemma {:induction false} NoneRunning<T>(slots: seq<Slot<T>>)
    requires forall i :: 0 <= i < |slots| ==> !slots[i].Running?
    ensures Count(slots) == 0
  {
    if slots != [] { NoneRunning(slots[..|slots| - 1]); }
  }

  /** The values in the slots are the ones their collectors gave. */
  ghost predicate Produced<T>(s: State<T>, events: seq<Event<T>>) {
    && (forall i :: 0 <= i < |s.slots| && s.slots[i].Won? ==> Collects(i, s.slots[i].value) in events)
    && (forall i :: 0 <= i < |s.slots| && s.slots[i].Stored? ==> Collects(i, s.slots[i].result) in events)
  }

  ghost predicate Caused<T>(f: Fan, reason: Reason, events: seq<Event<T>>) {
    match reason
    case DeadlineReached => DeadlinePasses in events
    case CallerLeft => f.callerGone || CallerLeaves in events
    case CollectorFailed(i, error) => Throws(i, error) in events
    case CollectorTimedOut(i) => TimesOut(i) in events
  }

  ghost predicate Blamed<T>(f: Fan, s: State<T>, events: seq<Event<T>>) {
    && (s.aborted.Some? ==> Caused(f, s.aborted.value, events))
    && (s.rejection.Some? ==> Caused(f, s.rejection.value, events))
    && (forall i :: 0 <= i < |s.slots| && s.slots[i].Lost? ==> Caused(f, s.slots[i].reason, events))
  }

  lemma {:induction false} StartHistory<T>(s: State<T>, k: nat, f: Fan)
    requires s.rejection.None? && (s.aborted.Some? ==> f.callerGone && s.aborted.value == CallerLeft)
    requires forall i :: 0 <= i < |s.slots| ==> s.slots[i].Queued?
    ensures var t := PullTimes(s, k);
            && t.aborted == s.aborted
            && (t.rejection.Some? ==> f.callerGone && t.rejection.value == CallerLeft)
            && forall i :: 0 <= i < |t.slots| ==> t.slots[i].Queued? || t.slots[i].Running? || t.slots[i].Refused?
  {
    if k > 0 { StartHistory(s, k - 1, f); }
  }

  lemma {:induction false} ProducedStep<T>(s: State<T>, events: seq<Event<T>>, e: Event<T>, all: seq<Event<T>>)
    requires Produced(s, events) && Enabled(s, e) && all == events + [e]
    ensures Produced(Step(s, e), all)
  {
    assert e in all;
  }

  lemma {:induction false} BlamedStep<T>(f: Fan, s: State<T>, events: seq<Event<T>>, e: Event<T>, all: seq<Event<T>>)
    requires Blamed(f, s, events) && Enabled(s, e) && all == events + [e]
    ensures Blamed(f, Step(s, e), all)
  {
    assert e in all;
  }

  lemma {:induction false} RunHistory<T>(f: Fan, events: seq<Event<T>>)
    requires Legal(f, events)
    ensures Produced(Run(f, events), events) && Blamed(f, Run(f, events), events)
  {
    if events == [] {
      var idle: State<T> := Idle(f.collectors, f.concurrency, f.callerGone);
      StartHistory(idle, idle.lanes, f);
    } else {
      var before, e := events[..|events| - 1], events[|events| - 1];
      RunHistory(f, before);
      ProducedStep(Run(f, before), before, e, events);
      BlamedStep(f, Run(f, before), before, e, events);
    }
  }

  /** How the lane that goes on fails, if it does: as its collector did, or because it was
      to start another in a fan-out already lost. */
  function LaneFailure<T>(s: State<T>, e: Event<T>): Option<Reason> {
    if !e.LaneResumes? || e.index >= |s.slots| then None
    else if s.slots[e.index].Lost? then Some(s.slots[e.index].reason)
    else if s.slots[e.index].Won? && s.next < |s.slots| then s.aborted
    else None
  }

  /** The failure of the first lane that failed. */
  function FirstLaneFailure<T>(f: Fan, events: seq<Event<T>>): Option<Reason>
    requires Legal(f, events)
    decreases |events|
  {
    if events == [] then if f.callerGone && f.collectors > 0 then Some(CallerLeft) else None
    else
      var before := events[..|events| - 1];
      var earlier := FirstLaneFailure(f, before);
      if earlier.Some? then earlier else LaneFailure(Run(f, before), events[|events| - 1])
  }

  lemma {:induction false} StartRejects<T>(s: State<T>, k: nat)
    requires s.rejection.None?
    ensures s.aborted.None? ==> PullTimes(s, k).rejection.None?
    ensures s.aborted.Some? && k > 0 && s.next < |s.slots| ==> PullTimes(s, k).rejection == s.aborted
    ensures PullTimes(s, k).aborted == s.aborted
    ensures k == 0 || s.next >= |s.slots| ==> PullTimes(s, k).rejection.None?
    ensures s.next >= |s.slots| ==> PullTimes(s, k).next == s.next && PullTimes(s, k).slots == s.slots
  {
    if k > 0 { StartRejects(s, k - 1); }
  }

  lemma {:induction false} StepRejects<T>(s: State<T>, e: Event<T>)
    requires Enabled(s, e)
    ensures Step(s, e).rejection == if s.rejection.Some? then s.rejection else LaneFailure(s, e)
  {
  }

  lemma {:induction false} RejectsWithTheFirst<T>(f: Fan, events: seq<Event<T>>)
    requires Legal(f, events)
    ensures Run(f, events).rejection == FirstLaneFailure(f, events)
  {
    if events == [] {
      var idle: State<T> := Idle(f.collectors, f.concurrency, f.callerGone);
      StartRejects(idle, idle.lanes);
    } else {
      var before := events[..|events| - 1];
      RejectsWithTheFirst(f, before);
      StepRejects(Run(f, before), events[|events| - 1]);
    }
  }

  /** How many collectors have no result stored yet. */
  function NotStored<T>(slots: seq<Slot<T>>): nat {
    if slots == [] then 0
    else NotStored(slots[..|slots| - 1]) + (if slots[|slots| - 1].Stored? then 0 else 1)
  }

  lemma {:induction false} FlyingAreNotStored<T>(slots: seq<Slot<T>>)
    ensures InFlight(slots) <= NotStored(slots) <= |slots|
    ensures (forall i :: 0 <= i < |slots| ==> Flying(slots[i]) || slots[i].Stored?) ==>
              InFlight(slots) == NotStored(slots)
  {
    if slots != [] { FlyingAreNotStored(slots[..|slots| - 1]); }
  }

  lemma {:induction false} NoneQueuedOrFailed<T>(s: State<T>)
    requires Cursor(s) && Lanes(s, 0) && s.rejection.None? && s.lanesDone > 0
    ensures forall i :: 0 <= i < |s.slots| ==> Flying(s.slots[i]) || s.slots[i].Stored?
  {
  }

  /** While no lane has failed every permit is in use: the collectors in flight are as many as
      the limit, or all that have no result yet where they are fewer. */
  lemma {:induction false} TheLimitIsUsed<T>(f: Fan, events: seq<Event<T>>)
    requires Legal(f, events) && FirstLaneFailure(f, events).None?
    ensures var slots := Run(f, events).slots;
            InFlight(slots) == if f.concurrency < NotStored(slots) then f.concurrency else NotStored(slots)
  {
    var s := Run(f, events);
    RunInv(f, events);
    RejectsWithTheFirst(f, events);
    FlyingAreNotStored(s.slots);
    if s.lanesDone > 0 { NoneQueuedOrFailed(s); }
  }

  lemma {:induction false} PullsInOrder<T>(s: State<T>, k: nat)
    requires s.next == 0 && s.started == [] && s.aborted.None? && k <= |s.slots|
    requires forall i :: 0 <= i < |s.slots| ==> s.slots[i].Queued?
    ensures var t := PullTimes(s, k);
            && t.next == k && t.aborted.None? && |t.slots| == |s.slots| && |t.started| == k
            && (forall i :: 0 <= i < k ==> t.started[i] == i)
            && forall i :: 0 <= i < |t.slots| ==> t.slots[i] == if i < k then Running else Queued
  {
    if k > 0 { PullsInOrder(s, k - 1); }
  }

  /** With the caller still there the first collectors, as many as the limit has room for, are
      started at once, and no other. */
  lemma {:induction false} TheFirstStartAtOnce<T>(f: Fan)
    requires !f.callerGone
    ensures Legal<T>(f, [])
    ensures var s: State<T>, n := Run(f, []), if f.concurrency < f.collectors then f.concurrency else f.collectors;
            && |s.slots| == f.collectors && |s.started| == n
            && (forall i :: 0 <= i < n ==> s.started[i] == i)
            && forall i :: 0 <= i < |s.slots| ==> s.slots[i] == if i < n then Running else Queued
  {
    var idle: State<T> := Idle(f.collectors, f.concurrency, f.callerGone);
    PullsInOrder(idle, idle.lanes);
  }

  /** What first ended the fan-out, if anything has: the caller having left, the deadline, or
      the lanes' failure being handled. */
  function FirstAbort<T>(f: Fan, events: seq<Event<T>>): Option<Reason>
    requires Legal(f, events)
    decreases |events|
  {
    if events == [] then if f.callerGone then Some(CallerLeft) else None
    else
      var before := events[..|events| - 1];
      var earlier := FirstAbort(f, before);
      if earlier.Some? then earlier
      else
        match events[|events| - 1]
        case DeadlinePasses => Some(DeadlineReached)
        case CallerLeaves => Some(CallerLeft)
        case Settles => FirstLaneFailure(f, before)
        case _ => None
  }

  lemma {:induction false} PullsAbortNothing<T>(s: State<T>, k: nat)
    ensures PullTimes(s, k).aborted == s.aborted
  {
    if k > 0 { PullsAbortNothing(s, k - 1); }
  }

  lemma {:induction false} AbortedStep<T>(s: State<T>, e: Event<T>)
    requires Enabled(s, e)
    ensures Step(s, e).aborted ==
            if s.aborted.Some? then s.aborted
            else match e
              case DeadlinePasses => Some(DeadlineReached)
              case CallerLeaves => Some(CallerLeft)
              case Settles => s.rejection
              case _ => None
  {
  }

  lemma {:induction false} AbortedForTheFirst<T>(f: Fan, events: seq<Event<T>>)
    requires Legal(f, events)
    ensures Run(f, events).aborted == FirstAbort(f, events)
  {
    if events == [] {
      var idle: State<T> := Idle(f.collectors, f.concurrency, f.callerGone);
      PullsAbortNothing(idle, idle.lanes);
    } else {
      var before := events[..|events| - 1];
      AbortedForTheFirst(f, before);
      RejectsWithTheFirst(f, before);
      AbortedStep(Run(f, before), events[|events| - 1]);
    }
  }

  /** A fan-out is ended by the first of those, and by nothing else; what was running then is
      lost for that reason. */
  lemma {:induction false} EndedByTheFirst<T>(f: Fan, events: seq<Event<T>>, e: Event<T>)
    requires Legal(f, events) && Enabled(Run(f, events), e)
    ensures Run(f, events).aborted == FirstAbort(f, events)
    ensures FirstAbort(f, events).None? && (e.DeadlinePasses? || e.CallerLeaves?) ==>
              var slots, after := Run(f, events).slots, Step(Run(f, events), e).slots;
              && |after| == |slots|
              && forall i :: 0 <= i < |slots| ==>
                   after[i] == if slots[i].Running? then Lost(if e.CallerLeaves? then CallerLeft else DeadlineReached)
                               else slots[i]
  {
    AbortedForTheFirst(f, events);
  }

  /** A race is lost for its own collector's reason, or for the fan-out's. */
  ghost predicate Attributed<T>(s: State<T>) {
    forall i :: 0 <= i < |s.slots| && s.slots[i].Lost? ==>
      match s.slots[i].reason
      case CollectorFailed(index, _) => index == i || s.aborted == Some(s.slots[i].reason)
      case CollectorTimedOut(index) => index == i || s.aborted == Some(s.slots[i].reason)
      case _ => s.aborted == Some(s.slots[i].reason)
  }

  lemma {:induction false} AttributedStep<T>(s: State<T>, e: Event<T>)
    requires Attributed(s) && Enabled(s, e)
    ensures Attributed(Step(s, e))
  {
  }

  lemma {:induction false} StartAttributed<T>(s: State<T>, k: nat)
    requires forall i :: 0 <= i < |s.slots| ==> !s.slots[i].Lost?
    ensures forall i :: 0 <= i < |PullTimes(s, k).slots| ==> !PullTimes(s, k).slots[i].Lost?
  {
    if k > 0 { StartAttributed(s, k - 1); }
  }

  /** In every run a collector is lost as it failed itself, or as the fan-out was. */
  lemma {:induction false} LostForOneOfTwoReasons<T>(f: Fan, events: seq<Event<T>>)
    requires Legal(f, events)
    ensures Attributed(Run(f, events))
  {
    if events == [] {
      var idle: State<T> := Idle(f.collectors, f.concurrency, f.callerGone);
      StartAttributed(idle, idle.lanes);
    } else {
      var before := events[..|events| - 1];
      LostForOneOfTwoReasons(f, before);
      AttributedStep(Run(f, before), events[|events| - 1]);
    }
  }

  /** Every collector's own result, in collector order, with no hole; or the failure that is
      first, which some event caused. */
  ghost predicate AllOrNothing<T>(f: Fan, answer: Answer<T>, first: Option<Reason>, events: seq<Event<T>>) {
    match answer
    case Returned(results) =>
      && |results| == f.collectors
      && forall i :: 0 <= i < |results| ==> results[i].Some? && Collects(i, results[i].value) in events
    case Rejected(reason) => first == Some(reason) && Caused(f, reason, events)
  }

  lemma {:induction false} AnswerIsAllOrNothing<T>(f: Fan, s: State<T>, events: seq<Event<T>>)
    requires Inv(f, s) && Produced(s, events) && Blamed(f, s, events) && s.answer.Some?
    ensures AllOrNothing(f, s.answer.value, s.rejection, events)
  {
  }

  /** An answer is all or nothing, and a failure is that of the first lane that failed. */
  lemma {:induction false} NeverPartial<T>(f: Fan, events: seq<Event<T>>)
    requires Legal(f, events) && Run(f, events).answer.Some?
    ensures AllOrNothing(f, Run(f, events).answer.value, FirstLaneFailure(f, events), events)
  {
    RunInv(f, events);
    RunHistory(f, events);
    RejectsWithTheFirst(f, events);
    AnswerIsAllOrNothing(f, Run(f, events), events);
  }

  /** Only collectors settling, lanes going on, and the lanes settling together. */
  ghost predicate Undisturbed<T>(events: seq<Event<T>>) {
    forall e :: e in events ==> e.Collects? || e.LaneResumes? || e.Settles?
  }

  lemma {:induction false} NothingToBlame<T>(f: Fan, s: State<T>, events: seq<Event<T>>)
    requires Blamed(f, s, events) && !f.callerGone && Undisturbed(events)
    ensures s.rejection.None?
  {
  }

  lemma {:induction false} SettlesReturning<T>(s: State<T>)
    requires s.rejection.None? && Enabled(s, Settles)
    ensures Step(s, Settles).answer.Some? && Step(s, Settles).answer.value.Returned?
  {
  }

  /** When nothing throws, times out or aborts, awaiting the lanes returns the results. */
  lemma {:induction false} UndisturbedReturns<T>(f: Fan, events: seq<Event<T>>)
    requires Legal(f, events) && !f.callerGone && Undisturbed(events)
    requires Enabled(Run(f, events), Settles)
    ensures Step(Run(f, events), Settles).answer.Some?
    ensures Step(Run(f, events), Settles).answer.value.Returned?
  {
    RunHistory(f, events);
    NothingToBlame(f, Run(f, events), events);
    SettlesReturning(Run(f, events));
  }

  lemma {:induction false} AnswerKept<T>(s: State<T>, e: Event<T>)
    requires s.answer.Some? && Enabled(s, e)
    ensures Step(s, e).answer == s.answer
  {
  }

  lemma {:induction false} LegalPrefix<T>(f: Fan, events: seq<Event<T>>, more: seq<Event<T>>)
    requires Legal(f, events + more)
    ensures Legal(f, events)
    decreases |more|
  {
    if more == [] {
      assert events + more == events;
    } else {
      assert (events + more)[..|events + more| - 1] == events + more[..|more| - 1];
      LegalPrefix(f, events, more[..|more| - 1]);
    }
  }

  /** Nothing that happens after the answer changes it, however long the run goes on. */
  lemma {:induction false} AnswerStands<T>(f: Fan, events: seq<Event<T>>, more: seq<Event<T>>)
    requires Legal(f, events + more) && Legal(f, events) && Run(f, events).answer.Some?
    ensures Run(f, events + more).answer == Run(f, events).answer
    decreases |more|
  {
    if more == [] {
      assert events + more == events;
    } else {
      var all, init := events + more, more[..|more| - 1];
      assert all[..|all| - 1] == events + init && all[|all| - 1] == more[|more| - 1];
      AnswerStands(f, events, init);
      AnswerKept(Run(f, events + init), more[|more| - 1]);
    }
  }

  /** While there is no answer some collector is still out, or the await can settle; and the
      deadline can pass and the caller leave at any moment. */
  lemma {:induction false} NeverStuck<T>(f: Fan, events: seq<Event<T>>)
    requires Legal(f, events)
    requires Run(f, events).answer.None?
    ensures var s := Run(f, events);
            Enabled(s, Settles) || exists i: nat :: Enabled(s, TimesOut(i)) || Enabled(s, LaneResumes(i))
    ensures Enabled(Run(f, events), DeadlinePasses) && Enabled(Run(f, events), CallerLeaves)
    ensures Enabled(Run(f, events), Settles) ==> Step(Run(f, events), Settles).answer.Some?
  {
    RunInv(f, events);
    var s := Run(f, events);
    if InFlight(s.slots) > 0 {
      var i := SomeInFlight(s.slots);
      assert Enabled(s, TimesOut(i)) || Enabled(s, LaneResumes(i));
    }
  }

  /** What is left to do, slot by slot. */
  function Work<T>(slots: seq<Slot<T>>): nat {
    if slots == [] then 0
    else Work(slots[..|slots| - 1]) + Weight(slots[|slots| - 1])
  }

  function Weight<T>(slot: Slot<T>): nat {
    match slot
    case Queued => 3
    case Running => 2
    case Won(_) => 1
    case Lost(_) => 1
    case _ => 0
  }

  lemma {:induction false} WorkUpdate<T>(slots: seq<Slot<T>>, i: nat, slot: Slot<T>)
    requires i < |slots|
    ensures Work(slots[i := slot]) == Work(slots) - Weight(slots[i]) + Weight(slot)
  {
    var n := |slots| - 1;
    if i == n {
      assert slots[i := slot][..n] == slots[..n];
    } else {
      WorkUpdate(slots[..n], i, slot);
      assert slots[i := slot][..n] == slots[..n][i := slot];
    }
  }

  /** Every event but a timer or a signal that finds the fan-out aborted leaves less to
      do, so a fan-out whose collectors are each timed ends. */
  lemma {:induction false} EveryTurnIsProgress<T>(f: Fan, events: seq<Event<T>>, e: Event<T>)
    requires Legal(f, events) && Enabled(Run(f, events), e)
    requires e.Collects? || e.Throws? || e.TimesOut? || e.LaneResumes?
    ensures Work(Step(Run(f, events), e).slots) < Work(Run(f, events).slots)
  {
    RunInv(f, events);
    if e.LaneResumes? {
      ResumeIsProgress(Run(f, events), e.index);
    } else {
      var s := Run(f, events);
      WorkUpdate(s.slots, e.index, Step(s, e).slots[e.index]);
    }
  }

  lemma {:induction false} PullIsProgress<T>(s: State<T>)
    requires s.next < |s.slots| ==> s.slots[s.next].Queued?
    ensures Work(Pull(s).slots) <= Work(s.slots)
  {
    if s.next < |s.slots| {
      WorkUpdate(s.slots, s.next, if s.aborted.Some? then Refused else Running);
    }
  }

  lemma {:induction false} ResumeIsProgress<T>(s: State<T>, i: nat)
    requires Cursor(s) && i < |s.slots| && (s.slots[i].Won? || s.slots[i].Lost?)
    ensures Work(Resume(s, i).slots) < Work(s.slots)
  {
    var slot := if s.slots[i].Won? then Stored(s.slots[i].value) else Failed;
    WorkUpdate(s.slots, i, slot);
    if s.slots[i].Won? { PullIsProgress(s.(slots := s.slots[i := slot])); }
  }

  // --- the runner as it is: a results array, a cursor, an abort controller -----

  class CollectorRunner<T> {
    const lanes: nat
    var slots: seq<Slot<T>>
    var next: nat
    var started: seq<nat>
    var lanesDone: nat
    var lanesFailed: nat
    var aborted: Option<Reason>
    var rejection: Option<Reason>
    var answer: Option<Answer<T>>

    ghost function View(): State<T>
      reads this
    {
      State(lanes, slots, next, started, lanesDone, lanesFailed, aborted, rejection, answer)
    }

    /** `runCollectors`, up to its await: one lane a permit, each taking its first turn. */
    constructor (collectors: nat, concurrency: Permits, callerGone: bool)
      ensures View() == Start(collectors, concurrency, callerGone)
    {
      lanes := if concurrency < collectors then concurrency else collectors;
      slots := seq(collectors, _ => Queued);
      next, started, lanesDone, lanesFailed := 0, [], 0, 0;
      aborted := if callerGone then Some(CallerLeft) else None;
      rejection := None;
      answer := if collectors == 0 then Some(Returned([])) else None;
      new;
      ghost var idle := View();
      for k := 0 to lanes
        invariant View() == PullTimes(idle, k)
      {
        LaneTurn();
      }
    }

    method LaneTurn()
      modifies this
      ensures View() == Pull(old(View()))
    {
      if next >= |slots| {
        lanesDone := lanesDone + 1;
        return;
      }
      var index := next;
      next := next + 1;
      if aborted.Some? {
        slots := slots[index := Refused];
        LaneFails(aborted.value);
      } else {
        slots := slots[index := Running];
        started := started + [index];
      }
    }

    method LaneFails(reason: Reason)
      modifies this
      ensures View() == Reject(old(View()), reason)
    {
      lanesFailed := lanesFailed + 1;
      if rejection.None? { rejection := Some(reason); }
    }

    method RaceWon(index: nat, value: T)
      requires Enabled(View(), Collects(index, value))
      modifies this
      ensures View() == Step(old(View()), Collects(index, value))
    {
      slots := slots[index := Won(value)];
    }

    method RaceLost(index: nat, error: int)
      requires Enabled(View(), Throws(index, error))
      modifies this
      ensures View() == Step(old(View()), Throws(index, error))
    {
      slots := slots[index := Lost(CollectorFailed(index, error))];
    }

    method CollectorTimer(index: nat)
      requires Enabled(View(), TimesOut(index))
      modifies this
      ensures View() == Step(old(View()), TimesOut(index))
    {
      slots := slots[index := Lost(CollectorTimedOut(index))];
    }

    /** `fanOut.abort(reason)`: every collector's signal hangs off it. */
    method AbortFanOut(reason: Reason)
      modifies this
      ensures View() == Abort(old(View()), reason)
    {
      if aborted.Some? { return; }
      aborted := Some(reason);
      var lost: seq<Slot<T>> := [];
      for k := 0 to |slots|
        invariant slots == old(slots)
        invariant lost == LoseRunning(slots[..k], reason)
        invariant View() == old(View()).(aborted := Some(reason))
      {
        assert slots[..k + 1][..k] == slots[..k];
        lost := lost + [if slots[k].Running? then Lost(reason) else slots[k]];
      }
      assert slots[..|slots|] == slots;
      slots := lost;
    }

    method LaneContinues(index: nat)
      requires Enabled(View(), LaneResumes(index))
      modifies this
      ensures View() == Step(old(View()), LaneResumes(index))
    {
      match slots[index] {
        case Won(value) =>
          slots := slots[index := Stored(value)];
          LaneTurn();
        case Lost(reason) =>
          slots := slots[index := Failed];
          LaneFails(reason);
        case _ =>
      }
    }

    method AwaitSettles()
      requires Enabled(View(), Settles)
      modifies this
      ensures View() == Step(old(View()), Settles)
    {
      if rejection.Some? {
        AbortFanOut(rejection.value);
        answer := Some(Rejected(rejection.value));
      } else {
        answer := Some(Returned(ResultsOf(slots)));
      }
    }
  }
}
