/** What the read-back's timers and counters stand for, read off whole runs: how long a re-check
    waits, which answers a read that reached nothing is weighed against, and what a late answer
    is refused for. */
module ReadBackHistories {
  import opened Text
  import opened ReadBack
  import opened ReadBackRuns

  // --- the start ---------------------------------------------------------------

  /** A share of the interval, from half of it to all of it. */
  function Share(interval: real, draw: Option<real>): real {
    if draw.None? || draw.value >= 1.0 then interval
    else if draw.value <= 0.0 then interval / 2.0
    else interval / 2.0 + interval * draw.value / 2.0
  }

  lemma {:induction false} DrawnIsTheShare(interval: real, draw: Option<real>)
    requires interval >= 0.0
    ensures DrawWait(interval, draw) == Share(interval, draw)
  {
    if draw.Some? {
      var d := draw.value;
      assert interval * (0.5 + 0.5 * d) == interval / 2.0 + interval * d / 2.0;
    }
  }

  /** With its set just pushed and read back the read-back begins a run: nothing is refused, no
      check is out, and the first is due a drawn share of the interval later. */
  lemma {:induction false} CreatedBeginsARun(pushed: PolicySet, interval: real, draw: Option<real>, now: real,
                                             later: real)
    requires interval >= 1000.0
    ensures var rb := Create(pushed, interval, draw, now);
            && Execution([System(rb, pushed, now, map[], {}, {}, None, None)], [])
            && rb.answeredCalls == rb.countedCalls && rb.begun.None? && rb.interval == interval
            && (Poll(rb, later).check.Reading? <==> later - now >= Share(interval, draw))
  {
    DrawnIsTheShare(interval, draw);
  }

  // --- when a check is due -------------------------------------------------------

  /** A check begins with this event. */
  ghost predicate Begins(states: seq<System>, k: nat)
    requires k + 1 < |states|
  {
    states[k].rb.check.Idle? && states[k + 1].rb.check.Reading?
  }

  /** When the last check began, as far as this state goes back. */
  ghost function LastBegan(states: seq<System>, k: nat): real
    requires k < |states|
  {
    if k == 0 then states[0].rb.lastCheck
    else if Begins(states, k - 1) then states[k - 1].now
    else LastBegan(states, k - 1)
  }

  lemma {:induction false} LastCheckStep(s: System, e: Event, t: System)
    requires Coherent(s) && Enabled(s, e) && t == Step(s, e)
    ensures t.rb.lastCheck == if s.rb.check.Idle? && t.rb.check.Reading? then s.now else s.rb.lastCheck
  {
  }

  lemma {:induction false} LastCheckIsTheLastBegun(states: seq<System>, events: seq<Event>, k: nat)
    requires Execution(states, events) && k < |states|
    ensures states[k].rb.lastCheck == LastBegan(states, k)
  {
    if k > 0 {
      LastCheckIsTheLastBegun(states, events, k - 1);
      AlwaysCoherent(states, events, k - 1);
      LastCheckStep(states[k - 1], events[k - 1], states[k]);
    }
  }

  /** How many checks began from `i` up to `j`. */
  ghost function Begun(states: seq<System>, i: nat, j: nat): nat
    requires i <= j < |states|
    decreases j
  {
    if i == j then 0 else Begun(states, i, j - 1) + (if Begins(states, j - 1) then 1 else 0)
  }

  /** A second, doubled so often. */
  function SecondDoubled(n: nat): (ms: real)
    ensures ms >= 1000.0
  {
    if n == 0 then 1000.0 else 2.0 * SecondDoubled(n - 1)
  }

  function Smaller(a: real, b: real): real { if a < b then a else b }

  lemma {:induction false} DoublingUpTo(interval: real, n: nat)
    requires interval >= 1000.0
    ensures Smaller(interval, 2.0 * Smaller(interval, SecondDoubled(n))) == Smaller(interval, SecondDoubled(n + 1))
  {
  }

  /** A check knows whether answers were refused when it began, which they still are, or not. */
  ghost predicate KnowsItRefuses(s: State) {
    s.check.Reading? ==> (s.check.refusing <==> s.refusal.Some?)
  }

  lemma {:induction false} KnowsOn(s: System, e: Event, t: System)
    requires Coherent(s) && Enabled(s, e) && t == Step(s, e) && KnowsItRefuses(s.rb)
    ensures KnowsItRefuses(t.rb)
  {
  }

  lemma {:induction false} AlwaysKnows(states: seq<System>, events: seq<Event>, k: nat)
    requires Execution(states, events) && k < |states|
    ensures KnowsItRefuses(states[k].rb)
  {
    if k > 0 {
      AlwaysKnows(states, events, k - 1);
      AlwaysCoherent(states, events, k - 1);
      KnowsOn(states[k - 1], events[k - 1], states[k]);
    }
  }

  /** Refusing, and `n` re-checks begun since the refusal did. */
  ghost predicate BackedOff(s: State, n: nat) {
    && s.refusal.Some?
    && (s.check.Idle? ==> s.recheck == Smaller(s.interval, SecondDoubled(n)))
    && (s.check.Reading? ==> s.check.refusing && n >= 1 && s.recheck == Smaller(s.interval, SecondDoubled(n - 1)))
    && (s.check.Pushing? && s.check.refusingBefore ==>
          n >= 1 && s.recheck == Smaller(s.interval, SecondDoubled(n - 1)))
    && (s.check.Pushing? && !s.check.refusingBefore ==> n == 0)
  }

  lemma {:induction false} RefusalBeginsAtASecond(s: System, e: Event, t: System)
    requires Coherent(s) && Enabled(s, e) && t == Step(s, e) && KnowsItRefuses(s.rb)
    requires s.rb.refusal.None? && t.rb.refusal.Some?
    ensures BackedOff(t.rb, 0)
  {
  }

  lemma {:induction false} BacksOffFurther(s: State, t: State, n: nat, refusing: bool, draw: Option<real>)
    requires Valid(t) && s.interval == t.interval >= 1000.0 && t.refusal.Some? && s.refusal.Some?
    requires refusing ==> n >= 1 && s.recheck == Smaller(s.interval, SecondDoubled(n - 1))
    requires !refusing ==> n == 0
    requires t == Finish(s, refusing, draw)
    ensures BackedOff(t, n)
  {
    if n >= 1 { DoublingUpTo(s.interval, n - 1); }
  }

  lemma {:induction false} ConcludesBackedOff(s: State, read: Read, draw: Option<real>, t: State, n: nat)
    requires Valid(s) && s.check.Reading? && BackedOff(s, n) && t == Conclude(s, read, draw) && t.refusal.Some?
    ensures BackedOff(t, n)
  {
    ConcludeKeepsValid(s, read, draw);
    DoublingUpTo(s.interval, n - 1);
  }

  lemma {:induction false} BackedOffStep(s: System, e: Event, t: System, n: nat)
    requires Coherent(s) && Enabled(s, e) && t == Step(s, e)
    requires BackedOff(s.rb, n) && t.rb.refusal.Some?
    ensures BackedOff(t.rb, if s.rb.check.Idle? && t.rb.check.Reading? then n + 1 else n)
  {
    match e
    case Concludes(draw) => ConcludesBackedOff(s.rb, s.sample.value, draw, t.rb, n);
    case PushConcludes(draw) =>
      ConcludePushKeepsValid(s.rb, s.pushed.value, draw);
      BacksOffFurther(s.rb, t.rb, n, s.rb.check.refusingBefore, draw);
    case _ =>
  }

  lemma {:induction false} BacksOff(states: seq<System>, events: seq<Event>, a: nat, k: nat)
    requires Execution(states, events) && a < k < |states|
    requires states[a].rb.refusal.None? && Refusing(states, a + 1, k)
    ensures BackedOff(states[k].rb, Begun(states, a + 1, k))
    decreases k
  {
    AlwaysCoherent(states, events, k - 1);
    if k == a + 1 {
      AlwaysKnows(states, events, a);
      RefusalBeginsAtASecond(states[a], events[a], states[k]);
    } else {
      BacksOff(states, events, a, k - 1);
      BackedOffStep(states[k - 1], events[k - 1], states[k], Begun(states, a + 1, k - 1));
    }
  }

  lemma {:induction false} DueWhileRefusing(s: System, e: Event, t: System, n: nat)
    requires Coherent(s) && Enabled(s, e) && t == Step(s, e) && e.Ask?
    requires s.rb.check.Idle? && BackedOff(s.rb, n)
    ensures t.rb.check.Reading? <==> s.now - s.rb.lastCheck >= Smaller(s.rb.interval, SecondDoubled(n))
  {
  }

  /** In one unbroken refusal the first re-check is due a second after the check that began it,
      and each further one twice as long after the last as that was, up to the interval; the
      call that finds it due begins it. The next refusal starts at a second again. */
  lemma {:induction false} RechecksBackOff(states: seq<System>, events: seq<Event>, a: nat, k: nat)
    requires Execution(states, events) && a < k < |events|
    requires states[a].rb.refusal.None? && Refusing(states, a + 1, k)
    requires events[k].Ask? && states[k].rb.check.Idle?
    ensures Begins(states, k) <==>
            states[k].now - LastBegan(states, k) >= Smaller(states[k].rb.interval, SecondDoubled(Begun(states, a + 1, k)))
  {
    AlwaysCoherent(states, events, k);
    LastCheckIsTheLastBegun(states, events, k);
    BacksOff(states, events, a, k);
    DueWhileRefusing(states[k], events[k], states[k + 1], Begun(states, a + 1, k));
  }

  /** The check that is out ends with this event. */
  predicate Ends(e: Event) { e.Concludes? || e.PushConcludes? }

  function DrawOf(e: Event): Option<real>
    requires Ends(e)
  {
    match e
    case Concludes(draw) => draw
    case PushConcludes(draw) => draw
  }

  lemma {:induction false} WaitIsDrawn(s: System, e: Event, t: System)
    requires Coherent(s) && Enabled(s, e) && t == Step(s, e) && Ends(e) && t.rb.check.Idle?
    ensures t.rb.wait == Share(t.rb.interval, DrawOf(e))
  {
    DrawnIsTheShare(s.rb.interval, DrawOf(e));
  }

  lemma {:induction false} WaitStands(s: System, e: Event, t: System)
    requires Coherent(s) && Enabled(s, e) && t == Step(s, e) && s.rb.check.Idle? && t.rb.check.Idle?
    ensures t.rb.wait == s.rb.wait && t.rb.interval == s.rb.interval && t.rb.refusal == s.rb.refusal
  {
  }

  /** No check is out from `i` to `j`. */
  ghost predicate NoneOut(states: seq<System>, i: nat, j: nat)
    requires i <= j < |states|
  {
    forall q :: i <= q <= j ==> states[q].rb.check.Idle?
  }

  lemma {:induction false} WaitSince(states: seq<System>, events: seq<Event>, c: nat, k: nat)
    requires Execution(states, events) && c < k < |states| && Ends(events[c]) && NoneOut(states, c + 1, k)
    ensures states[k].rb.wait == Share(states[k].rb.interval, DrawOf(events[c]))
    decreases k
  {
    AlwaysCoherent(states, events, k - 1);
    if k == c + 1 {
      WaitIsDrawn(states[c], events[c], states[k]);
    } else {
      WaitSince(states, events, c, k - 1);
      WaitStands(states[k - 1], events[k - 1], states[k]);
    }
  }

  lemma {:induction false} DueWhileAnswering(s: System, e: Event, t: System)
    requires Coherent(s) && Enabled(s, e) && t == Step(s, e) && e.Ask?
    requires s.rb.check.Idle? && s.rb.refusal.None?
    ensures t.rb.check.Reading? <==> s.now - s.rb.lastCheck >= s.rb.wait
  {
  }

  /** While answers are not refused the next check is due the share of the interval drawn when
      the last one ended, after that one began. */
  lemma {:induction false} WaitsAreDrawnAnew(states: seq<System>, events: seq<Event>, c: nat, k: nat)
    requires Execution(states, events) && c < k < |events| && Ends(events[c]) && NoneOut(states, c + 1, k)
    requires events[k].Ask? && states[k].rb.refusal.None?
    ensures Begins(states, k) <==>
            states[k].now - LastBegan(states, k) >= Share(states[k].rb.interval, DrawOf(events[c]))
  {
    AlwaysCoherent(states, events, k);
    LastCheckIsTheLastBegun(states, events, k);
    WaitSince(states, events, c, k);
    DueWhileAnswering(states[k], events[k], states[k + 1]);
  }

  // --- which answers a read that reached nothing is weighed against ----------------

  /** How many calls were answered by the first `k` events. */
  function Tally(events: seq<Event>, k: nat): nat
    requires k <= |events|
  {
    if k == 0 then 0 else Tally(events, k - 1) + (if events[k - 1].Answer? then 1 else 0)
  }

  /** The event the check that is out at `k` began with. */
  ghost function BeganAt(states: seq<System>, k: nat): (i: nat)
    requires k < |states|
    ensures i <= k
  {
    if k == 0 then 0 else if Begins(states, k - 1) then k - 1 else BeganAt(states, k - 1)
  }

  /** Up to where the answers are accounted for: a read that got through accounts for those
      before its check began, one that reached nothing for all until it failed, and a refusal
      lifted for all until then. */
  ghost function AccountedTo(states: seq<System>, events: seq<Event>, k: nat): (i: nat)
    requires k <= |events| < |states|
    ensures i <= k
  {
    if k == 0 then 0
    else
      var s, t := states[k - 1], states[k];
      if s.rb.refusal.Some? && t.rb.refusal.None? then k
      else if !events[k - 1].Concludes? then AccountedTo(states, events, k - 1)
      else if s.sample == Some(Unreachable) then k
      else BeganAt(states, k - 1)
  }

  /** The counters, as the run has it. */
  ghost predicate Counted(states: seq<System>, events: seq<Event>, k: nat)
    requires k <= |events| < |states|
  {
    var rb, from := states[k].rb, states[0].rb.answeredCalls;
    && rb.answeredCalls == from + Tally(events, k)
    && rb.countedCalls == from + Tally(events, AccountedTo(states, events, k))
    && (rb.check.Reading? ==> rb.check.answeredBefore == from + Tally(events, BeganAt(states, k)))
  }

  lemma {:induction false} CountersStep(s: System, e: Event, t: System)
    requires Coherent(s) && Enabled(s, e) && t == Step(s, e)
    ensures t.rb.answeredCalls == s.rb.answeredCalls + (if e.Answer? then 1 else 0)
    ensures t.rb.check.Reading? ==>
              t.rb.check.answeredBefore ==
              if s.rb.check.Reading? then s.rb.check.answeredBefore else s.rb.answeredCalls
    ensures t.rb.check.Reading? ==> s.rb.check.Reading? || s.rb.check.Idle?
    ensures t.rb.countedCalls ==
            if s.rb.refusal.Some? && t.rb.refusal.None? then s.rb.answeredCalls
            else if !e.Concludes? then s.rb.countedCalls
            else if s.sample == Some(Unreachable) then s.rb.answeredCalls
            else s.rb.check.answeredBefore
    ensures e.Answer? ==> s.rb.refusal == t.rb.refusal
  {
    match e
    case Concludes(draw) => ConcludedCounters(s.rb, s.sample.value, draw, t.rb);
    case _ =>
  }

  lemma {:induction false} ConcludedCounters(s: State, read: Read, draw: Option<real>, t: State)
    requires Valid(s) && s.check.Reading? && t == Conclude(s, read, draw)
    ensures t.answeredCalls == s.answeredCalls && !t.check.Reading?
    ensures t.countedCalls ==
            if (s.refusal.Some? && t.refusal.None?) || read.Unreachable? then s.answeredCalls else s.check.answeredBefore
  {
  }

  lemma {:induction false} AlwaysCounted(states: seq<System>, events: seq<Event>, k: nat)
    requires Execution(states, events) && states[0].rb.countedCalls == states[0].rb.answeredCalls
    requires k <= |events|
    ensures Counted(states, events, k)
  {
    if k > 0 {
      AlwaysCounted(states, events, k - 1);
      AlwaysCoherent(states, events, k - 1);
      CountersStep(states[k - 1], events[k - 1], states[k]);
    }
  }

  lemma {:induction false} TallyTells(events: seq<Event>, i: nat, k: nat)
    requires i <= k <= |events|
    ensures Tally(events, i) <= Tally(events, k)
    ensures Tally(events, i) < Tally(events, k) <==> exists j :: i <= j < k && events[j].Answer?
    decreases k
  {
    if i < k { TallyTells(events, i, k - 1); }
  }

  /** With answers not refused yet, a check that reached nothing refuses exactly when the agent
      answered a call that no earlier check accounts for, while the read was out included: one
      that is merely down is not refused as unverifiable. */
  lemma {:induction false} UnreachableRefusesExactlyWhen(states: seq<System>, events: seq<Event>, k: nat)
    requires Execution(states, events) && states[0].rb.countedCalls == states[0].rb.answeredCalls
    requires k < |events| && events[k].Concludes? && states[k].sample == Some(Unreachable)
    requires states[k].rb.refusal.None?
    ensures states[k + 1].rb.refusal ==
            if exists j :: AccountedTo(states, events, k) <= j < k && events[j].Answer? then Some(UnverifiablePolicySet)
            else None
  {
    AlwaysCounted(states, events, k);
    TallyTells(events, AccountedTo(states, events, k), k);
    TurnsExactlyWhen(states, events, k);
  }

  /** Whether the second begins a refusal the first was not in. */
  predicate RefusesAnew(s: State, t: State) { t.refusal.Some? && t.refusal != s.refusal }

  /** How many refusals have begun, a change of kind being a new one. */
  ghost function RefusalsBegun(states: seq<System>, k: nat): nat
    requires k < |states|
  {
    if k == 0 then 0
    else RefusalsBegun(states, k - 1) + (if RefusesAnew(states[k - 1].rb, states[k].rb) then 1 else 0)
  }

  lemma {:induction false} ConcludedGeneration(s: State, read: Read, draw: Option<real>, t: State)
    requires Valid(s) && s.check.Reading? && t == Conclude(s, read, draw)
    ensures t.generation == s.generation + (if RefusesAnew(s, t) then 1 else 0)
  {
  }

  lemma {:induction false} GenerationStepped(s: System, e: Event, t: System)
    requires Coherent(s) && Enabled(s, e) && t == Step(s, e)
    ensures t.rb.generation == s.rb.generation + (if RefusesAnew(s.rb, t.rb) then 1 else 0)
  {
    match e
    case Concludes(draw) => ConcludedGeneration(s.rb, s.sample.value, draw, t.rb);
    case _ =>
  }

  /** The generation counts the refusals begun. */
  lemma {:induction false} GenerationCountsRefusals(states: seq<System>, events: seq<Event>, k: nat)
    requires Execution(states, events) && k < |states|
    ensures states[k].rb.generation == states[0].rb.generation + RefusalsBegun(states, k)
  {
    if k > 0 {
      GenerationCountsRefusals(states, events, k - 1);
      AlwaysCoherent(states, events, k - 1);
      GenerationStepped(states[k - 1], events[k - 1], states[k]);
    }
  }

  // --- what a late answer is refused for --------------------------------------------

  /** The refusal in force, or else the last that was. */
  ghost function LastRefusal(states: seq<System>, k: nat): Option<Refusal>
    requires k < |states|
  {
    if states[k].rb.refusal.Some? || k == 0 then states[k].rb.refusal else LastRefusal(states, k - 1)
  }

  lemma {:induction false} BegunStep(s: System, e: Event, t: System)
    requires Coherent(s) && Enabled(s, e) && t == Step(s, e)
    ensures t.rb.begun == if t.rb.refusal.Some? then t.rb.refusal else s.rb.begun
  {
    match e
    case Concludes(draw) => ConcludedBegun(s.rb, s.sample.value, draw, t.rb);
    case _ =>
  }

  lemma {:induction false} ConcludedBegun(s: State, read: Read, draw: Option<real>, t: State)
    requires Valid(s) && s.check.Reading? && t == Conclude(s, read, draw)
    ensures t.begun == if t.refusal.Some? then t.refusal else s.begun
  {
  }

  lemma {:induction false} BegunIsTheLast(states: seq<System>, events: seq<Event>, k: nat)
    requires Execution(states, events) && states[0].rb.begun.None? && k < |states|
    ensures states[k].rb.begun == LastRefusal(states, k)
  {
    if k > 0 {
      BegunIsTheLast(states, events, k - 1);
      AlwaysCoherent(states, events, k - 1);
      BegunStep(states[k - 1], events[k - 1], states[k]);
    }
  }

  /** An answer to a call asked while nothing was refused is refused for the refusal in force,
      or the last that was while the call was out; and not at all if there was none. */
  lemma {:induction false} LateAnswersAreRefusedForTheLast(states: seq<System>, events: seq<Event>, i: nat, j: nat)
    requires Execution(states, events) && states[0].rb.begun.None? && i <= j < |states|
    requires states[i].rb.refusal.None?
    ensures RefusedSince(states[j].rb, states[i].rb.generation) ==
            if NeverRefusing(states, i, j) then None else LastRefusal(states, j)
  {
    BegunIsTheLast(states, events, j);
    GenerationTells(states, events, i, j);
  }

  // --- which calls are made ----------------------------------------------------------

  lemma {:induction false} CallsStep(s: System, e: Event, t: System, call: nat)
    requires Coherent(s) && Enabled(s, e) && t == Step(s, e)
    ensures call in t.calls <==>
            || (e == Ask(call) && s.rb.refusal.None?)
            || (call in s.calls && e != Answer(call) && e != Fail(call))
    ensures call in s.used ==> call in t.used
  {
  }

  /** A call is out from its asking, if nothing is refused then, until its answer or failure;
      and an answer once used stays used. */
  lemma {:induction false} CallsAreOutExactlyWhile(states: seq<System>, events: seq<Event>, k: nat, call: nat)
    requires Execution(states, events) && k < |events|
    ensures call in states[k + 1].calls <==>
            || (events[k] == Ask(call) && states[k].rb.refusal.None?)
            || (call in states[k].calls && events[k] != Answer(call) && events[k] != Fail(call))
    ensures call in states[k].used ==> call in states[k + 1].used
  {
    AlwaysCoherent(states, events, k);
    CallsStep(states[k], events[k], states[k + 1], call);
  }

  // --- an agent that lost its set ------------------------------------------------------

  /** Where `events`, each possible when it comes, lead from `s`. */
  ghost predicate Leads(s: System, events: seq<Event>, t: System)
    decreases |events|
  {
    if events == [] then s == t
    else Valid(s.rb) && Enabled(s, events[0]) && Leads(Step(s, events[0]), events[1..], t)
  }

  lemma {:induction false} LeadsOn(s: System, e: Event, u: System, rest: seq<Event>, t: System)
    requires Coherent(s) && Enabled(s, e) && u == Step(s, e) && Leads(u, rest, t)
    ensures Leads(s, [e] + rest, t)
  {
    assert ([e] + rest)[1..] == rest;
  }

  /** The agent is emptied, an interval goes by, and a call begins a check that reads it. */
  lemma {:induction false} Emptied(s: System, call: nat) returns (s1: System, s2: System, s3: System, s4: System)
    requires Coherent(s) && s.rb.check.Idle? && call !in s.asked
    ensures Enabled(s, Tamper(map[])) && s1 == Step(s, Tamper(map[])) && Coherent(s1)
    ensures Enabled(s1, Elapse(s.rb.interval)) && s2 == Step(s1, Elapse(s.rb.interval)) && Coherent(s2)
    ensures Enabled(s2, Ask(call)) && s3 == Step(s2, Ask(call)) && Coherent(s3)
    ensures Enabled(s3, Reads(Held(map[]))) && s4 == Step(s3, Reads(Held(map[]))) && Coherent(s4)
    ensures s4.rb.check.Reading? && s4.sample == Some(Held(map[])) && s4.pushed.None?
    ensures s4.rb.baseline == s.rb.baseline && s4.asked == s.asked + {call} && s4.now == s.now + s.rb.interval
    ensures s4.rb.lastCheck == s4.now && s4.rb.interval == s.rb.interval
  {
    s1 := Step(s, Tamper(map[]));
    StepCoherent(s, Tamper(map[]), s1);
    s2 := Step(s1, Elapse(s.rb.interval));
    StepCoherent(s1, Elapse(s.rb.interval), s2);
    s3 := Step(s2, Ask(call));
    StepCoherent(s2, Ask(call), s3);
    s4 := Step(s3, Reads(Held(map[])));
    StepCoherent(s3, Reads(Held(map[])), s4);
  }

  /** That check refuses and begins to push; the push lands, and answers resume. */
  lemma {:induction false} PushedAgain(s: System, d1: Option<real>, d2: Option<real>, copy: PolicySet)
    returns (s1: System, s2: System, s3: System)
    requires Coherent(s) && s.rb.check.Reading? && s.sample == Some(Held(map[])) && s.pushed.None?
    requires s.rb.baseline != map[] && copy.Keys == s.rb.baseline.Keys
    ensures Enabled(s, Concludes(d1)) && s1 == Step(s, Concludes(d1)) && Coherent(s1)
    ensures s1.rb.refusal == Some(AlteredPolicySet)
    ensures Enabled(s1, PushLands(copy)) && s2 == Step(s1, PushLands(copy)) && Coherent(s2)
    ensures Enabled(s2, PushConcludes(d2)) && s3 == Step(s2, PushConcludes(d2)) && Coherent(s3)
    ensures s3.rb.refusal.None? && s3.agent == s3.rb.baseline == copy && s3.rb.check.Idle?
    ensures s3.now == s.now && s3.rb.lastCheck == s.rb.lastCheck && s3.asked == s.asked
    ensures s3.rb.interval == s.rb.interval
  {
    s1 := Step(s, Concludes(d1));
    StepCoherent(s, Concludes(d1), s1);
    s2 := Step(s1, PushLands(copy));
    StepCoherent(s1, PushLands(copy), s2);
    s3 := Step(s2, PushConcludes(d2));
    StepCoherent(s2, PushConcludes(d2), s3);
  }

  /** That push fails, and answers stay refused. */
  lemma {:induction false} AFailedPushKeepsRefusing(s: System, d1: Option<real>, d2: Option<real>)
    returns (s1: System, s2: System, s3: System)
    requires Coherent(s) && s.rb.check.Reading? && s.sample == Some(Held(map[])) && s.pushed.None?
    requires s.rb.baseline != map[]
    ensures Enabled(s, Concludes(d1)) && s1 == Step(s, Concludes(d1)) && Coherent(s1)
    ensures Enabled(s1, PushFails) && s2 == Step(s1, PushFails) && Coherent(s2)
    ensures Enabled(s2, PushConcludes(d2)) && s3 == Step(s2, PushConcludes(d2)) && Coherent(s3)
    ensures s3.rb.refusal == Some(AlteredPolicySet) && s3.rb.baseline == s.rb.baseline && s3.rb.check.Idle?
  {
    s1 := Step(s, Concludes(d1));
    StepCoherent(s, Concludes(d1), s1);
    s2 := Step(s1, PushFails);
    StepCoherent(s1, PushFails, s2);
    s3 := Step(s2, PushConcludes(d2));
    StepCoherent(s2, PushConcludes(d2), s3);
  }

  /** A call asked right then is made, and its answer used. */
  lemma {:induction false} AnsweredAgain(s: System, call: nat) returns (s1: System, s2: System)
    requires Coherent(s) && s.rb.refusal.None? && s.rb.check.Idle? && s.now == s.rb.lastCheck && call !in s.asked
    ensures Enabled(s, Ask(call)) && s1 == Step(s, Ask(call)) && Coherent(s1)
    ensures Enabled(s1, Answer(call)) && s2 == Step(s1, Answer(call)) && Coherent(s2)
    ensures call in s2.used && s2.rb.refusal.None? && s2.agent == s.agent && s2.rb.baseline == s.rb.baseline
  {
    s1 := Step(s, Ask(call));
    StepCoherent(s, Ask(call), s1);
    s2 := Step(s1, Answer(call));
    StepCoherent(s1, Answer(call), s2);
  }

  /** From any state with no check out: when the agent loses its set, the call an interval later
      begins a check that pushes the set again, and the next call is answered from it. */
  lemma {:induction false} EmptiedAgentIsRestored(s: System, call: nat, next: nat, d1: Option<real>,
                                                  d2: Option<real>, copy: PolicySet)
    returns (t: System)
    requires Coherent(s) && s.rb.check.Idle? && call !in s.asked && next !in s.asked && call != next
    requires s.rb.baseline != map[] && copy.Keys == s.rb.baseline.Keys
    ensures Leads(s, [Tamper(map[])] + ([Elapse(s.rb.interval)] + ([Ask(call)] + ([Reads(Held(map[]))]
                     + ([Concludes(d1)] + ([PushLands(copy)] + ([PushConcludes(d2)] + ([Ask(next)]
                     + ([Answer(next)] + [])))))))), t)
    ensures t.rb.refusal.None? && t.agent == t.rb.baseline == copy && next in t.used
  {
    var s1, s2, s3, s4 := Emptied(s, call);
    var s5, s6, s7 := PushedAgain(s4, d1, d2, copy);
    var s8;
    s8, t := AnsweredAgain(s7, next);
    var answered := [Answer(next)] + [];
    LeadsOn(s8, Answer(next), t, [], t);
    LeadsOn(s7, Ask(next), s8, answered, t);
    var asked := [Ask(next)] + answered;
    LeadsOn(s6, PushConcludes(d2), s7, asked, t);
    var pushed := [PushConcludes(d2)] + asked;
    LeadsOn(s5, PushLands(copy), s6, pushed, t);
    var landed := [PushLands(copy)] + pushed;
    LeadsOn(s4, Concludes(d1), s5, landed, t);
    var concluded := [Concludes(d1)] + landed;
    LeadsOn(s3, Reads(Held(map[])), s4, concluded, t);
    var read := [Reads(Held(map[]))] + concluded;
    LeadsOn(s2, Ask(call), s3, read, t);
    LeadsOn(s1, Elapse(s.rb.interval), s2, [Ask(call)] + read, t);
    LeadsOn(s, Tamper(map[]), s1, [Elapse(s.rb.interval)] + ([Ask(call)] + read), t);
  }
}
