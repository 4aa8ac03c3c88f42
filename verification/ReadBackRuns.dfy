/** Runs of the verifier, the agent and an environment that changes the agent's set.

    Assumed of the environment: the agent answers a read with the set it then holds, and
    an accepted push with its own copy under the ids pushed; a call has one answer. */
module ReadBackRuns {
  import opened Text
  import opened ReadBack

  /** `calls` maps each call that is out to the generation it was made at. */
  datatype System = System(
    rb: State,
    agent: PolicySet,
    now: real,
    calls: map<nat, nat>,
    asked: set<nat>,
    used: set<nat>,
    sample: Option<Read>,
    pushed: Option<Option<PolicySet>>)

  datatype Event =
    | Elapse(ms: real)
    | Tamper(agentSet: PolicySet)
    | Ask(call: nat)
    | Answer(call: nat)
    | Fail(call: nat)
    | Reads(read: Read)
    | Concludes(draw: Option<real>)
    | PushLands(copy: PolicySet)
    | PushFails
    | PushConcludes(pushDraw: Option<real>)

  predicate Enabled(s: System, e: Event) {
    match e
    case Elapse(ms) => ms >= 0.0
    case Tamper(_) => true
    case Ask(call) => call !in s.asked
    case Answer(call) => call in s.calls
    case Fail(call) => call in s.calls
    case Reads(read) => s.rb.check.Reading? && s.sample.None? && (read.Held? ==> read.held == s.agent)
    case Concludes(_) => s.rb.check.Reading? && s.sample.Some?
    case PushLands(copy) => s.rb.check.Pushing? && s.pushed.None? && copy.Keys == s.rb.baseline.Keys
    case PushFails => s.rb.check.Pushing? && s.pushed.None?
    case PushConcludes(_) => s.rb.check.Pushing? && s.pushed.Some?
  }

  /** `isAuthorized`, up to its call: poll, then refuse or ask at the generation now. */
  function Asks(s: System, call: nat): System {
    var rb := Poll(s.rb, s.now);
    s.(rb := rb,
       asked := s.asked + {call},
       calls := if rb.refusal.Some? then s.calls else s.calls[call := rb.generation])
  }

  /** `isAuthorized`, once the agent has answered: counted, then used or refused as late. */
  function Answers(s: System, call: nat): System
    requires call in s.calls
  {
    s.(rb := s.rb.(answeredCalls := s.rb.answeredCalls + 1),
       calls := s.calls - {call},
       used := if RefusedSince(s.rb, s.calls[call]).None? then s.used + {call} else s.used)
  }

  function Step(s: System, e: Event): System
    requires Enabled(s, e) && Valid(s.rb)
  {
    match e
    case Elapse(ms) => s.(now := s.now + ms)
    case Tamper(agentSet) => s.(agent := agentSet)
    case Ask(call) => Asks(s, call)
    case Answer(call) => Answers(s, call)
    case Fail(call) => s.(calls := s.calls - {call})
    case Reads(read) => s.(sample := Some(read))
    case Concludes(draw) => s.(rb := Conclude(s.rb, s.sample.value, draw), sample := None)
    case PushLands(copy) => s.(agent := copy, pushed := Some(Some(copy)))
    case PushFails => s.(pushed := Some(None))
    case PushConcludes(draw) => s.(rb := ConcludePush(s.rb, s.pushed.value, draw), pushed := None)
  }

  ghost predicate Coherent(s: System) {
    && Valid(s.rb)
    && s.rb.lastCheck <= s.now
    && s.calls.Keys <= s.asked && s.used <= s.asked && s.calls.Keys !! s.used
    && (forall call :: call in s.calls ==> s.calls[call] <= s.rb.generation)
    && (s.sample.Some? ==> s.rb.check.Reading?)
    && (s.pushed.Some? ==> s.rb.check.Pushing?)
  }

  ghost predicate StepsAt(states: seq<System>, events: seq<Event>, i: nat)
    requires i < |events| && |states| == |events| + 1
  {
    Valid(states[i].rb) && Enabled(states[i], events[i]) && states[i + 1] == Step(states[i], events[i])
  }

  /** `states` is a run: it begins with the set just pushed and read back, and each event
      takes one state to the next. */
  ghost predicate Execution(states: seq<System>, events: seq<Event>) {
    && |states| == |events| + 1
    && Coherent(states[0])
    && states[0].rb.check.Idle? && states[0].rb.refusal.None?
    && states[0].agent == states[0].rb.baseline
    && forall i :: 0 <= i < |events| ==> StepsAt(states, events, i)
  }

  lemma {:induction false} PollKeepsValid(s: State, now: real)
    requires Valid(s)
    ensures Valid(Poll(s, now))
  {
  }

  lemma {:induction false} ConcludeGeneration(s: State, read: Read, draw: Option<real>)
    requires Valid(s) && s.check.Reading?
    ensures Conclude(s, read, draw).generation >= s.generation
    ensures Conclude(s, read, draw).lastCheck == s.lastCheck
    ensures !Conclude(s, read, draw).check.Reading?
  {
  }

  lemma {:induction false} StepCoherent(s: System, e: Event, t: System)
    requires Coherent(s) && Enabled(s, e) && t == Step(s, e)
    ensures Coherent(t)
  {
    match e
    case Ask(_) => PollKeepsValid(s.rb, s.now);
    case Concludes(draw) =>
      ConcludeKeepsValid(s.rb, s.sample.value, draw);
      ConcludeGeneration(s.rb, s.sample.value, draw);
    case PushConcludes(draw) => ConcludePushKeepsValid(s.rb, s.pushed.value, draw);
    case _ =>
  }

  /** One step of a run that is coherent so far. */
  lemma {:induction false} CoherentOn(states: seq<System>, events: seq<Event>, k: nat)
    requires Execution(states, events) && k < |events| && Coherent(states[k])
    ensures Coherent(states[k + 1])
  {
    assert StepsAt(states, events, k);
    StepCoherent(states[k], events[k], states[k + 1]);
  }

  lemma {:induction false} AllCoherent(states: seq<System>, events: seq<Event>, k: nat)
    requires Execution(states, events) && k < |states|
    ensures Coherent(states[k])
  {
    if k > 0 {
      AllCoherent(states, events, k - 1);
      CoherentOn(states, events, k - 1);
    }
  }

  lemma {:induction false} AlwaysCoherent(states: seq<System>, events: seq<Event>, k: nat)
    requires Execution(states, events) && k < |states|
    ensures Coherent(states[k])
    ensures k < |events| ==> StepsAt(states, events, k)
  {
    AllCoherent(states, events, k);
  }

  // --- which answers are used ------------------------------------------------

  /** A step begins a refusal exactly when it raises the generation. */
  lemma {:induction false} RefusalsAreGenerations(s: System, e: Event, t: System)
    requires Coherent(s) && Enabled(s, e) && t == Step(s, e)
    ensures t.rb.generation >= s.rb.generation
    ensures s.rb.refusal.None? ==> (t.rb.refusal.Some? <==> t.rb.generation > s.rb.generation)
  {
    if e.Concludes? { ConcludeRaises(s.rb, s.sample.value, e.draw); }
  }

  lemma {:induction false} ConcludeRaises(s: State, read: Read, draw: Option<real>)
    requires Valid(s) && s.check.Reading?
    ensures var t := Conclude(s, read, draw);
            && t.generation >= s.generation
            && (s.refusal.None? ==> (t.refusal.Some? <==> t.generation > s.generation))
  {
  }

  /** No refusal was in force at any moment from `i` to `j`. */
  ghost predicate NeverRefusing(states: seq<System>, i: nat, j: nat)
    requires i <= j < |states|
  {
    forall k :: i <= k <= j ==> states[k].rb.refusal.None?
  }

  lemma {:induction false} GenerationStep(states: seq<System>, events: seq<Event>, k: nat)
    requires Execution(states, events) && k < |events|
    ensures states[k + 1].rb.generation >= states[k].rb.generation
    ensures states[k].rb.refusal.None? ==>
              (states[k + 1].rb.refusal.Some? <==> states[k + 1].rb.generation > states[k].rb.generation)
  {
    AlwaysCoherent(states, events, k);
    RefusalsAreGenerations(states[k], events[k], states[k + 1]);
  }

  lemma {:induction false} NotLower(states: seq<System>, events: seq<Event>, i: nat, j: nat)
    requires Execution(states, events) && i <= j < |states|
    ensures states[j].rb.generation >= states[i].rb.generation
    decreases j
  {
    if i < j {
      NotLower(states, events, i, j - 1);
      GenerationStep(states, events, j - 1);
    }
  }

  /** A refusal in force later than a moment without one has raised the generation. */
  lemma {:induction false} RefusingRaised(states: seq<System>, events: seq<Event>, i: nat, j: nat)
    requires Execution(states, events) && i <= j < |states|
    requires states[i].rb.refusal.None? && states[j].rb.refusal.Some?
    ensures states[j].rb.generation > states[i].rb.generation
    decreases j
  {
    GenerationStep(states, events, j - 1);
    if states[j - 1].rb.refusal.Some? {
      RefusingRaised(states, events, i, j - 1);
    } else {
      NotLower(states, events, i, j - 1);
    }
  }

  lemma {:induction false} QuietKeepsGeneration(states: seq<System>, events: seq<Event>, i: nat, j: nat)
    requires Execution(states, events) && i <= j < |states| && NeverRefusing(states, i, j)
    ensures states[j].rb.generation == states[i].rb.generation
    decreases j
  {
    if i < j {
      QuietKeepsGeneration(states, events, i, j - 1);
      GenerationStep(states, events, j - 1);
    }
  }

  lemma {:induction false} GenerationTells(states: seq<System>, events: seq<Event>, i: nat, j: nat)
    requires Execution(states, events) && i <= j < |states|
    requires states[i].rb.refusal.None?
    ensures NeverRefusing(states, i, j) <==> states[j].rb.refusal.None? && states[j].rb.generation == states[i].rb.generation
  {
    if NeverRefusing(states, i, j) {
      QuietKeepsGeneration(states, events, i, j);
    } else {
      var k :| i <= k <= j && !states[k].rb.refusal.None?;
      RefusingRaised(states, events, i, k);
      NotLower(states, events, k, j);
    }
  }

  /** A call that is out carries the generation it was asked at. */
  lemma {:induction false} CallKeepsItsGeneration(states: seq<System>, events: seq<Event>, i: nat, j: nat, call: nat)
    requires Execution(states, events) && i < j < |states|
    requires events[i] == Ask(call) && call in states[j].calls
    ensures states[i].rb.refusal.None?
    ensures states[j].calls[call] == states[i].rb.generation
  {
    AlwaysCoherent(states, events, i);
    AlwaysCoherent(states, events, j - 1);
    if j > i + 1 {
      AskedStays(states, events, i + 1, j - 1, call);
      CallKeepsItsGeneration(states, events, i, j - 1, call);
    }
  }

  lemma {:induction false} AskedStays(states: seq<System>, events: seq<Event>, i: nat, j: nat, call: nat)
    requires Execution(states, events) && i <= j < |states| && call in states[i].asked
    ensures call in states[j].asked
  {
    if i < j {
      AskedStays(states, events, i, j - 1, call);
      AlwaysCoherent(states, events, j - 1);
    }
  }

  /** The agent's answer to a call is used exactly when no refusal was in force from the
      moment it was asked to the moment it was answered — not even one lifted since. */
  lemma {:induction false} UsedIffNeverRefusing(states: seq<System>, events: seq<Event>, i: nat, j: nat, call: nat)
    requires Execution(states, events) && i < j < |events|
    requires events[i] == Ask(call) && events[j] == Answer(call)
    ensures call in states[j + 1].used <==> NeverRefusing(states, i, j)
  {
    AlwaysCoherent(states, events, j);
    CallKeepsItsGeneration(states, events, i, j, call);
    GenerationTells(states, events, i, j);
  }

  /** A check that finds a difference: another set, one that cannot be compared, or none
      to be had from an agent that answered calls. */
  ghost predicate FindsDifference(s: System, e: Event) {
    && e.Concludes? && s.sample.Some?
    && match s.sample.value
       case Held(held) => held != s.rb.baseline
       case Unverifiable => true
       case Unreachable => s.rb.answeredCalls > s.rb.countedCalls
  }

  /** One step: a refusal begins with a check that found a difference, and with nothing
      else; every such check leaves answers refused. */
  lemma {:induction false} RefusesExactlyWhenDifferent(s: System, e: Event)
    requires Coherent(s) && Enabled(s, e)
    ensures s.rb.refusal.None? ==> (Step(s, e).rb.refusal.Some? <==> FindsDifference(s, e))
    ensures FindsDifference(s, e) ==> Step(s, e).rb.refusal.Some?
  {
  }

  /** Answers are refused from `i` to `j`. */
  ghost predicate Refusing(states: seq<System>, i: nat, j: nat)
    requires i <= j < |states|
  {
    forall q :: i <= q <= j ==> states[q].rb.refusal.Some?
  }

  /** Whenever answers are refused, some check of the run found a difference, and they have
      been refused ever since. */
  lemma {:induction false} RefusedSinceADifference(states: seq<System>, events: seq<Event>, k: nat) returns (m: nat)
    requires Execution(states, events) && k < |states| && states[k].rb.refusal.Some?
    ensures m < k && FindsDifference(states[m], events[m]) && Refusing(states, m + 1, k)
  {
    AlwaysCoherent(states, events, k - 1);
    if states[k - 1].rb.refusal.Some? {
      m := RefusedSinceADifference(states, events, k - 1);
    } else {
      m := k - 1;
      RefusesExactlyWhenDifferent(states[m], events[m]);
    }
  }

  /** An answer that was out while a check found a difference is not used, even if the
      set was restored, and the refusal lifted, before the answer came. */
  lemma {:induction false} LateAnswersAreRefused(states: seq<System>, events: seq<Event>, i: nat, k: nat, j: nat,
                                                 call: nat)
    requires Execution(states, events) && i < k < j < |events|
    requires events[i] == Ask(call) && events[j] == Answer(call)
    requires FindsDifference(states[k], events[k])
    ensures call !in states[j + 1].used
  {
    AlwaysCoherent(states, events, k);
    RefusesExactlyWhenDifferent(states[k], events[k]);
    UsedIffNeverRefusing(states, events, i, j, call);
    assert states[k + 1].rb.refusal.Some?;
  }

  // --- pushing, and resuming -------------------------------------------------

  /** One step: a push begins with a check that read an empty set, and with nothing else. */
  lemma {:induction false} PushesExactlyWhenEmpty(s: System, e: Event, t: System)
    requires Coherent(s) && Enabled(s, e) && !s.rb.check.Pushing? && t == Step(s, e)
    ensures t.rb.check.Pushing? <==>
            e.Concludes? && s.sample == Some(Held(map[])) && s.rb.baseline != map[]
  {
  }

  /** One check is out from `i` to `j`: it reads throughout, and the refusal stands. */
  ghost predicate OneReading(states: seq<System>, i: nat, j: nat)
    requires i <= j < |states|
  {
    forall q :: i <= q <= j ==> states[q].rb.check.Reading? && states[q].rb.refusal == states[j].rb.refusal
  }

  /** From just after `i` to `j` the read that is in is `read`. */
  ghost predicate HoldsSample(states: seq<System>, i: nat, j: nat, read: Read)
    requires i <= j < |states|
  {
    forall q :: i < q <= j ==> states[q].sample == Some(read)
  }

  /** A read that is in was taken by the check that is out, of the set the agent held. */
  lemma {:induction false} SampleWasTaken(states: seq<System>, events: seq<Event>, k: nat,
                                          held: PolicySet) returns (m: nat)
    requires Execution(states, events) && k < |states| && states[0].sample.None?
    requires states[k].sample == Some(Held(held))
    ensures m < k && events[m] == Reads(Held(held)) && states[m].agent == held
    ensures OneReading(states, m, k) && HoldsSample(states, m, k, Held(held))
  {
    AlwaysCoherent(states, events, k - 1);
    if states[k - 1].sample == states[k].sample {
      m := SampleWasTaken(states, events, k - 1, held);
    } else {
      m := k - 1;
    }
  }

  /** A push is under way from `i` to `j`. */
  ghost predicate OnePushing(states: seq<System>, i: nat, j: nat)
    requires i <= j < |states|
  {
    forall q :: i <= q <= j ==> states[q].rb.check.Pushing? && states[q].rb.refusal.Some?
  }

  lemma {:induction false} PushWasLanded(states: seq<System>, events: seq<Event>, k: nat,
                                         copy: PolicySet) returns (m: nat)
    requires Execution(states, events) && k < |states| && states[0].pushed.None?
    requires states[k].pushed == Some(Some(copy))
    ensures m < k && events[m] == PushLands(copy) && states[m + 1].agent == copy
    ensures OnePushing(states, m, k)
  {
    AlwaysCoherent(states, events, k - 1);
    AlwaysCoherent(states, events, k);
    if states[k - 1].pushed == states[k].pushed {
      m := PushWasLanded(states, events, k - 1, copy);
    } else {
      m := k - 1;
    }
  }

  lemma {:induction false} PushBegan(states: seq<System>, events: seq<Event>, k: nat) returns (n: nat)
    requires Execution(states, events) && k < |states|
    requires states[k].rb.check.Pushing?
    ensures n < k && events[n].Concludes? && states[n].sample == Some(Held(map[]))
    ensures OnePushing(states, n + 1, k)
  {
    AlwaysCoherent(states, events, k - 1);
    AlwaysCoherent(states, events, k);
    if states[k - 1].rb.check.Pushing? {
      n := PushBegan(states, events, k - 1);
    } else {
      n := k - 1;
      PushesExactlyWhenEmpty(states[n], events[n], states[k]);
    }
  }

  /** Whenever a push is under way, the check that began it, concluded at `n`, had itself
      read the agent as empty, at `m`; and nothing but that push has gone on since. */
  lemma {:induction false} PushesOnlyIntoAnAgentReadAsEmpty(states: seq<System>, events: seq<Event>,
                                                            k: nat) returns (m: nat, n: nat)
    requires Execution(states, events) && k < |states| && states[0].sample.None?
    requires states[k].rb.check.Pushing?
    ensures m < n < k && events[m] == Reads(Held(map[])) && states[m].agent == map[]
    ensures OneReading(states, m, n) && HoldsSample(states, m, n, Held(map[]))
    ensures events[n].Concludes? && OnePushing(states, n + 1, k)
  {
    n := PushBegan(states, events, k);
    m := SampleWasTaken(states, events, n, map[]);
  }

  /** One step: answers resume with a check that read this load's set, or a push that was
      accepted, and with nothing else. */
  lemma {:induction false} ResumesExactlyWhen(s: System, e: Event)
    requires Coherent(s) && Enabled(s, e) && s.rb.refusal.Some?
    ensures Step(s, e).rb.refusal.None? <==>
            || (e.Concludes? && s.sample == Some(Held(s.rb.baseline)))
            || (e.PushConcludes? && s.pushed.value.Some?)
  {
  }

  /** What a check that finds a difference refuses as: a set that was read and is another as
      altered, anything else as unverifiable — except that a read that reached nothing leaves
      a refusal as it is. */
  function RefusedAs(refusal: Option<Refusal>, read: Read): Option<Refusal> {
    match read
    case Held(_) => Some(AlteredPolicySet)
    case Unverifiable => Some(UnverifiablePolicySet)
    case Unreachable => if refusal.Some? then refusal else Some(UnverifiablePolicySet)
  }

  /** One step: what is refused as, and what is compared with, change at those turns only. */
  lemma {:induction false} KeepsOtherwise(s: System, e: Event, t: System)
    requires Coherent(s) && Enabled(s, e) && t == Step(s, e)
    ensures FindsDifference(s, e) ==> t.rb.refusal == RefusedAs(s.rb.refusal, s.sample.value)
    ensures !FindsDifference(s, e) && t.rb.refusal.Some? ==> t.rb.refusal == s.rb.refusal
    ensures t.rb.baseline ==
            if e.PushConcludes? && s.pushed.Some? && s.pushed.value.Some? then s.pushed.value.value else s.rb.baseline
  {
  }

  /** In every run, what turns the read-back: a refusal begins exactly at a check that found a
      difference, and says of which kind; a push exactly at one that read an empty set; and
      answers resume exactly at one that read this load's set, or at a push that was accepted,
      whose copy is compared with from then on. */
  lemma {:induction false} TurnsExactlyWhen(states: seq<System>, events: seq<Event>, k: nat)
    requires Execution(states, events) && k < |events|
    ensures var s, e, t := states[k], events[k], states[k + 1];
            && (s.rb.refusal.None? ==> (t.rb.refusal.Some? <==> FindsDifference(s, e)))
            && (FindsDifference(s, e) ==> t.rb.refusal == RefusedAs(s.rb.refusal, s.sample.value))
            && (!FindsDifference(s, e) && t.rb.refusal.Some? ==> t.rb.refusal == s.rb.refusal)
            && (!s.rb.check.Pushing? ==>
                  (t.rb.check.Pushing? <==>
                     e.Concludes? && s.sample == Some(Held(map[])) && s.rb.baseline != map[]))
            && (s.rb.refusal.Some? ==>
                  (t.rb.refusal.None? <==>
                     || (e.Concludes? && s.sample == Some(Held(s.rb.baseline)))
                     || (e.PushConcludes? && s.pushed.Some? && s.pushed.value.Some?)))
            && t.rb.baseline ==
                 if e.PushConcludes? && s.pushed.Some? && s.pushed.value.Some? then s.pushed.value.value
                 else s.rb.baseline
  {
    AlwaysCoherent(states, events, k);
    RefusesExactlyWhenDifferent(states[k], events[k]);
    KeepsOtherwise(states[k], events[k], states[k + 1]);
    if !states[k].rb.check.Pushing? { PushesExactlyWhenEmpty(states[k], events[k], states[k + 1]); }
    if states[k].rb.refusal.Some? { ResumesExactlyWhen(states[k], events[k]); }
  }

  /** When answers resume, the agent holds the pushed copy again: with answers refused
      already, and refused until now, the agent was seen at `m` to hold exactly the set that
      is compared with from then on — by the read of the very check that lifts the refusal,
      or by landing the push that does. */
  lemma {:induction false} ResumesOnlyOnThePushedCopy(states: seq<System>, events: seq<Event>, k: nat) returns (m: nat)
    requires Execution(states, events) && k < |events|
    requires states[0].sample.None? && states[0].pushed.None?
    requires states[k].rb.refusal.Some? && states[k + 1].rb.refusal.None?
    ensures m <= k && states[m].agent == states[k + 1].rb.baseline && Refusing(states, m, k)
    ensures events[k].Concludes? || events[k].PushConcludes?
    ensures events[k].Concludes? ==>
              && m < k && events[m] == Reads(Held(states[k].rb.baseline))
              && OneReading(states, m, k) && HoldsSample(states, m, k, Held(states[k].rb.baseline))
    ensures events[k].PushConcludes? ==>
              && 0 < m && events[m - 1] == PushLands(states[k + 1].rb.baseline) && OnePushing(states, m - 1, k)
  {
    AlwaysCoherent(states, events, k);
    ResumesExactlyWhen(states[k], events[k]);
    if events[k].Concludes? {
      m := SampleWasTaken(states, events, k, states[k].rb.baseline);
    } else {
      var landed := PushWasLanded(states, events, k, states[k].pushed.value.value);
      m := landed + 1;
    }
  }

  // --- when a changed set is seen --------------------------------------------

  /** From `a` on the agent holds `other`, not empty and not what checks compare with. */
  ghost predicate Changed(states: seq<System>, events: seq<Event>, a: nat, other: PolicySet)
    requires |states| == |events| + 1
  {
    && a < |states| && other != map[]
    && forall k :: a <= k < |states| ==> states[k].agent == other && states[k].rb.baseline != other
  }

  /** From `a` on every read of the set gets some answer. */
  ghost predicate ReadsGetThrough(events: seq<Event>, a: nat) {
    forall k :: a <= k < |events| ==> events[k] != Reads(Unreachable)
  }

  /** Since `since`: checks begun later can only have read `other`, nothing is pushed by
      one, and with no check out and no refusal, none was begun. */
  ghost predicate Watching(s: System, since: real, other: PolicySet) {
    && (s.rb.refusal.None? && s.rb.check.Idle? ==> s.rb.lastCheck <= since)
    && (s.rb.check.Reading? && s.rb.lastCheck > since ==>
          s.sample == None || s.sample == Some(Held(other)) || s.sample == Some(Unverifiable))
    && (s.rb.check.Pushing? ==> s.rb.lastCheck <= since)
  }

  lemma {:induction false} WatchingStep(s: System, e: Event, t: System, since: real, other: PolicySet)
    requires Coherent(s) && Enabled(s, e) && Watching(s, since, other) && t == Step(s, e)
    requires s.agent == other && other != map[] && s.rb.baseline != other
    requires e != Reads(Unreachable)
    ensures Watching(t, since, other)
  {
    match e
    case Reads(read) => assert read.Held? || read.Unverifiable?;
    case _ =>
  }

  lemma {:induction false} WatchedStep(states: seq<System>, events: seq<Event>, a: nat, k: nat, other: PolicySet)
    requires Execution(states, events) && Changed(states, events, a, other) && ReadsGetThrough(events, a)
    requires a <= k < |events| && Watching(states[k], states[a].now, other)
    ensures Watching(states[k + 1], states[a].now, other)
  {
    AlwaysCoherent(states, events, k);
    assert states[k].agent == other && states[k].rb.baseline != other;
    assert events[k] != Reads(Unreachable);
    WatchingStep(states[k], events[k], states[k + 1], states[a].now, other);
  }

  lemma {:induction false} KeepsWatching(states: seq<System>, events: seq<Event>, a: nat, k: nat, other: PolicySet)
    requires Execution(states, events) && Changed(states, events, a, other) && ReadsGetThrough(events, a)
    requires a <= k < |states|
    ensures Watching(states[k], states[a].now, other)
    decreases k
  {
    if a == k {
      AlwaysCoherent(states, events, a);
    } else {
      KeepsWatching(states, events, a, k - 1, other);
      WatchedStep(states, events, a, k - 1, other);
    }
  }

  /** A call is asked at `k`, and goes ahead with nothing in its way: no refusal, and no
      check out that might begin one. */
  ghost predicate GoesAheadUnwatched(states: seq<System>, events: seq<Event>, k: nat)
    requires k < |events| && |states| == |events| + 1
  {
    events[k].Ask? && states[k + 1].rb.refusal.None? && states[k + 1].rb.check.Idle?
  }

  /** With the agent's set changed, and reads of it getting through, an answer that is
      asked for an interval or more later is refused, or finds a check out. */
  lemma {:induction false} ChangedSetIsCheckedWithinAnInterval(states: seq<System>, events: seq<Event>, a: nat,
                                                               k: nat, other: PolicySet)
    requires Execution(states, events) && Changed(states, events, a, other) && ReadsGetThrough(events, a)
    requires a <= k < |events| && states[k].now >= states[a].now + states[k].rb.interval
    ensures !GoesAheadUnwatched(states, events, k)
  {
    AlwaysCoherent(states, events, k);
    KeepsWatching(states, events, a, k, other);
  }

  /** A check begun after the change refuses answers when it concludes, and they stay
      refused for as long as the change does. */
  lemma {:induction false} ChangedSetStaysRefused(states: seq<System>, events: seq<Event>, a: nat, c: nat, k: nat,
                                                  other: PolicySet)
    requires Execution(states, events) && Changed(states, events, a, other) && ReadsGetThrough(events, a)
    requires a <= c < k < |states|
    requires events[c].Concludes? && states[c].rb.lastCheck > states[a].now
    ensures states[k].rb.refusal.Some? && states[k].rb.lastCheck > states[a].now
  {
    KeepsWatching(states, events, a, k - 1, other);
    AlwaysCoherent(states, events, k - 1);
    if k > c + 1 {
      ChangedSetStaysRefused(states, events, a, c, k - 1, other);
      ResumesExactlyWhen(states[k - 1], events[k - 1]);
      LastCheckGrows(states[k - 1], events[k - 1]);
    } else {
      RefusesExactlyWhenDifferent(states[c], events[c]);
      LastCheckGrows(states[c], events[c]);
    }
  }

  lemma {:induction false} LastCheckGrows(s: System, e: Event)
    requires Coherent(s) && Enabled(s, e)
    ensures Step(s, e).rb.lastCheck >= s.rb.lastCheck
  {
  }

  // --- when reads of a changed set are blocked ---------------------------------

  /** The agent's set is `other`, and it answered a call that no check has weighed yet, at
      `since` or before: unless answers are refused already, no check begun later has
      concluded, and one that is out with a read from before the change will leave that call
      to the next. */
  ghost predicate Suspect(s: System, since: real, other: PolicySet) {
    && (s.rb.refusal.None? ==> s.rb.answeredCalls > s.rb.countedCalls)
    && (s.rb.refusal.None? && s.rb.check.Idle? ==> s.rb.lastCheck <= since)
    && (Stale(s, other) ==>
          && s.rb.refusal.None? && s.rb.lastCheck <= since
          && s.rb.check.Reading? && s.rb.check.answeredBefore < s.rb.answeredCalls)
    && (s.pushed.Some? && s.pushed.value.Some? ==> s.pushed.value.value == other)
  }

  /** The read that is in was of a set the agent no longer holds. */
  ghost predicate Stale(s: System, other: PolicySet) {
    s.sample.Some? && s.sample.value.Held? && s.sample.value.held != other
  }

  lemma {:induction false} SuspectConcludes(s: System, draw: Option<real>, t: System, since: real, other: PolicySet)
    requires Coherent(s) && Enabled(s, Concludes(draw)) && Suspect(s, since, other) && t == Step(s, Concludes(draw))
    requires s.agent == other && s.rb.baseline != other
    ensures Suspect(t, since, other)
    ensures t.rb.refusal.Some? || Stale(s, other)
  {
    match s.sample.value
    case Held(_) =>
    case Unverifiable =>
    case Unreachable =>
  }

  lemma {:induction false} SuspectStep(s: System, e: Event, t: System, since: real, other: PolicySet)
    requires Coherent(s) && Enabled(s, e) && Suspect(s, since, other) && t == Step(s, e)
    requires s.agent == other && s.rb.baseline != other && t.agent == other && t.rb.baseline != other
    ensures Suspect(t, since, other)
    ensures s.rb.refusal.Some? ==> t.rb.refusal.Some?
  {
    match e
    case Concludes(draw) => SuspectConcludes(s, draw, t, since, other);
    case _ =>
  }

  lemma {:induction false} UsedAnswerIsSuspect(s: System, call: nat, t: System, other: PolicySet)
    requires Coherent(s) && Enabled(s, Answer(call)) && t == Step(s, Answer(call)) && call in t.used
    ensures Suspect(t, s.now, other)
  {
  }

  lemma {:induction false} StaysSuspect(states: seq<System>, events: seq<Event>, a: nat, j: nat, k: nat, call: nat,
                                        other: PolicySet)
    requires Execution(states, events) && Changed(states, events, a, other)
    requires a <= j < k < |states| && events[j] == Answer(call) && call in states[j + 1].used
    ensures Suspect(states[k], states[j].now, other)
    decreases k
  {
    AlwaysCoherent(states, events, k - 1);
    if k == j + 1 {
      UsedAnswerIsSuspect(states[j], call, states[k], other);
    } else {
      StaysSuspect(states, events, a, j, k - 1, call, other);
      SuspectStep(states[k - 1], events[k - 1], states[k], states[j].now, other);
    }
  }

  /** With the agent's set changed and reads of it blocked or not, an interval after the
      first answer of the agent's that is used nothing goes ahead unwatched. */
  lemma {:induction false} BlockedReadIsWatchedAfterAnAnswer(states: seq<System>, events: seq<Event>, a: nat, j: nat,
                                                             k: nat, call: nat, other: PolicySet)
    requires Execution(states, events) && Changed(states, events, a, other)
    requires a <= j < k < |events| && events[j] == Answer(call) && call in states[j + 1].used
    requires states[k].now >= states[j].now + states[k].rb.interval
    ensures !GoesAheadUnwatched(states, events, k)
  {
    AlwaysCoherent(states, events, k);
    StaysSuspect(states, events, a, j, k, call, other);
  }

  /** So with reads blocked the window is two intervals, given that an answer was used in
      the first of them. */
  lemma {:induction false} BlockedReadIsWatchedWithinTwoIntervals(states: seq<System>, events: seq<Event>, a: nat,
                                                                  j: nat, k: nat, call: nat, other: PolicySet)
    requires Execution(states, events) && Changed(states, events, a, other)
    requires a <= j < k < |events| && events[j] == Answer(call) && call in states[j + 1].used
    requires states[j].now <= states[a].now + states[k].rb.interval
    requires states[k].now >= states[a].now + 2.0 * states[k].rb.interval
    ensures !GoesAheadUnwatched(states, events, k)
  {
    BlockedReadIsWatchedAfterAnAnswer(states, events, a, j, k, call, other);
  }

  /** And a check begun after that answer refuses answers when it concludes, blocked or
      not, and they stay refused for as long as the change does. */
  lemma {:induction false} BlockedReadRefuses(states: seq<System>, events: seq<Event>, a: nat, j: nat, c: nat,
                                              k: nat, call: nat, other: PolicySet)
    requires Execution(states, events) && Changed(states, events, a, other)
    requires a <= j < c < k < |states| && events[j] == Answer(call) && call in states[j + 1].used
    requires events[c].Concludes? && states[c].rb.lastCheck > states[j].now
    ensures states[k].rb.refusal.Some?
    decreases k
  {
    AlwaysCoherent(states, events, k - 1);
    StaysSuspect(states, events, a, j, k - 1, call, other);
    if k == c + 1 {
      SuspectConcludes(states[c], events[c].draw, states[k], states[j].now, other);
    } else {
      BlockedReadRefuses(states, events, a, j, c, k - 1, call, other);
      SuspectStep(states[k - 1], events[k - 1], states[k], states[j].now, other);
    }
  }

  // --- when checks begin -------------------------------------------------------

  /** Checks begin behind a call. While answers are not refused they begin at least half an
      interval apart, while they are at least a second; and a call never finds that more than
      an interval has passed without one beginning. */
  lemma {:induction false} ChecksAreSpaced(states: seq<System>, events: seq<Event>, k: nat)
    requires Execution(states, events) && k < |events| && states[k].rb.check.Idle?
    ensures states[k + 1].rb.check.Reading? ==>
              && events[k].Ask? && states[k + 1].rb.lastCheck == states[k].now
              && (states[k].rb.refusal.None? ==> states[k].now - states[k].rb.lastCheck >= states[k].rb.interval / 2.0)
              && (states[k].rb.refusal.Some? ==> states[k].now - states[k].rb.lastCheck >= RECHECK_WHILE_REFUSING_MS)
    ensures events[k].Ask? && states[k].now - states[k].rb.lastCheck >= states[k].rb.interval ==>
              states[k + 1].rb.check.Reading?
  {
    AlwaysCoherent(states, events, k);
  }
}
