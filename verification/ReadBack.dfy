/** The http engine's read-back of cedar-agent's policy set: the verifier, the agent, and
    an environment that may change the agent's set at any moment. */
module ReadBack {
  import opened Text

  /** An agent's policy set: each id, and the policy as the agent re-printed it. */
  type PolicySet = map<string, string>

  datatype Refusal = AlteredPolicySet | UnverifiablePolicySet

  /** What reading the set came to; `Unreachable` is a connection that failed outright. */
  datatype Read = Held(held: PolicySet) | Unverifiable | Unreachable

  const RECHECK_WHILE_REFUSING_MS: real := 1000.0

  // --- the sets --------------------------------------------------------------

  datatype Item = Policy(id: string, content: string) | NotAPolicy

  datatype Body = Items(items: seq<Item>) | NotAList

  /** Every item a policy, and no id twice. */
  ghost predicate IsPolicyList(items: seq<Item>) {
    && (forall i :: 0 <= i < |items| ==> items[i].Policy?)
    && (forall i, j :: 0 <= i < j < |items| && items[i].Policy? && items[j].Policy? ==> items[i].id != items[j].id)
  }

  /** A set holds exactly these items. */
  ghost predicate Gathers(items: seq<Item>, held: PolicySet) {
    && IsPolicyList(items) && |held| == |items|
    && (forall i :: 0 <= i < |items| ==> items[i].id in held && held[items[i].id] == items[i].content)
    && (forall id :: id in held ==> exists i :: 0 <= i < |items| && items[i].id == id)
  }

  lemma {:induction false} GathersOneMore(items: seq<Item>, held: PolicySet, item: Item, all: seq<Item>)
    requires Gathers(items, held) && all == items + [item]
    requires item.Policy? && item.id !in held
    ensures Gathers(all, held[item.id := item.content])
  {
    var more := held[item.id := item.content];
    forall id | id in more ensures exists i :: 0 <= i < |all| && all[i].id == id {
      if id == item.id {
        assert all[|items|].id == id;
      } else {
        var i :| 0 <= i < |items| && items[i].id == id;
        assert all[i].id == id;
      }
    }
  }

  lemma {:induction false} NoSetOf(items: seq<Item>, k: nat, held: PolicySet)
    requires k < |items| && Gathers(items[..k], held)
    requires items[k].NotAPolicy? || items[k].id in held
    ensures !IsPolicyList(items)
  {
    if items[k].Policy? {
      var i :| 0 <= i < k && items[..k][i].id == items[k].id;
      assert items[i] == items[..k][i];
    }
  }

  /** The set in the agent's answer: one policy an id, or nothing at all. */
  method AgentPolicySetOf(body: Body) returns (r: Option<PolicySet>)
    ensures r.Some? <==> body.Items? && IsPolicyList(body.items)
    ensures r.Some? ==> Gathers(body.items, r.value)
  {
    if body.NotAList? { return None; }
    var items := body.items;
    var held: PolicySet := map[];
    for k := 0 to |items|
      invariant Gathers(items[..k], held)
    {
      if items[k].NotAPolicy? || items[k].id in held {
        NoSetOf(items, k, held);
        return None;
      }
      GathersOneMore(items[..k], held, items[k], items[..k + 1]);
      held := held[items[k].id := items[k].content];
    }
    assert items[..|items|] == items;
    return Some(held);
  }

  /** Whether two copies are the same set: sizes, then each of one in the other. */
  method SameAgentSet(a: PolicySet, b: PolicySet) returns (same: bool)
    ensures same <==> a == b
  {
    if |a| != |b| { return false; }
    var ids := a.Keys;
    while ids != {}
      invariant ids <= a.Keys
      invariant forall id :: id in a.Keys - ids ==> id in b && b[id] == a[id]
      decreases ids
    {
      var id :| id in ids;
      if id !in b || b[id] != a[id] { return false; }
      ids := ids - {id};
    }
    SubsetOfSameSize(a.Keys, b.Keys);
    return true;
  }

  lemma {:induction false} SubsetOfSameSize(a: set<string>, b: set<string>)
    requires a <= b && |a| == |b|
    ensures a == b
    decreases a
  {
    if a != {} {
      var x :| x in a;
      SubsetOfSameSize(a - {x}, b - {x});
    }
  }

  datatype Counts = Counts(changed: nat, missing: nat, added: nat)

  /** How the held set differs from the baseline, in counts. */
  function Difference(baseline: PolicySet, held: PolicySet): Counts {
    Counts(|set id | id in baseline && id in held && held[id] != baseline[id]|,
           |set id | id in baseline && id !in held|,
           |set id | id in held && id !in baseline|)
  }

  /** The counts are all zero for the set that was pushed, and for no other. */
  lemma {:induction false} NoDifferenceIsTheSameSet(baseline: PolicySet, held: PolicySet)
    ensures Difference(baseline, held) == Counts(0, 0, 0) <==> held == baseline
  {
    var changed := set id | id in baseline && id in held && held[id] != baseline[id];
    var missing := set id | id in baseline && id !in held;
    var added := set id | id in held && id !in baseline;
    if Difference(baseline, held) == Counts(0, 0, 0) {
      assert changed == {} && missing == {} && added == {};
      assert forall id :: id in baseline ==> id !in missing && id !in changed;
      assert forall id :: id in held ==> id !in added;
    }
  }

  lemma {:induction false} CountOfParts(whole: set<string>, other: set<string>)
    ensures |whole| == |whole * other| + |whole - other|
  {
    assert whole == (whole * other) + (whole - other);
  }

  lemma {:induction false} PartsOfTheDifference(baseline: PolicySet, held: PolicySet)
    ensures Difference(baseline, held).missing == |baseline.Keys - held.Keys|
    ensures Difference(baseline, held).added == |held.Keys - baseline.Keys|
  {
    assert (set id | id in baseline && id !in held) == baseline.Keys - held.Keys;
    assert (set id | id in held && id !in baseline) == held.Keys - baseline.Keys;
  }

  /** The policies that are neither missing nor added are those in both sets. */
  lemma {:induction false} DifferenceAccountsForBoth(baseline: PolicySet, held: PolicySet)
    ensures var d, common := Difference(baseline, held), |baseline.Keys * held.Keys|;
            |baseline| == common + d.missing && |held| == common + d.added
  {
    PartsOfTheDifference(baseline, held);
    CountOfParts(baseline.Keys, held.Keys);
    CountOfParts(held.Keys, baseline.Keys);
    assert baseline.Keys * held.Keys == held.Keys * baseline.Keys;
  }

  /** One policy rewritten, taken out or put in counts as that. */
  lemma {:induction false} OneTamperingIsCounted(baseline: PolicySet, id: string, content: string)
    ensures id in baseline && content != baseline[id] ==> Difference(baseline, baseline[id := content]) == Counts(1, 0, 0)
    ensures id in baseline ==> Difference(baseline, baseline - {id}) == Counts(0, 1, 0)
    ensures id !in baseline ==> Difference(baseline, baseline[id := content]) == Counts(0, 0, 1)
  {
    var written := baseline[id := content];
    var none: set<string> := {};
    if id in baseline && content != baseline[id] {
      assert (set x | x in baseline && x in written && written[x] != baseline[x]) == {id};
      assert (set x | x in baseline && x !in written) == none;
      assert (set x | x in written && x !in baseline) == none;
    } else if id !in baseline {
      assert (set x | x in baseline && x in written && written[x] != baseline[x]) == none;
      assert (set x | x in baseline && x !in written) == none;
      assert (set x | x in written && x !in baseline) == {id};
    }
    if id in baseline {
      var taken := baseline - {id};
      assert (set x | x in baseline && x in taken && taken[x] != baseline[x]) == none;
      assert (set x | x in baseline && x !in taken) == {id};
      assert (set x | x in taken && x !in baseline) == none;
    }
  }

  // --- the read-back's own state ---------------------------------------------

  datatype Check = Idle | Reading(answeredBefore: nat, refusing: bool) | Pushing(refusingBefore: bool)

  datatype State = State(
    interval: real,
    baseline: PolicySet,
    refusal: Option<Refusal>,
    generation: nat,
    begun: Option<Refusal>,
    answeredCalls: nat,
    countedCalls: nat,
    recheck: real,
    wait: real,
    lastCheck: real,
    check: Check)

  /** From half the interval to all of it; a draw that is no number is all of it. */
  function DrawWait(interval: real, draw: Option<real>): (wait: real)
    requires interval >= 0.0
    ensures interval / 2.0 <= wait <= interval
  {
    var d := if draw.None? then 1.0 else if draw.value < 0.0 then 0.0 else if draw.value > 1.0 then 1.0 else draw.value;
    WaitIsWithin(interval, d);
    interval * (0.5 + 0.5 * d)
  }

  lemma {:induction false} WaitIsWithin(interval: real, d: real)
    requires interval >= 0.0 && 0.0 <= d <= 1.0
    ensures interval / 2.0 <= interval * (0.5 + 0.5 * d) <= interval
  {
    var rest := 0.5 - 0.5 * d;
    assert interval * (0.5 + 0.5 * d) == interval - interval * rest;
    assert 0.0 <= interval * d && 0.0 <= interval * rest;
    assert interval * (0.5 + 0.5 * d) == interval / 2.0 + 0.5 * (interval * d);
  }

  function Refuse(s: State, why: Refusal): State {
    if s.refusal == Some(why) then s
    else s.(refusal := Some(why), begun := Some(why), generation := s.generation + 1)
  }

  function Lift(s: State): State {
    s.(refusal := None, countedCalls := s.answeredCalls)
  }

  function Due(s: State): real {
    if s.refusal.None? then s.wait else if s.interval < s.recheck then s.interval else s.recheck
  }

  function Poll(s: State, now: real): State {
    if s.check.Idle? && now - s.lastCheck >= Due(s)
    then s.(lastCheck := now, check := Reading(s.answeredCalls, s.refusal.Some?))
    else s
  }

  /** After a check: back off while refusing, start over otherwise, and draw a new wait. */
  function Finish(s: State, refusing: bool, draw: Option<real>): State
    requires s.interval >= 0.0
  {
    s.(recheck := if refusing && s.refusal.Some?
                  then if s.recheck * 2.0 < s.interval then s.recheck * 2.0 else s.interval
                  else RECHECK_WHILE_REFUSING_MS,
       wait := DrawWait(s.interval, draw),
       check := Idle)
  }

  /** A read that reached nothing refuses only when calls were answered meanwhile. */
  function ConcludeUnreachable(s: State, refusing: bool, draw: Option<real>): State
    requires s.interval >= 0.0
  {
    var s1 := s.(countedCalls := s.answeredCalls);
    Finish(if s.refusal.None? && s.answeredCalls > s.countedCalls then Refuse(s1, UnverifiablePolicySet) else s1,
           refusing, draw)
  }

  /** A set that was read: this load's lifts a refusal, an empty one is pushed to again,
      any other refuses. */
  function ConcludeHeld(s: State, held: PolicySet, refusing: bool, draw: Option<real>): State
    requires s.interval >= 0.0
  {
    if held == s.baseline then Finish(if s.refusal.Some? then Lift(s) else s, refusing, draw)
    else if held == map[] then Refuse(s, AlteredPolicySet).(check := Pushing(refusing))
    else Finish(Refuse(s, AlteredPolicySet), refusing, draw)
  }

  /** The check, once its read is in. */
  function Conclude(s: State, read: Read, draw: Option<real>): State
    requires s.check.Reading? && s.interval >= 0.0
  {
    match read
    case Unreachable => ConcludeUnreachable(s, s.check.refusing, draw)
    case Unverifiable =>
      Finish(Refuse(s.(countedCalls := s.check.answeredBefore), UnverifiablePolicySet), s.check.refusing, draw)
    case Held(held) => ConcludeHeld(s.(countedCalls := s.check.answeredBefore), held, s.check.refusing, draw)
  }

  /** The push again: the agent's copy of it is the new baseline, or it failed. */
  function ConcludePush(s: State, copy: Option<PolicySet>, draw: Option<real>): State
    requires s.check.Pushing? && s.interval >= 0.0
  {
    match copy
    case Some(pushed) => Finish(Lift(s.(baseline := pushed)), s.check.refusingBefore, draw)
    case None => Finish(s, s.check.refusingBefore, draw)
  }

  /** Why the answer to a call made at `generation` is refused, if it is. */
  function RefusedSince(s: State, since: nat): Option<Refusal> {
    if s.refusal.Some? then s.refusal
    else if s.generation != since then s.begun
    else None
  }

  function Create(pushed: PolicySet, interval: real, draw: Option<real>, now: real): State
    requires interval >= RECHECK_WHILE_REFUSING_MS
  {
    State(interval, pushed, None, 0, None, 0, 0, RECHECK_WHILE_REFUSING_MS, DrawWait(interval, draw), now, Idle)
  }

  ghost predicate Valid(s: State) {
    && s.interval >= RECHECK_WHILE_REFUSING_MS
    && RECHECK_WHILE_REFUSING_MS <= s.recheck <= s.interval
    && s.interval / 2.0 <= s.wait <= s.interval
    && s.countedCalls <= s.answeredCalls
    && (s.check.Reading? ==> s.countedCalls <= s.check.answeredBefore <= s.answeredCalls)
    && (s.check.Pushing? ==> s.refusal == Some(AlteredPolicySet))
    && (s.refusal.Some? ==> s.begun == s.refusal)
    && (s.generation > 0 <==> s.begun.Some?)
  }

  lemma {:induction false} FinishKeepsValid(s: State, refusing: bool, draw: Option<real>)
    requires s.interval >= RECHECK_WHILE_REFUSING_MS && s.recheck >= RECHECK_WHILE_REFUSING_MS
    requires s.countedCalls <= s.answeredCalls
    requires s.refusal.Some? ==> s.begun == s.refusal
    requires s.generation > 0 <==> s.begun.Some?
    ensures Valid(Finish(s, refusing, draw))
  {
  }

  lemma {:induction false} ConcludeKeepsValid(s: State, read: Read, draw: Option<real>)
    requires Valid(s) && s.check.Reading?
    ensures Valid(Conclude(s, read, draw))
  {
    match read
    case Unreachable =>
      FinishKeepsValid(Refuse(s.(countedCalls := s.answeredCalls), UnverifiablePolicySet), s.check.refusing, draw);
      FinishKeepsValid(s.(countedCalls := s.answeredCalls), s.check.refusing, draw);
    case Unverifiable =>
      FinishKeepsValid(Refuse(s.(countedCalls := s.check.answeredBefore), UnverifiablePolicySet), s.check.refusing, draw);
    case Held(held) =>
      var s1 := s.(countedCalls := s.check.answeredBefore);
      FinishKeepsValid(if s1.refusal.Some? then Lift(s1) else s1, s.check.refusing, draw);
      FinishKeepsValid(Refuse(s1, AlteredPolicySet), s.check.refusing, draw);
  }

  lemma {:induction false} ConcludePushKeepsValid(s: State, copy: Option<PolicySet>, draw: Option<real>)
    requires Valid(s) && s.check.Pushing?
    ensures Valid(ConcludePush(s, copy, draw))
  {
  }

  // --- the object the engine holds -------------------------------------------

  class AgentReadBack {
    const interval: real
    var baseline: PolicySet
    var refusal: Option<Refusal>
    var generation: nat
    var begun: Option<Refusal>
    var answeredCalls: nat
    var countedCalls: nat
    var recheck: real
    var wait: real
    var lastCheck: real
    var check: Check

    ghost function View(): State
      reads this
    {
      State(interval, baseline, refusal, generation, begun, answeredCalls, countedCalls, recheck, wait, lastCheck, check)
    }

    constructor (pushed: PolicySet, intervalMs: real, draw: Option<real>, now: real)
      requires intervalMs >= RECHECK_WHILE_REFUSING_MS
      ensures View() == Create(pushed, intervalMs, draw, now) && Valid(View())
    {
      interval, baseline := intervalMs, pushed;
      refusal, generation, begun, answeredCalls, countedCalls := None, 0, None, 0, 0;
      recheck, wait, lastCheck, check := RECHECK_WHILE_REFUSING_MS, DrawWait(intervalMs, draw), now, Idle;
    }

    method RefuseAs(why: Refusal)
      modifies this
      ensures View() == Refuse(old(View()), why)
    {
      if refusal == Some(why) { return; }
      refusal, begun := Some(why), Some(why);
      generation := generation + 1;
    }

    method Answered()
      requires Valid(View())
      modifies this`answeredCalls
      ensures View() == old(View()).(answeredCalls := old(answeredCalls) + 1) && Valid(View())
    {
      answeredCalls := answeredCalls + 1;
    }

    /** Starts a check when one is due and none is out. */
    method StartDueCheck(now: real)
      requires Valid(View())
      modifies this
      ensures View() == Poll(old(View()), now) && Valid(View())
    {
      if !check.Idle? { return; }
      var due := if refusal.None? then wait else if interval < recheck then interval else recheck;
      if now - lastCheck < due { return; }
      lastCheck := now;
      check := Reading(answeredCalls, refusal.Some?);
    }

    method FinishCheck(refusing: bool, draw: Option<real>)
      requires interval >= 0.0
      modifies this
      ensures View() == Finish(old(View()), refusing, draw)
    {
      if refusing && refusal.Some? {
        recheck := if recheck * 2.0 < interval then recheck * 2.0 else interval;
      } else {
        recheck := RECHECK_WHILE_REFUSING_MS;
      }
      wait := DrawWait(interval, draw);
      check := Idle;
    }

    method ReadIsIn(read: Read, draw: Option<real>)
      requires Valid(View()) && check.Reading?
      modifies this
      ensures View() == Conclude(old(View()), read, draw) && Valid(View())
    {
      ConcludeKeepsValid(View(), read, draw);
      match read {
        case Unreachable => NothingReached(check.refusing, draw);
        case Unverifiable =>
          countedCalls := check.answeredBefore;
          RefuseAs(UnverifiablePolicySet);
          FinishCheck(check.refusing, draw);
        case Held(held) =>
          countedCalls := check.answeredBefore;
          SetIsIn(held, check.refusing, draw);
      }
    }

    method NothingReached(refusing: bool, draw: Option<real>)
      requires interval >= 0.0
      modifies this
      ensures View() == ConcludeUnreachable(old(View()), refusing, draw)
    {
      var answered := answeredCalls > countedCalls;
      countedCalls := answeredCalls;
      if refusal.None? && answered { RefuseAs(UnverifiablePolicySet); }
      FinishCheck(refusing, draw);
    }

    method SetIsIn(held: PolicySet, refusing: bool, draw: Option<real>)
      requires interval >= 0.0
      modifies this
      ensures View() == ConcludeHeld(old(View()), held, refusing, draw)
    {
      var same := SameAgentSet(held, baseline);
      if same {
        if refusal.Some? { refusal, countedCalls := None, answeredCalls; }
        FinishCheck(refusing, draw);
        return;
      }
      RefuseAs(AlteredPolicySet);
      if |held| == 0 {
        check := Pushing(refusing);
      } else {
        FinishCheck(refusing, draw);
      }
    }

    method PushIsIn(copy: Option<PolicySet>, draw: Option<real>)
      requires Valid(View()) && check.Pushing?
      modifies this
      ensures View() == ConcludePush(old(View()), copy, draw) && Valid(View())
    {
      var refusing := check.refusingBefore;
      if copy.Some? {
        baseline, refusal, countedCalls := copy.value, None, answeredCalls;
      }
      FinishCheck(refusing, draw);
    }
  }
}
