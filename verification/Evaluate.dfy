/** The evaluator: rules grouped by `ruleType`, OR within a group, AND across groups,
    asynchronous rules under a budget each and a deadline together.

    A rule is a function of the attributes alone, so for the one attribute map a
    decision is made over it is what it replies and how long that takes. A rule that
    never answers is one that takes at least its budget. */
module Evaluate {
  import opened Text

  datatype Reply = Answers(passed: bool) | AnswersNoBoolean | Raises(error: int)

  datatype AnyRule = AnyRule(
    ruleType: string,
    code: string,
    message: string,
    restricts: bool,
    async: bool,
    reply: Reply,
    takes: nat)

  datatype Group = Group(ruleType: string, rules: seq<AnyRule>)

  datatype RuleOutcome = RuleOutcome(code: string, message: string, passed: bool)

  datatype GroupOutcome = GroupOutcome(
    ruleType: string,
    passed: bool,
    evaluated: seq<RuleOutcome>,
    satisfiedBy: Option<RuleOutcome>,
    restricts: bool)

  datatype Decision =
    | Allow(groups: seq<GroupOutcome>)
    | Deny(code: string, message: string, groups: seq<GroupOutcome>)

  datatype Limit = RuleLimit | DeadlineLimit

  datatype Failure =
    | UnusableBound(field: string)
    | MixedGroup(ruleType: string, code: string)
    | RuleRaised(ruleType: string, code: string, error: int)
    | RuleAnsweredNoBoolean(ruleType: string, code: string)
    | RuleTimedOut(ruleType: string, code: string, limit: Limit, started: bool)

  datatype Result = Decided(decision: Decision) | Failed(failure: Failure)

  const NO_APPLICABLE_RULE := "no_applicable_rule"
  const NO_APPLICABLE_MESSAGE := "No applicable rule was collected for this request"
  const DEFAULT_RULE_TIMEOUT_MS := 2000
  const DEFAULT_EVALUATE_DEADLINE_MS := 5000
  const MAX_TIMER_MS := 2147483647

  datatype Options = Options(allowEmpty: bool, ruleTimeoutMs: Option<int>, evaluateDeadlineMs: Option<int>)

  datatype Budget = Budget(ruleTimeoutMs: nat, deadlineMs: nat)

  predicate Usable(bound: Option<int>) {
    bound.Some? ==> 1 <= bound.value <= MAX_TIMER_MS
  }

  function BudgetOf(o: Options): Budget
    requires Usable(o.ruleTimeoutMs) && Usable(o.evaluateDeadlineMs)
  {
    Budget(o.ruleTimeoutMs.GetOr(DEFAULT_RULE_TIMEOUT_MS), o.evaluateDeadlineMs.GetOr(DEFAULT_EVALUATE_DEADLINE_MS))
  }

  // --- grouping --------------------------------------------------------------

  function IndexOf(groups: seq<Group>, ruleType: string): (i: nat)
    ensures i <= |groups|
    ensures i < |groups| ==> groups[i].ruleType == ruleType
    ensures forall j :: 0 <= j < i ==> groups[j].ruleType != ruleType
  {
    if groups == [] || groups[0].ruleType == ruleType then 0
    else 1 + IndexOf(groups[1..], ruleType)
  }

  function AddToGroup(groups: seq<Group>, r: AnyRule): seq<Group> {
    var i := IndexOf(groups, r.ruleType);
    if i == |groups| then groups + [Group(r.ruleType, [r])]
    else groups[i := Group(r.ruleType, groups[i].rules + [r])]
  }

  /** The groups in the order their types first appear, each in collection order. */
  function GroupsOf(rules: seq<AnyRule>): seq<Group> {
    if rules == [] then []
    else AddToGroup(GroupsOf(rules[..|rules| - 1]), rules[|rules| - 1])
  }

  function Members(rules: seq<AnyRule>, ruleType: string): seq<AnyRule> {
    if rules == [] then []
    else
      var last := rules[|rules| - 1];
      Members(rules[..|rules| - 1], ruleType) + (if last.ruleType == ruleType then [last] else [])
  }

  ghost predicate Grouped(groups: seq<Group>, rules: seq<AnyRule>) {
    && (forall i, j :: 0 <= i < j < |groups| ==> groups[i].ruleType != groups[j].ruleType)
    && (forall i :: 0 <= i < |groups| ==> groups[i].rules == Members(rules, groups[i].ruleType) && groups[i].rules != [])
    && (forall k :: 0 <= k < |rules| ==> IndexOf(groups, rules[k].ruleType) < |groups|)
  }

  lemma {:induction false} MembersAre(rules: seq<AnyRule>, ruleType: string, r: AnyRule)
    ensures r in Members(rules, ruleType) <==> r in rules && r.ruleType == ruleType
  {
    if rules != [] {
      var init, last := rules[..|rules| - 1], rules[|rules| - 1];
      MembersAre(init, ruleType, r);
      assert rules == init + [last];
    }
  }

  lemma {:induction false} GroupsAreGrouped(rules: seq<AnyRule>)
    ensures Grouped(GroupsOf(rules), rules)
  {
    if rules != [] {
      var init, last := rules[..|rules| - 1], rules[|rules| - 1];
      GroupsAreGrouped(init);
      GroupedStep(GroupsOf(init), init, last, rules);
    }
  }

  lemma {:induction false} GroupedStep(groups: seq<Group>, rules: seq<AnyRule>, r: AnyRule, all: seq<AnyRule>)
    requires Grouped(groups, rules) && all == rules + [r]
    ensures Grouped(AddToGroup(groups, r), all)
  {
    var next := AddToGroup(groups, r);
    forall k | 0 <= k < |all| ensures IndexOf(next, all[k].ruleType) < |next| {
      AddKeepsTypes(groups, r, IndexOf(groups, all[k].ruleType));
      AddKeepsTypes(groups, r, IndexOf(groups, r.ruleType));
    }
    forall i | 0 <= i < |next| ensures next[i].rules == Members(all, next[i].ruleType) && next[i].rules != [] {
      AddedMembers(groups, rules, r, all, i);
    }
  }

  lemma {:induction false} AddKeepsTypes(groups: seq<Group>, r: AnyRule, i: nat)
    requires i < |groups| || i == IndexOf(groups, r.ruleType)
    ensures var next := AddToGroup(groups, r);
            i < |next| && next[i].ruleType == (if i < |groups| then groups[i].ruleType else r.ruleType)
  {
  }

  lemma {:induction false} AddedMembers(groups: seq<Group>, rules: seq<AnyRule>, r: AnyRule, all: seq<AnyRule>, i: nat)
    requires Grouped(groups, rules) && all == rules + [r]
    requires i < |AddToGroup(groups, r)|
    ensures var g := AddToGroup(groups, r)[i]; g.rules == Members(all, g.ruleType) && g.rules != []
  {
    assert all[..|rules|] == rules;
    if i == |groups| { NoMembers(rules, groups, r.ruleType); }
  }

  lemma {:induction false} NoMembers(rules: seq<AnyRule>, groups: seq<Group>, ruleType: string)
    requires forall k :: 0 <= k < |rules| ==> IndexOf(groups, rules[k].ruleType) < |groups|
    requires IndexOf(groups, ruleType) == |groups|
    ensures Members(rules, ruleType) == []
  {
    if rules != [] {
      NoMembers(rules[..|rules| - 1], groups, ruleType);
    }
  }

  // --- what one decision means -----------------------------------------------

  /** The rules a group asks: up to and including the first that passes. */
  function Prefix(rules: seq<AnyRule>): seq<AnyRule> {
    if rules == [] then []
    else if rules[0].reply == Answers(true) then [rules[0]]
    else [rules[0]] + Prefix(rules[1..])
  }

  function Asked(groups: seq<Group>): seq<AnyRule> {
    if groups == [] then []
    else Prefix(groups[0].rules) + Asked(groups[1..])
  }

  function Time(asked: seq<AnyRule>): nat {
    if asked == [] then 0 else asked[0].takes + Time(asked[1..])
  }

  /** What keeps a rule asked `elapsed` ms into the phase from answering, if anything. */
  function TroubleOf(r: AnyRule, b: Budget, elapsed: nat): Option<Failure> {
    if r.async && elapsed >= b.deadlineMs then Some(RuleTimedOut(r.ruleType, r.code, DeadlineLimit, false))
    else if r.async && elapsed + r.takes >= b.deadlineMs && b.deadlineMs - elapsed < b.ruleTimeoutMs
    then Some(RuleTimedOut(r.ruleType, r.code, DeadlineLimit, true))
    else if r.async && r.takes >= b.ruleTimeoutMs then Some(RuleTimedOut(r.ruleType, r.code, RuleLimit, true))
    else
      match r.reply
      case Answers(_) => None
      case AnswersNoBoolean => Some(RuleAnsweredNoBoolean(r.ruleType, r.code))
      case Raises(error) => Some(RuleRaised(r.ruleType, r.code, error))
  }

  function FirstTrouble(asked: seq<AnyRule>, b: Budget, elapsed: nat): Option<Failure> {
    if asked == [] then None
    else
      var trouble := TroubleOf(asked[0], b, elapsed);
      if trouble.Some? then trouble else FirstTrouble(asked[1..], b, elapsed + asked[0].takes)
  }

  function OutcomeOf(r: AnyRule): RuleOutcome {
    RuleOutcome(r.code, r.message, r.reply == Answers(true))
  }

  predicate Satisfied(rules: seq<AnyRule>) {
    exists i :: 0 <= i < |rules| && rules[i].reply == Answers(true)
  }

  function Explain(g: Group): GroupOutcome {
    var asked := Prefix(g.rules);
    var evaluated := seq(|asked|, i requires 0 <= i < |asked| => OutcomeOf(asked[i]));
    GroupOutcome(g.ruleType, Satisfied(g.rules), evaluated,
                 if Satisfied(g.rules) && evaluated != [] then Some(evaluated[|evaluated| - 1]) else None,
                 SomeRestricts(g.rules))
  }

  predicate SomeRestricts(rules: seq<AnyRule>) {
    exists i :: 0 <= i < |rules| && rules[i].restricts
  }

  function ExplainAll(groups: seq<Group>): (outcomes: seq<GroupOutcome>)
    ensures |outcomes| == |groups|
    ensures forall i :: 0 <= i < |groups| ==> outcomes[i] == Explain(groups[i])
  {
    if groups == [] then [] else ExplainAll(groups[..|groups| - 1]) + [Explain(groups[|groups| - 1])]
  }

  predicate Mixed(rules: seq<AnyRule>) {
    && SomeRestricts(rules)
    && (exists i :: 0 <= i < |rules| && !rules[i].restricts)
  }

  function FirstMixed(groups: seq<Group>): (i: nat)
    ensures i <= |groups|
    ensures i < |groups| ==> Mixed(groups[i].rules)
    ensures forall j :: 0 <= j < i ==> !Mixed(groups[j].rules)
  {
    if groups == [] || Mixed(groups[0].rules) then 0 else 1 + FirstMixed(groups[1..])
  }

  function FirstFailing(groups: seq<Group>): (i: nat)
    ensures i <= |groups|
    ensures i < |groups| ==> !Satisfied(groups[i].rules)
    ensures forall j :: 0 <= j < i ==> Satisfied(groups[j].rules)
  {
    if groups == [] || !Satisfied(groups[0].rules) then 0 else 1 + FirstFailing(groups[1..])
  }

  predicate HasGranting(rules: seq<AnyRule>) {
    exists i :: 0 <= i < |rules| && !rules[i].restricts
  }

  function Concluded(groups: seq<Group>): Result
    requires forall i :: 0 <= i < |groups| ==> groups[i].rules != []
  {
    var failing := FirstFailing(groups);
    if failing == |groups| then Decided(Allow(ExplainAll(groups)))
    else
      var representative := groups[failing].rules[0];
      Decided(Deny(representative.code, representative.message, ExplainAll(groups)))
  }

  function Judged(groups: seq<Group>, b: Budget): Result
    requires forall i :: 0 <= i < |groups| ==> groups[i].rules != []
  {
    var trouble := FirstTrouble(Asked(groups), b, 0);
    if trouble.Some? then Failed(trouble.value) else Concluded(groups)
  }

  /** The decision, without the loops: who mixes, who grants, whether any rule the
      groups ask gets into trouble, and which groups hold a passing rule. */
  function Meaning(rules: seq<AnyRule>, o: Options): Result {
    var groups := GroupsOf(rules);
    if !Usable(o.ruleTimeoutMs) then Failed(UnusableBound("ruleTimeoutMs"))
    else if !Usable(o.evaluateDeadlineMs) then Failed(UnusableBound("evaluateDeadlineMs"))
    else
      var mixed := FirstMixed(groups);
      if mixed < |groups| then Failed(MixedGroup(groups[mixed].ruleType, groups[mixed].rules[0].code))
      else if !HasGranting(rules) && !o.allowEmpty
      then Decided(Deny(NO_APPLICABLE_RULE, NO_APPLICABLE_MESSAGE, []))
      else
        GroupsAreGrouped(rules);
        Judged(groups, BudgetOf(o))
  }

  predicate Allows(rules: seq<AnyRule>, o: Options) {
    var r := Meaning(rules, o);
    r.Decided? && r.decision.Allow?
  }

  // --- the loops -------------------------------------------------------------

  lemma {:induction false} TimeConcat(a: seq<AnyRule>, c: seq<AnyRule>)
    ensures Time(a + c) == Time(a) + Time(c)
  {
    if a == [] {
      assert a + c == c;
    } else {
      assert (a + c)[1..] == a[1..] + c;
      TimeConcat(a[1..], c);
    }
  }

  lemma {:induction false} TroubleConcat(a: seq<AnyRule>, c: seq<AnyRule>, b: Budget, elapsed: nat)
    ensures FirstTrouble(a + c, b, elapsed) ==
            (if FirstTrouble(a, b, elapsed).Some? then FirstTrouble(a, b, elapsed)
             else FirstTrouble(c, b, elapsed + Time(a)))
  {
    if a == [] {
      assert a + c == c;
    } else {
      assert (a + c)[1..] == a[1..] + c;
      TroubleConcat(a[1..], c, b, elapsed + a[0].takes);
    }
  }

  /** A prefix none of whose rules passes is asked whole. */
  lemma {:induction false} PrefixOfFailing(rules: seq<AnyRule>, k: nat)
    requires k <= |rules| && forall i :: 0 <= i < k ==> rules[i].reply != Answers(true)
    ensures Prefix(rules) == rules[..k] + Prefix(rules[k..])
  {
    if k > 0 {
      PrefixOfFailing(rules[1..], k - 1);
      assert rules[1..][..k - 1] == rules[1..k] && rules[1..][k - 1..] == rules[k..];
      assert rules[..k] == [rules[0]] + rules[1..k];
    }
  }

  datatype Ran = Answered(passed: bool) | Troubled(failure: Failure)

  /** One rule, asked `elapsed` ms into the phase. */
  method AskRule(r: AnyRule, b: Budget, elapsed: nat) returns (ran: Ran)
    requires b.ruleTimeoutMs >= 1
    ensures match TroubleOf(r, b, elapsed)
            case Some(f) => ran == Troubled(f)
            case None => ran == Answered(r.reply == Answers(true))
  {
    if r.async {
      var remaining: int := b.deadlineMs - elapsed;
      var phaseBinds := remaining < b.ruleTimeoutMs;
      if remaining <= 0 { return Troubled(RuleTimedOut(r.ruleType, r.code, DeadlineLimit, false)); }
      var timeout := if phaseBinds then remaining else b.ruleTimeoutMs;
      if r.takes >= timeout {
        return Troubled(RuleTimedOut(r.ruleType, r.code, if phaseBinds then DeadlineLimit else RuleLimit, true));
      }
    }
    match r.reply {
      case Answers(passed) => return Answered(passed);
      case AnswersNoBoolean => return Troubled(RuleAnsweredNoBoolean(r.ruleType, r.code));
      case Raises(error) => return Troubled(RuleRaised(r.ruleType, r.code, error));
    }
  }

  datatype GroupRan = GroupDone(outcome: GroupOutcome, elapsed: nat) | GroupTroubled(failure: Failure)

  /** The group's first `k` rules have been asked, and none of them passed. */
  ghost predicate AskedSoFar(rules: seq<AnyRule>, k: nat, b: Budget, elapsed: nat, now: nat) {
    && k <= |rules|
    && (forall i :: 0 <= i < k ==> rules[i].reply != Answers(true))
    && now == elapsed + Time(rules[..k])
    && FirstTrouble(rules[..k], b, elapsed) == None
  }

  ghost predicate Recorded(rules: seq<AnyRule>, k: nat, evaluated: seq<RuleOutcome>) {
    k <= |rules| && |evaluated| == k && forall i :: 0 <= i < k ==> evaluated[i] == OutcomeOf(rules[i])
  }

  /** One group: its rules in order, up to the first that passes. */
  method EvaluateGroup(g: Group, restricts: bool, b: Budget, elapsed: nat) returns (ran: GroupRan)
    requires b.ruleTimeoutMs >= 1
    requires restricts == SomeRestricts(g.rules)
    ensures match FirstTrouble(Prefix(g.rules), b, elapsed)
            case Some(f) => ran == GroupTroubled(f)
            case None => ran == GroupDone(Explain(g), elapsed + Time(Prefix(g.rules)))
  {
    var evaluated: seq<RuleOutcome> := [];
    var now: nat := elapsed;
    var k := 0;
    while k < |g.rules|
      invariant AskedSoFar(g.rules, k, b, elapsed, now)
      invariant Recorded(g.rules, k, evaluated)
    {
      var rule := g.rules[k];
      var asked := AskRule(rule, b, now);
      if asked.Troubled? {
        NextTrouble(g.rules, k, b, elapsed, now);
        return GroupTroubled(asked.failure);
      }
      var outcome := RuleOutcome(rule.code, rule.message, asked.passed);
      evaluated := evaluated + [outcome];
      if asked.passed {
        PassingStopsAt(g, k, evaluated, b, elapsed, now);
        return GroupDone(GroupOutcome(g.ruleType, true, evaluated, Some(outcome), restricts), now + rule.takes);
      }
      NextAsked(g.rules, k, b, elapsed, now);
      now := now + rule.takes;
      k := k + 1;
    }
    FailingIsAskedWhole(g, evaluated);
    assert g.rules[..k] == g.rules;
    return GroupDone(GroupOutcome(g.ruleType, false, evaluated, None, restricts), now);
  }

  lemma {:induction false} NextTrouble(rules: seq<AnyRule>, k: nat, b: Budget, elapsed: nat, now: nat)
    requires k < |rules| && AskedSoFar(rules, k, b, elapsed, now) && TroubleOf(rules[k], b, now).Some?
    ensures FirstTrouble(Prefix(rules), b, elapsed) == TroubleOf(rules[k], b, now)
  {
    PrefixOfFailing(rules, k);
    assert Prefix(rules[k..])[0] == rules[k];
    TroubleConcat(rules[..k], Prefix(rules[k..]), b, elapsed);
  }

  lemma {:induction false} NextAsked(rules: seq<AnyRule>, k: nat, b: Budget, elapsed: nat, now: nat)
    requires k < |rules| && AskedSoFar(rules, k, b, elapsed, now) && TroubleOf(rules[k], b, now).None?
    ensures FirstTrouble(rules[..k + 1], b, elapsed) == None
    ensures now + rules[k].takes == elapsed + Time(rules[..k + 1])
  {
    assert rules[..k + 1] == rules[..k] + [rules[k]];
    TroubleConcat(rules[..k], [rules[k]], b, elapsed);
    TimeConcat(rules[..k], [rules[k]]);
  }

  lemma {:induction false} PassingStopsAt(g: Group, k: nat, evaluated: seq<RuleOutcome>, b: Budget, elapsed: nat,
                                          now: nat)
    requires k < |g.rules| && g.rules[k].reply == Answers(true)
    requires AskedSoFar(g.rules, k, b, elapsed, now) && TroubleOf(g.rules[k], b, now).None?
    requires Recorded(g.rules, k + 1, evaluated)
    ensures FirstTrouble(Prefix(g.rules), b, elapsed) == None
    ensures now + g.rules[k].takes == elapsed + Time(Prefix(g.rules))
    ensures Explain(g) == GroupOutcome(g.ruleType, true, evaluated, Some(evaluated[k]), SomeRestricts(g.rules))
  {
    NextAsked(g.rules, k, b, elapsed, now);
    PrefixOfFailing(g.rules, k);
    assert g.rules[..k + 1] == g.rules[..k] + [g.rules[k]];
    assert Explain(g).evaluated == evaluated;
  }

  lemma {:induction false} FailingIsAskedWhole(g: Group, evaluated: seq<RuleOutcome>)
    requires !Satisfied(g.rules)
    requires Recorded(g.rules, |g.rules|, evaluated)
    ensures Prefix(g.rules) == g.rules
    ensures Explain(g) == GroupOutcome(g.ruleType, false, evaluated, None, SomeRestricts(g.rules))
  {
    PrefixOfFailing(g.rules, |g.rules|);
    assert g.rules[..|g.rules|] == g.rules;
    assert Explain(g).evaluated == evaluated;
  }

  /** `Map.groupBy(rules, (rule) => rule.ruleType)`. */
  method GroupBy(rules: seq<AnyRule>) returns (groups: seq<Group>)
    ensures groups == GroupsOf(rules)
  {
    groups := [];
    for k := 0 to |rules|
      invariant groups == GroupsOf(rules[..k])
    {
      var i := 0;
      while i < |groups| && groups[i].ruleType != rules[k].ruleType
        invariant i <= |groups|
        invariant forall j :: 0 <= j < i ==> groups[j].ruleType != rules[k].ruleType
      {
        i := i + 1;
      }
      assert rules[..k + 1][..k] == rules[..k];
      assert i == IndexOf(groups, rules[k].ruleType);
      if i == |groups| {
        groups := groups + [Group(rules[k].ruleType, [rules[k]])];
      } else {
        groups := groups[i := Group(rules[k].ruleType, groups[i].rules + [rules[k]])];
      }
    }
    assert rules[..|rules|] == rules;
  }

  /** The kind of every group, or the first that mixes kinds. */
  method RestrictingGroups(groups: seq<Group>) returns (restricting: seq<bool>, mixed: nat)
    requires forall i :: 0 <= i < |groups| ==> groups[i].rules != []
    ensures mixed == FirstMixed(groups)
    ensures mixed == |groups| ==>
              |restricting| == |groups| &&
              forall i :: 0 <= i < |groups| ==>
                restricting[i] == SomeRestricts(groups[i].rules)
  {
    restricting, mixed := [], 0;
    while mixed < |groups|
      invariant mixed <= |groups| && |restricting| == mixed
      invariant forall i :: 0 <= i < mixed ==> !Mixed(groups[i].rules)
      invariant forall i :: 0 <= i < mixed ==>
                  restricting[i] == SomeRestricts(groups[i].rules)
    {
      var rules := groups[mixed].rules;
      var count := 0;
      for k := 0 to |rules|
        invariant count <= k
        invariant count > 0 <==> exists i :: 0 <= i < k && rules[i].restricts
        invariant count < k <==> exists i :: 0 <= i < k && !rules[i].restricts
      {
        if rules[k].restricts { count := count + 1; }
      }
      if 0 < count < |rules| { return; }
      restricting := restricting + [count > 0];
      mixed := mixed + 1;
    }
  }

  datatype GroupsRan = GroupsDone(outcomes: seq<GroupOutcome>) | GroupsTroubled(failure: Failure)

  /** Every group in turn, the ones after a failing one included. */
  method EvaluateGroups(groups: seq<Group>, restricting: seq<bool>, b: Budget) returns (ran: GroupsRan)
    requires b.ruleTimeoutMs >= 1 && |restricting| == |groups|
    requires forall i :: 0 <= i < |groups| ==>
               restricting[i] == SomeRestricts(groups[i].rules)
    ensures match FirstTrouble(Asked(groups), b, 0)
            case Some(f) => ran == GroupsTroubled(f)
            case None => ran == GroupsDone(ExplainAll(groups))
  {
    var outcomes: seq<GroupOutcome> := [];
    var elapsed := 0;
    for k := 0 to |groups|
      invariant outcomes == ExplainAll(groups[..k])
      invariant elapsed == Time(Asked(groups[..k]))
      invariant FirstTrouble(Asked(groups[..k]), b, 0) == None
    {
      var group := EvaluateGroup(groups[k], restricting[k], b, elapsed);
      GroupsLoopStep(groups, k, b);
      if group.GroupTroubled? {
        TroubleEndsIt(groups, k + 1, b);
        return GroupsTroubled(group.failure);
      }
      outcomes := outcomes + [group.outcome];
      elapsed := group.elapsed;
    }
    assert groups[..|groups|] == groups;
    return GroupsDone(outcomes);
  }

  method Evaluate(rules: seq<AnyRule>, o: Options) returns (r: Result)
    ensures r == Meaning(rules, o)
  {
    if !Usable(o.ruleTimeoutMs) { return Failed(UnusableBound("ruleTimeoutMs")); }
    if !Usable(o.evaluateDeadlineMs) { return Failed(UnusableBound("evaluateDeadlineMs")); }
    var groups := GroupBy(rules);
    GroupsAreGrouped(rules);
    var restricting, mixed := RestrictingGroups(groups);
    if mixed < |groups| {
      return Failed(MixedGroup(groups[mixed].ruleType, groups[mixed].rules[0].code));
    }
    GrantingIsSomeGroup(rules, restricting);
    var granting := false in restricting;
    if !granting && !o.allowEmpty {
      return Decided(Deny(NO_APPLICABLE_RULE, NO_APPLICABLE_MESSAGE, []));
    }
    var ran := EvaluateGroups(groups, restricting, BudgetOf(o));
    if ran.GroupsTroubled? { return Failed(ran.failure); }
    ConcludesTheGroups(groups);
    r := Conclude(ran.outcomes);
  }

  lemma {:induction false} GrantingIsSomeGroup(rules: seq<AnyRule>, restricting: seq<bool>)
    requires var groups := GroupsOf(rules);
             && |restricting| == |groups| && FirstMixed(groups) == |groups|
             && forall i :: 0 <= i < |groups| ==>
                  restricting[i] == SomeRestricts(groups[i].rules)
    ensures HasGranting(rules) <==> false in restricting
  {
    var groups := GroupsOf(rules);
    GroupsAreGrouped(rules);
    if HasGranting(rules) {
      var k :| 0 <= k < |rules| && !rules[k].restricts;
      var i := IndexOf(groups, rules[k].ruleType);
      MembersAre(rules, groups[i].ruleType, rules[k]);
      assert !Mixed(groups[i].rules);
      assert restricting[i] == false;
    }
    if false in restricting {
      var i :| 0 <= i < |restricting| && !restricting[i];
      MembersAre(rules, groups[i].ruleType, groups[i].rules[0]);
      assert !groups[i].rules[0].restricts;
    }
  }

  lemma {:induction false} AskedConcat(a: seq<Group>, c: seq<Group>)
    ensures Asked(a + c) == Asked(a) + Asked(c)
  {
    if a == [] {
      assert a + c == c;
    } else {
      assert (a + c)[1..] == a[1..] + c;
      AskedConcat(a[1..], c);
    }
  }

  lemma {:induction false} AskedSnoc(groups: seq<Group>, k: nat)
    requires k < |groups|
    ensures Asked(groups[..k + 1]) == Asked(groups[..k]) + Prefix(groups[k].rules)
  {
    assert groups[..k + 1] == groups[..k] + [groups[k]] && [groups[k]][1..] == [];
    AskedConcat(groups[..k], [groups[k]]);
    assert Asked([groups[k]]) == Prefix(groups[k].rules) + [];
  }

  lemma {:induction false} GroupsLoopStep(groups: seq<Group>, k: nat, b: Budget)
    requires k < |groups| && FirstTrouble(Asked(groups[..k]), b, 0) == None
    ensures FirstTrouble(Asked(groups[..k + 1]), b, 0) ==
            FirstTrouble(Prefix(groups[k].rules), b, Time(Asked(groups[..k])))
    ensures Time(Asked(groups[..k + 1])) == Time(Asked(groups[..k])) + Time(Prefix(groups[k].rules))
    ensures ExplainAll(groups[..k + 1]) == ExplainAll(groups[..k]) + [Explain(groups[k])]
  {
    AskedSnoc(groups, k);
    TroubleConcat(Asked(groups[..k]), Prefix(groups[k].rules), b, 0);
    TimeConcat(Asked(groups[..k]), Prefix(groups[k].rules));
    assert groups[..k + 1][..k] == groups[..k];
  }

  lemma {:induction false} TroubleEndsIt(groups: seq<Group>, k: nat, b: Budget)
    requires k <= |groups| && FirstTrouble(Asked(groups[..k]), b, 0).Some?
    ensures FirstTrouble(Asked(groups), b, 0) == FirstTrouble(Asked(groups[..k]), b, 0)
  {
    assert groups == groups[..k] + groups[k..];
    AskedConcat(groups[..k], groups[k..]);
    TroubleConcat(Asked(groups[..k]), Asked(groups[k..]), b, 0);
  }

  /** A deny names the first failing group; the reason carries all. */
  method Conclude(outcomes: seq<GroupOutcome>) returns (r: Result)
    requires forall i :: 0 <= i < |outcomes| && !outcomes[i].passed ==> outcomes[i].evaluated != []
    ensures (forall i :: 0 <= i < |outcomes| ==> outcomes[i].passed) ==> r == Decided(Allow(outcomes))
    ensures forall i :: 0 <= i < |outcomes| && !outcomes[i].passed && (forall j :: 0 <= j < i ==> outcomes[j].passed) ==>
              r == Decided(Deny(outcomes[i].evaluated[0].code, outcomes[i].evaluated[0].message, outcomes))
  {
    for i := 0 to |outcomes|
      invariant forall j :: 0 <= j < i ==> outcomes[j].passed
    {
      if !outcomes[i].passed {
        var representative := outcomes[i].evaluated[0];
        return Decided(Deny(representative.code, representative.message, outcomes));
      }
    }
    return Decided(Allow(outcomes));
  }

  /** Of the groups' explanations, what is concluded is what the groups mean. */
  lemma {:induction false} ConcludesTheGroups(groups: seq<Group>)
    requires forall i :: 0 <= i < |groups| ==> groups[i].rules != []
    ensures var outcomes, i := ExplainAll(groups), FirstFailing(groups);
            && (forall j :: 0 <= j < |outcomes| && !outcomes[j].passed ==> outcomes[j].evaluated != [])
            && (forall j :: 0 <= j < i ==> outcomes[j].passed)
            && (i < |groups| ==>
                !outcomes[i].passed && Concluded(groups) ==
                Decided(Deny(outcomes[i].evaluated[0].code, outcomes[i].evaluated[0].message, outcomes)))
  {
    var outcomes := ExplainAll(groups);
    forall j | 0 <= j < |outcomes| && !outcomes[j].passed
      ensures outcomes[j].evaluated != [] && outcomes[j].evaluated[0] == OutcomeOf(groups[j].rules[0])
    {
      FailingRepresentative(groups[j]);
    }
  }

  lemma {:induction false} FailingRepresentative(g: Group)
    requires g.rules != [] && !Satisfied(g.rules)
    ensures Explain(g).evaluated != [] && Explain(g).evaluated[0] == OutcomeOf(g.rules[0])
  {
  }
}
