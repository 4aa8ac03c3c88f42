/** The two bounds a decision is made under, as the options give them, and exactly when and
    how a decision fails instead of being made. */
module EvaluateFailures {
  import opened Text
  import opened Evaluate
  import opened EvaluateLaws

  /** The budget of one rule: the one given, or two seconds. */
  function RuleTimeout(o: Options): int {
    if o.ruleTimeoutMs.Some? then o.ruleTimeoutMs.value else 2000
  }

  /** The deadline of the rules together: the one given, or five seconds. */
  function RulesDeadline(o: Options): int {
    if o.evaluateDeadlineMs.Some? then o.evaluateDeadlineMs.value else 5000
  }

  predicate InRange(bound: int) { 1 <= bound <= 2147483647 }

  lemma {:induction false} BoundsAreTheOptions(o: Options)
    ensures Usable(o.ruleTimeoutMs) <==> InRange(RuleTimeout(o))
    ensures Usable(o.evaluateDeadlineMs) <==> InRange(RulesDeadline(o))
    ensures InRange(RuleTimeout(o)) && InRange(RulesDeadline(o)) ==>
              BudgetOf(o) == Budget(RuleTimeout(o), RulesDeadline(o))
  {
  }

  /** A bound that is no positive timer delay fails the decision before anything else, the
      rule's own first. */
  lemma {:induction false} UnusableBoundsAreRefused(rules: seq<AnyRule>, o: Options)
    ensures Meaning(rules, o) == Failed(UnusableBound("ruleTimeoutMs")) <==> !InRange(RuleTimeout(o))
    ensures Meaning(rules, o) == Failed(UnusableBound("evaluateDeadlineMs")) <==>
            InRange(RuleTimeout(o)) && !InRange(RulesDeadline(o))
  {
    BoundsAreTheOptions(o);
    GroupsAreGrouped(rules);
    if Usable(o.ruleTimeoutMs) && Usable(o.evaluateDeadlineMs) {
      TroubleIsOfARule(Asked(GroupsOf(rules)), BudgetOf(o), 0);
    }
    assert "ruleTimeoutMs"[0] != "evaluateDeadlineMs"[0];
  }

  lemma {:induction false} TroubleIsOfARule(asked: seq<AnyRule>, b: Budget, elapsed: nat)
    ensures var trouble := FirstTrouble(asked, b, elapsed);
            trouble.Some? ==> !trouble.value.UnusableBound? && !trouble.value.MixedGroup?
  {
    if asked != [] { TroubleIsOfARule(asked[1..], b, elapsed + asked[0].takes); }
  }

  /** A single granting asynchronous rule that answers `true` is what the two bounds decide
      of: it allows exactly when its answer comes within both. */
  lemma {:induction false} ConfiguredBudgetsApply(r: AnyRule, o: Options)
    requires !r.restricts && r.async && r.reply == Answers(true)
    ensures Allows([r], o) <==>
            && InRange(RuleTimeout(o)) && InRange(RulesDeadline(o))
            && r.takes < RuleTimeout(o) && r.takes < RulesDeadline(o)
  {
    var rules := [r];
    assert r in rules && !rules[0].restricts;
    assert TypePasses(rules, r.ruleType);
    assert EveryTypePasses(rules) && KindsKeptApart(rules) && HasGranting(rules);
    OneGroup(r);
    BoundsAreTheOptions(o);
    AllowsIff(rules, o);
    if InRange(RuleTimeout(o)) && InRange(RulesDeadline(o)) { OneTrouble(r, BudgetOf(o)); }
  }

  lemma {:induction false} OneGroup(r: AnyRule)
    ensures GroupsOf([r]) == [Group(r.ruleType, [r])]
    ensures Asked(GroupsOf([r])) == [r]
  {
    assert [r][..0] == [] && [r][1..] == [];
    assert GroupsOf([r]) == AddToGroup([], r);
    assert [Group(r.ruleType, [r])][1..] == [];
    assert Prefix([r]) == [r];
  }

  lemma {:induction false} OneTrouble(r: AnyRule, b: Budget)
    ensures FirstTrouble([r], b, 0) == TroubleOf(r, b, 0)
  {
    assert [r][1..] == [];
  }

  lemma {:induction false} OneIsNotMixed(r: AnyRule)
    ensures FirstMixed([Group(r.ruleType, [r])]) == 1
  {
    var groups := [Group(r.ruleType, [r])];
    assert groups[0].rules == [r] && !Mixed(groups[0].rules);
    assert groups[1..] == [];
  }

  // --- what each failure says --------------------------------------------------

  /** The answer of the `k`-th rule asked came within both bounds, and was a boolean. */
  ghost predicate AnsweredInTime(asked: seq<AnyRule>, o: Options, k: nat)
    requires k < |asked|
  {
    && asked[k].reply.Answers?
    && (asked[k].async ==> asked[k].takes < RuleTimeout(o) && Time(asked[..k + 1]) < RulesDeadline(o))
  }

  /** How a rule asked with `left` ms of the deadline to go fails: not started when none is
      left, out of time under whichever bound is the shorter, or by its own reply. */
  ghost predicate FailsSo(r: AnyRule, ruleTimeout: int, left: int, f: Failure) {
    if r.async && left <= 0 then f == RuleTimedOut(r.ruleType, r.code, DeadlineLimit, false)
    else if r.async && left < ruleTimeout && left <= r.takes
    then f == RuleTimedOut(r.ruleType, r.code, DeadlineLimit, true)
    else if r.async && ruleTimeout <= left && ruleTimeout <= r.takes
    then f == RuleTimedOut(r.ruleType, r.code, RuleLimit, true)
    else
      || (r.reply.AnswersNoBoolean? && f == RuleAnsweredNoBoolean(r.ruleType, r.code))
      || (r.reply.Raises? && f == RuleRaised(r.ruleType, r.code, r.reply.error))
  }

  /** The `k`-th rule asked fails so, and every rule asked before it answered in time. */
  ghost predicate FailsAt(asked: seq<AnyRule>, o: Options, k: nat, f: Failure) {
    && k < |asked|
    && (forall j: nat :: j < k ==> AnsweredInTime(asked, o, j))
    && FailsSo(asked[k], RuleTimeout(o), RulesDeadline(o) - Time(asked[..k]), f)
  }

  lemma {:induction false} TroubleFailsSo(r: AnyRule, b: Budget, elapsed: nat, f: Failure)
    requires b.ruleTimeoutMs >= 1
    ensures TroubleOf(r, b, elapsed) == Some(f) <==> FailsSo(r, b.ruleTimeoutMs, b.deadlineMs - elapsed, f)
    ensures TroubleOf(r, b, elapsed) == None <==>
            r.reply.Answers? && (r.async ==> r.takes < b.ruleTimeoutMs && elapsed + r.takes < b.deadlineMs)
  {
  }

  lemma {:induction false} NoneBefore(asked: seq<AnyRule>, o: Options, b: Budget, k: nat)
    requires b.ruleTimeoutMs == RuleTimeout(o) >= 1 && b.deadlineMs == RulesDeadline(o)
    requires k <= |asked|
    ensures FirstTrouble(asked[..k], b, 0) == None <==> forall j: nat :: j < k ==> AnsweredInTime(asked, o, j)
    decreases k
  {
    if k > 0 {
      NoneBefore(asked, o, b, k - 1);
      var before, r := asked[..k - 1], asked[k - 1];
      assert asked[..k] == before + [r];
      TroubleConcat(before, [r], b, 0);
      TimeConcat(before, [r]);
      assert [r][1..] == [];
      TroubleFailsSo(r, b, Time(before), RuleTimedOut("", "", RuleLimit, true));
      assert AnsweredInTime(asked, o, k - 1) <==> TroubleOf(r, b, Time(before)) == None;
    }
  }

  lemma {:induction false} TroubleAtIs(asked: seq<AnyRule>, o: Options, b: Budget, k: nat, f: Failure)
    requires b.ruleTimeoutMs == RuleTimeout(o) >= 1 && b.deadlineMs == RulesDeadline(o)
    requires FailsAt(asked, o, k, f)
    ensures FirstTrouble(asked, b, 0) == Some(f)
  {
    NoneBefore(asked, o, b, k);
    TroubleFailsSo(asked[k], b, Time(asked[..k]), f);
    assert asked == asked[..k] + asked[k..];
    TroubleConcat(asked[..k], asked[k..], b, 0);
  }

  lemma {:induction false} TroubleHasItsPlace(asked: seq<AnyRule>, b: Budget, elapsed: nat) returns (k: nat)
    requires FirstTrouble(asked, b, elapsed).Some?
    ensures k < |asked| && FirstTrouble(asked[..k], b, elapsed) == None
    ensures FirstTrouble(asked, b, elapsed) == TroubleOf(asked[k], b, elapsed + Time(asked[..k]))
  {
    if TroubleOf(asked[0], b, elapsed).Some? {
      k := 0;
    } else {
      var rest := TroubleHasItsPlace(asked[1..], b, elapsed + asked[0].takes);
      k := rest + 1;
      assert asked[..k][1..] == asked[1..][..rest];
    }
  }

  lemma {:induction false} FirstTroubleIs(asked: seq<AnyRule>, o: Options, b: Budget, f: Failure)
    requires b.ruleTimeoutMs == RuleTimeout(o) >= 1 && b.deadlineMs == RulesDeadline(o)
    ensures FirstTrouble(asked, b, 0) == Some(f) <==> exists k: nat :: FailsAt(asked, o, k, f)
  {
    if FirstTrouble(asked, b, 0) == Some(f) {
      var k := TroubleHasItsPlace(asked, b, 0);
      NoneBefore(asked, o, b, k);
      TroubleFailsSo(asked[k], b, Time(asked[..k]), f);
      assert FailsAt(asked, o, k, f);
    }
    if exists k: nat :: FailsAt(asked, o, k, f) {
      var k: nat :| FailsAt(asked, o, k, f);
      TroubleAtIs(asked, o, b, k, f);
    }
  }

  /** Past the checks that come before any rule, the decision fails so exactly when a rule it
      asks does, and every rule asked before that one answered in time. */
  lemma {:induction false} FailsExactlyWhen(rules: seq<AnyRule>, o: Options, f: Failure)
    requires InRange(RuleTimeout(o)) && InRange(RulesDeadline(o)) && KindsKeptApart(rules)
    requires o.allowEmpty || exists r :: r in rules && !r.restricts
    ensures Meaning(rules, o) == Failed(f) <==> exists k: nat :: FailsAt(Asked(GroupsOf(rules)), o, k, f)
  {
    BoundsAreTheOptions(o);
    MixedIffKindsMeet(rules);
    GroupsAreGrouped(rules);
    GrantsIff(rules);
    JudgedFails(GroupsOf(rules), BudgetOf(o), f);
    FirstTroubleIs(Asked(GroupsOf(rules)), o, BudgetOf(o), f);
  }

  lemma {:induction false} JudgedFails(groups: seq<Group>, b: Budget, f: Failure)
    requires forall i :: 0 <= i < |groups| ==> groups[i].rules != []
    ensures Judged(groups, b) == Failed(f) <==> FirstTrouble(Asked(groups), b, 0) == Some(f)
  {
  }

  // --- the group a mix is blamed on -------------------------------------------

  ghost predicate HasBothKinds(rules: seq<AnyRule>, ruleType: string) {
    exists r, q :: r in rules && q in rules && r.ruleType == q.ruleType == ruleType && r.restricts && !q.restricts
  }

  lemma {:induction false} MixedIffBothKinds(rules: seq<AnyRule>, i: nat)
    requires i < |GroupsOf(rules)|
    ensures Mixed(GroupsOf(rules)[i].rules) <==> HasBothKinds(rules, GroupsOf(rules)[i].ruleType)
  {
    var g := GroupsOf(rules)[i];
    GroupsAreGrouped(rules);
    if Mixed(g.rules) {
      var a :| 0 <= a < |g.rules| && g.rules[a].restricts;
      var b :| 0 <= b < |g.rules| && !g.rules[b].restricts;
      RuleOfGroup(rules, i, a);
      RuleOfGroup(rules, i, b);
    }
    if HasBothKinds(rules, g.ruleType) {
      var r, q :| r in rules && q in rules && r.ruleType == q.ruleType == g.ruleType && r.restricts && !q.restricts;
      MembersAre(rules, g.ruleType, r);
      MembersAre(rules, g.ruleType, q);
    }
  }

  lemma {:induction false} FirstMember(rules: seq<AnyRule>, ruleType: string)
    requires Members(rules, ruleType) != []
    ensures FirstAt(rules, ruleType) < |rules| && Members(rules, ruleType)[0] == rules[FirstAt(rules, ruleType)]
  {
    var init, last := rules[..|rules| - 1], rules[|rules| - 1];
    if Members(init, ruleType) != [] {
      FirstMember(init, ruleType);
      FirstAtIs(rules, ruleType, FirstAt(init, ruleType));
    } else {
      forall k | 0 <= k < |init| ensures init[k].ruleType != ruleType {
        MembersAre(init, ruleType, init[k]);
      }
      FirstAtIs(rules, ruleType, |init|);
    }
  }

  /** The type named mixes kinds, no type collected before it does, and the code is that of
      the first rule collected of it. */
  ghost predicate NamesFirstMix(rules: seq<AnyRule>, ruleType: string, code: string) {
    && HasBothKinds(rules, ruleType)
    && FirstAt(rules, ruleType) < |rules| && code == rules[FirstAt(rules, ruleType)].code
    && forall r :: r in rules && FirstAt(rules, r.ruleType) < FirstAt(rules, ruleType) ==>
         !HasBothKinds(rules, r.ruleType)
  }

  lemma {:induction false} NoMixBefore(rules: seq<AnyRule>, i: nat, r: AnyRule)
    requires i < |GroupsOf(rules)| && i == FirstMixed(GroupsOf(rules)) && r in rules
    requires FirstAt(rules, r.ruleType) < FirstAt(rules, GroupsOf(rules)[i].ruleType)
    ensures !HasBothKinds(rules, r.ruleType)
  {
    var j := GroupOfRule(rules, r);
    if i < j { GroupsStandInOrder(rules, i, j); }
    MixedIffBothKinds(rules, j);
  }

  lemma {:induction false} FirstMixIsNamed(rules: seq<AnyRule>)
    requires FirstMixed(GroupsOf(rules)) < |GroupsOf(rules)|
    ensures var g := GroupsOf(rules)[FirstMixed(GroupsOf(rules))];
            g.rules != [] && NamesFirstMix(rules, g.ruleType, g.rules[0].code)
  {
    var groups := GroupsOf(rules);
    var i := FirstMixed(groups);
    GroupsAreGrouped(rules);
    MixedIffBothKinds(rules, i);
    FirstMember(rules, groups[i].ruleType);
    forall r | r in rules && FirstAt(rules, r.ruleType) < FirstAt(rules, groups[i].ruleType)
      ensures !HasBothKinds(rules, r.ruleType)
    {
      NoMixBefore(rules, i, r);
    }
  }

  /** With the bounds usable, a list fails as mixed exactly when some type collected has rules
      of both kinds, and then it names the first such type collected. */
  lemma {:induction false} MixesAreRefused(rules: seq<AnyRule>, o: Options)
    requires InRange(RuleTimeout(o)) && InRange(RulesDeadline(o))
    ensures var r := Meaning(rules, o);
            && (r.Failed? && r.failure.MixedGroup? <==> !KindsKeptApart(rules))
            && (r.Failed? && r.failure.MixedGroup? ==> NamesFirstMix(rules, r.failure.ruleType, r.failure.code))
  {
    BoundsAreTheOptions(o);
    MixedIffKindsMeet(rules);
    GroupsAreGrouped(rules);
    TroubleIsOfARule(Asked(GroupsOf(rules)), BudgetOf(o), 0);
    if FirstMixed(GroupsOf(rules)) < |GroupsOf(rules)| { FirstMixIsNamed(rules); }
  }

  // --- what was asked ----------------------------------------------------------

  function Evaluated(outcomes: seq<GroupOutcome>): seq<RuleOutcome> {
    if outcomes == [] then [] else outcomes[0].evaluated + Evaluated(outcomes[1..])
  }

  lemma {:induction false} AskedAreEvaluated(groups: seq<Group>, outcomes: seq<GroupOutcome>, k: nat)
    requires |outcomes| == |groups| && forall i :: 0 <= i < |groups| ==> outcomes[i] == Explain(groups[i])
    ensures |Evaluated(outcomes)| == |Asked(groups)|
    ensures k < |Asked(groups)| ==>
              var r := Asked(groups)[k]; Evaluated(outcomes)[k] == RuleOutcome(r.code, r.message, r.reply == Answers(true))
  {
    if groups != [] {
      var n := |Prefix(groups[0].rules)|;
      AskedAreEvaluated(groups[1..], outcomes[1..], if k < n then 0 else k - n);
    }
  }

  /** The rules asked are those the explanation reports, in its order. */
  lemma {:induction false} WhatIsAskedIsReported(rules: seq<AnyRule>, o: Options, k: nat)
    requires Meaning(rules, o).Decided? && (HasGranting(rules) || o.allowEmpty)
    requires k < |Asked(GroupsOf(rules))|
    ensures var r, evaluated := Asked(GroupsOf(rules))[k], Evaluated(Meaning(rules, o).decision.groups);
            && |evaluated| == |Asked(GroupsOf(rules))|
            && evaluated[k] == RuleOutcome(r.code, r.message, r.reply == Answers(true))
  {
    DecisionReports(rules, o);
    AskedAreEvaluated(GroupsOf(rules), ExplainAll(GroupsOf(rules)), k);
  }
}
