/** What a decision promises, proved of `Evaluate.Meaning`, which `Evaluate.Evaluate`
    is proved to compute. */
module EvaluateLaws {
  import opened Text
  import opened Evaluate

  // --- when it decides, and which way ----------------------------------------

  ghost predicate KindsKeptApart(rules: seq<AnyRule>) {
    forall r, q :: r in rules && q in rules && r.ruleType == q.ruleType ==> r.restricts == q.restricts
  }

  ghost predicate EveryTypePasses(rules: seq<AnyRule>) {
    forall r :: r in rules ==> TypePasses(rules, r.ruleType)
  }

  ghost predicate TypePasses(rules: seq<AnyRule>, ruleType: string) {
    exists p :: p in rules && p.ruleType == ruleType && p.reply == Answers(true)
  }

  lemma {:induction false} GroupOfRule(rules: seq<AnyRule>, r: AnyRule) returns (i: nat)
    requires r in rules
    ensures i < |GroupsOf(rules)| && GroupsOf(rules)[i].ruleType == r.ruleType && r in GroupsOf(rules)[i].rules
  {
    GroupsAreGrouped(rules);
    var k :| 0 <= k < |rules| && rules[k] == r;
    i := IndexOf(GroupsOf(rules), rules[k].ruleType);
    MembersAre(rules, r.ruleType, r);
  }

  lemma {:induction false} RuleOfGroup(rules: seq<AnyRule>, i: nat, k: nat)
    requires i < |GroupsOf(rules)| && k < |GroupsOf(rules)[i].rules|
    ensures var r := GroupsOf(rules)[i].rules[k]; r in rules && r.ruleType == GroupsOf(rules)[i].ruleType
  {
    GroupsAreGrouped(rules);
    MembersAre(rules, GroupsOf(rules)[i].ruleType, GroupsOf(rules)[i].rules[k]);
  }

  lemma {:induction false} MixedIffKindsMeet(rules: seq<AnyRule>)
    ensures FirstMixed(GroupsOf(rules)) == |GroupsOf(rules)| <==> KindsKeptApart(rules)
  {
    var groups := GroupsOf(rules);
    if FirstMixed(groups) == |groups| {
      forall r, q | r in rules && q in rules && r.ruleType == q.ruleType ensures r.restricts == q.restricts {
        var i := GroupOfRule(rules, r);
        var j := GroupOfRule(rules, q);
        GroupsAreGrouped(rules);
        assert i == j && !Mixed(groups[i].rules);
      }
    } else {
      var i := FirstMixed(groups);
      var a :| 0 <= a < |groups[i].rules| && groups[i].rules[a].restricts;
      var b :| 0 <= b < |groups[i].rules| && !groups[i].rules[b].restricts;
      RuleOfGroup(rules, i, a);
      RuleOfGroup(rules, i, b);
    }
  }

  lemma {:induction false} SatisfiedIffTypePasses(rules: seq<AnyRule>, i: nat)
    requires i < |GroupsOf(rules)|
    ensures Satisfied(GroupsOf(rules)[i].rules) <==> TypePasses(rules, GroupsOf(rules)[i].ruleType)
  {
    var g := GroupsOf(rules)[i];
    if Satisfied(g.rules) {
      var k :| 0 <= k < |g.rules| && g.rules[k].reply == Answers(true);
      RuleOfGroup(rules, i, k);
    }
    if TypePasses(rules, g.ruleType) {
      var p :| p in rules && p.ruleType == g.ruleType && p.reply == Answers(true);
      var j := GroupOfRule(rules, p);
      GroupsAreGrouped(rules);
      assert i == j;
    }
  }

  lemma {:induction false} AllSatisfiedIff(rules: seq<AnyRule>)
    ensures FirstFailing(GroupsOf(rules)) == |GroupsOf(rules)| <==> EveryTypePasses(rules)
  {
    var groups := GroupsOf(rules);
    if FirstFailing(groups) == |groups| {
      forall r | r in rules ensures TypePasses(rules, r.ruleType) {
        var i := GroupOfRule(rules, r);
        SatisfiedIffTypePasses(rules, i);
      }
    } else {
      var i := FirstFailing(groups);
      SatisfiedIffTypePasses(rules, i);
      GroupsAreGrouped(rules);
      RuleOfGroup(rules, i, 0);
    }
  }

  lemma {:induction false} JudgedAllowsIff(rules: seq<AnyRule>, b: Budget)
    requires forall i :: 0 <= i < |GroupsOf(rules)| ==> GroupsOf(rules)[i].rules != []
    ensures var r := Judged(GroupsOf(rules), b);
            && (r.Decided? && r.decision.Allow? <==>
                FirstTrouble(Asked(GroupsOf(rules)), b, 0) == None && EveryTypePasses(rules))
            && (r.Decided? ==> (r.decision.Allow? <==> EveryTypePasses(rules)))
            && (r.Decided? ==> r.decision.groups == ExplainAll(GroupsOf(rules)))
  {
    AllSatisfiedIff(rules);
  }

  /** A request is allowed exactly when the bounds are usable, no group mixes kinds, a
      granting rule applied (or the deployment opted out), every type collected has a
      rule that passes, and no rule asked got into trouble. */
  lemma {:induction false} AllowsIff(rules: seq<AnyRule>, o: Options)
    ensures Allows(rules, o) <==>
            && Usable(o.ruleTimeoutMs) && Usable(o.evaluateDeadlineMs)
            && KindsKeptApart(rules)
            && (HasGranting(rules) || o.allowEmpty)
            && EveryTypePasses(rules)
            && FirstTrouble(Asked(GroupsOf(rules)), BudgetOf(o), 0) == None
  {
    MixedIffKindsMeet(rules);
    GroupsAreGrouped(rules);
    if Usable(o.ruleTimeoutMs) && Usable(o.evaluateDeadlineMs) {
      JudgedAllowsIff(rules, BudgetOf(o));
    }
  }

  lemma {:induction false} GrantsIff(rules: seq<AnyRule>)
    ensures HasGranting(rules) <==> exists r :: r in rules && !r.restricts
  {
    if r :| r in rules && !r.restricts {
      var i :| 0 <= i < |rules| && rules[i] == r;
    }
    if HasGranting(rules) {
      var i :| 0 <= i < |rules| && !rules[i].restricts;
      assert rules[i] in rules;
    }
  }

  /** When it decides at all, the verdict is read off the rules' answers alone. */
  lemma {:induction false} VerdictIff(rules: seq<AnyRule>, o: Options)
    requires Meaning(rules, o).Decided?
    ensures Meaning(rules, o).decision.Allow? <==>
            (o.allowEmpty || exists r :: r in rules && !r.restricts) && EveryTypePasses(rules)
  {
    GrantsIff(rules);
    GroupsAreGrouped(rules);
    JudgedAllowsIff(rules, BudgetOf(o));
  }

  /** What a decision reports: nothing when no granting rule applied under the deny
      setting, and every group otherwise. */
  lemma {:induction false} DecisionReports(rules: seq<AnyRule>, o: Options)
    requires Meaning(rules, o).Decided?
    ensures KindsKeptApart(rules)
    ensures Meaning(rules, o).decision.groups ==
            if HasGranting(rules) || o.allowEmpty then ExplainAll(GroupsOf(rules)) else []
  {
    GroupsAreGrouped(rules);
    MixedIffKindsMeet(rules);
    JudgedAllowsIff(rules, BudgetOf(o));
  }

  // --- the explanation -------------------------------------------------------

  function FirstPass(rules: seq<AnyRule>): (k: nat)
    ensures k <= |rules|
    ensures k < |rules| ==> rules[k].reply == Answers(true)
    ensures forall i :: 0 <= i < k ==> rules[i].reply != Answers(true)
  {
    if rules == [] || rules[0].reply == Answers(true) then 0 else 1 + FirstPass(rules[1..])
  }

  lemma {:induction false} PrefixOfPassing(rules: seq<AnyRule>)
    requires FirstPass(rules) < |rules|
    ensures Prefix(rules) == rules[..FirstPass(rules) + 1]
  {
    if rules[0].reply != Answers(true) {
      var k := FirstPass(rules[1..]);
      PrefixOfPassing(rules[1..]);
      assert rules[..k + 2] == [rules[0]] + rules[1..][..k + 1];
    }
  }

  lemma {:induction false} PrefixOfNonePassing(rules: seq<AnyRule>)
    requires FirstPass(rules) == |rules|
    ensures Prefix(rules) == rules
  {
    if rules != [] {
      PrefixOfNonePassing(rules[1..]);
      assert rules == [rules[0]] + rules[1..];
    }
  }

  lemma {:induction false} PrefixShape(rules: seq<AnyRule>)
    ensures FirstPass(rules) < |rules| ==> Prefix(rules) == rules[..FirstPass(rules) + 1]
    ensures FirstPass(rules) == |rules| ==> Prefix(rules) == rules
    ensures Satisfied(rules) <==> FirstPass(rules) < |rules|
  {
    if FirstPass(rules) < |rules| { PrefixOfPassing(rules); } else { PrefixOfNonePassing(rules); }
  }

  /** What one group's report says of the group's rules, in collection order: the ones
      it ran, which are all of them or end at the first that passed, which then is what
      satisfied it. */
  ghost predicate Exact(outcome: GroupOutcome, group: seq<AnyRule>) {
    var n := |outcome.evaluated|;
    && n <= |group|
    && (forall k :: 0 <= k < n ==>
          outcome.evaluated[k] == RuleOutcome(group[k].code, group[k].message, group[k].reply == Answers(true)))
    && (outcome.passed <==> exists k :: 0 <= k < |group| && group[k].reply == Answers(true))
    && (outcome.passed <==> outcome.satisfiedBy.Some?)
    && (!outcome.passed ==> n == |group|)
    && (outcome.passed ==>
          && n > 0
          && outcome.satisfiedBy.value == outcome.evaluated[n - 1]
          && outcome.evaluated[n - 1].passed
          && forall k :: 0 <= k < n - 1 ==> !outcome.evaluated[k].passed)
    && (forall k :: 0 <= k < |group| ==> group[k].restricts == outcome.restricts)
  }

  lemma {:induction false} ExplainIsExact(g: Group)
    requires !Mixed(g.rules) && g.rules != []
    ensures Exact(Explain(g), g.rules)
  {
    PrefixShape(g.rules);
    var asked := Prefix(g.rules);
    assert forall k :: 0 <= k < |asked| ==> asked[k] == g.rules[k];
  }

  /** Every group a decision reports, it reports exactly. */
  lemma {:induction false} ExplanationIsExact(rules: seq<AnyRule>, o: Options, i: nat)
    requires Meaning(rules, o).Decided? && i < |Meaning(rules, o).decision.groups|
    ensures var outcome := Meaning(rules, o).decision.groups[i]; Exact(outcome, Members(rules, outcome.ruleType))
  {
    DecisionReports(rules, o);
    GroupsAreGrouped(rules);
    MixedIffKindsMeet(rules);
    ExplainIsExact(GroupsOf(rules)[i]);
  }

  lemma {:induction false} FirstFailingDenies(groups: seq<Group>)
    requires forall i :: 0 <= i < |groups| ==> groups[i].rules != []
    requires Concluded(groups).decision.Deny?
    ensures var i, d := FirstFailing(groups), Concluded(groups).decision;
            && i < |d.groups| && d.groups == ExplainAll(groups) && !d.groups[i].passed
            && (forall j :: 0 <= j < i ==> d.groups[j].passed)
            && d.code == groups[i].rules[0].code && d.message == groups[i].rules[0].message
  {
  }

  /** The code and message of the first alternative of the first group that failed. */
  ghost predicate NamesFirstFailing(d: Decision, rules: seq<AnyRule>, i: nat)
    requires d.Deny? && i < |d.groups|
  {
    var group := Members(rules, d.groups[i].ruleType);
    && !d.groups[i].passed
    && (forall j :: 0 <= j < i ==> d.groups[j].passed)
    && group != [] && d.code == group[0].code && d.message == group[0].message
  }

  /** A deny is `no_applicable_rule`, with nothing asked, exactly when no granting rule
      applied under the deny setting; any other names the first alternative of the
      first group, in order of appearance, that no rule satisfied. */
  lemma {:induction false} DenyNamesFirstFailingGroup(rules: seq<AnyRule>, o: Options)
    requires Meaning(rules, o).Decided? && Meaning(rules, o).decision.Deny?
    ensures var d := Meaning(rules, o).decision;
            if !HasGranting(rules) && !o.allowEmpty then
              d == Deny("no_applicable_rule", "No applicable rule was collected for this request", [])
            else exists i :: 0 <= i < |d.groups| && NamesFirstFailing(d, rules, i)
  {
    GroupsAreGrouped(rules);
    if HasGranting(rules) || o.allowEmpty {
      FirstFailingDenies(GroupsOf(rules));
      assert NamesFirstFailing(Meaning(rules, o).decision, rules, FirstFailing(GroupsOf(rules)));
    }
  }

  /** Where a type is first collected. */
  function FirstAt(rules: seq<AnyRule>, ruleType: string): (k: nat)
    ensures k <= |rules|
    ensures k < |rules| ==> rules[k].ruleType == ruleType
    ensures forall i :: 0 <= i < k ==> rules[i].ruleType != ruleType
  {
    if rules == [] || rules[0].ruleType == ruleType then 0 else 1 + FirstAt(rules[1..], ruleType)
  }

  lemma {:induction false} FirstAtIs(rules: seq<AnyRule>, ruleType: string, k: nat)
    requires k <= |rules| && (forall i :: 0 <= i < k ==> rules[i].ruleType != ruleType)
    requires k < |rules| ==> rules[k].ruleType == ruleType
    ensures FirstAt(rules, ruleType) == k
  {
  }

  /** Groups stand in the order their types were first collected. */
  lemma {:induction false} GroupsStandInOrder(rules: seq<AnyRule>, i: nat, j: nat)
    requires i < j < |GroupsOf(rules)|
    ensures FirstAt(rules, GroupsOf(rules)[i].ruleType) < FirstAt(rules, GroupsOf(rules)[j].ruleType) < |rules|
    decreases |rules|
  {
    var init, last := rules[..|rules| - 1], rules[|rules| - 1];
    var groups := GroupsOf(init);
    assert GroupsOf(rules) == AddToGroup(groups, last);
    TypeStays(init, last, rules, i);
    if j < |groups| {
      GroupsStandInOrder(init, i, j);
      TypeStays(init, last, rules, j);
    } else {
      NoneOfType(init, last.ruleType);
      FirstAtIs(rules, last.ruleType, |init|);
    }
  }

  lemma {:induction false} TypeStays(init: seq<AnyRule>, last: AnyRule, rules: seq<AnyRule>, i: nat)
    requires rules == init + [last] && i < |GroupsOf(init)|
    ensures i < |AddToGroup(GroupsOf(init), last)|
    ensures AddToGroup(GroupsOf(init), last)[i].ruleType == GroupsOf(init)[i].ruleType
    ensures FirstAt(rules, GroupsOf(init)[i].ruleType) == FirstAt(init, GroupsOf(init)[i].ruleType) < |init|
  {
    var t := GroupsOf(init)[i].ruleType;
    GroupsAreGrouped(init);
    RuleOfGroup(init, i, 0);
    var r :| r in init && r.ruleType == t;
    FirstAtIs(rules, t, FirstAt(init, t));
  }

  lemma {:induction false} NoneOfType(rules: seq<AnyRule>, ruleType: string)
    requires IndexOf(GroupsOf(rules), ruleType) == |GroupsOf(rules)|
    ensures forall k :: 0 <= k < |rules| ==> rules[k].ruleType != ruleType
  {
    GroupsAreGrouped(rules);
  }

  /** Every type collected has its group in the explanation, and no group twice. */
  lemma {:induction false} EveryTypeIsExplainedOnce(rules: seq<AnyRule>, o: Options, r: AnyRule) returns (i: nat)
    requires Meaning(rules, o).Decided? && (HasGranting(rules) || o.allowEmpty) && r in rules
    ensures var groups := Meaning(rules, o).decision.groups;
            && i < |groups| && groups[i].ruleType == r.ruleType
            && forall j :: 0 <= j < |groups| && j != i ==> groups[j].ruleType != r.ruleType
  {
    DecisionReports(rules, o);
    i := GroupOfRule(rules, r);
    GroupsAreGrouped(rules);
  }

  // --- time ------------------------------------------------------------------

  lemma {:induction false} UntroubledRulesAreInTime(asked: seq<AnyRule>, b: Budget, elapsed: nat, k: nat)
    requires k < |asked| && FirstTrouble(asked, b, elapsed) == None && asked[k].async
    requires b.ruleTimeoutMs >= 1
    ensures asked[k].takes < b.ruleTimeoutMs
    ensures elapsed + Time(asked[..k + 1]) < b.deadlineMs
  {
    if k == 0 {
      assert asked[..1][1..] == [];
    } else {
      UntroubledRulesAreInTime(asked[1..], b, elapsed + asked[0].takes, k - 1);
      assert asked[..k + 1][1..] == asked[1..][..k];
    }
  }

  /** No decision rests on an asynchronous answer that came after its own budget or
      after the deadline of the whole phase. */
  lemma {:induction false} AllowedAnswersAreInTime(rules: seq<AnyRule>, o: Options, k: nat)
    requires Allows(rules, o)
    requires k < |Asked(GroupsOf(rules))| && Asked(GroupsOf(rules))[k].async
    ensures Asked(GroupsOf(rules))[k].takes < if o.ruleTimeoutMs.Some? then o.ruleTimeoutMs.value else 2000
    ensures Time(Asked(GroupsOf(rules))[..k + 1]) < if o.evaluateDeadlineMs.Some? then o.evaluateDeadlineMs.value else 5000
  {
    UntroubledRulesAreInTime(Asked(GroupsOf(rules)), BudgetOf(o), 0, k);
  }

  // --- restricting groups only narrow ----------------------------------------

  /** The rules without those of one type. */
  function Without(rules: seq<AnyRule>, ruleType: string): seq<AnyRule> {
    if rules == [] then []
    else
      var last := rules[|rules| - 1];
      Without(rules[..|rules| - 1], ruleType) + (if last.ruleType == ruleType then [] else [last])
  }

  lemma {:induction false} WithoutHolds(rules: seq<AnyRule>, ruleType: string, r: AnyRule)
    ensures r in Without(rules, ruleType) <==> r in rules && r.ruleType != ruleType
  {
    if rules != [] {
      var init := rules[..|rules| - 1];
      WithoutHolds(init, ruleType, r);
      assert rules == init + [rules[|rules| - 1]];
    }
  }

  function WithoutGroup(groups: seq<Group>, ruleType: string): seq<Group> {
    if groups == [] then []
    else if groups[0].ruleType == ruleType then WithoutGroup(groups[1..], ruleType)
    else [groups[0]] + WithoutGroup(groups[1..], ruleType)
  }

  lemma {:induction false} WithoutGroupCons(g: Group, groups: seq<Group>, ruleType: string)
    ensures WithoutGroup([g] + groups, ruleType) ==
            (if g.ruleType == ruleType then WithoutGroup(groups, ruleType) else [g] + WithoutGroup(groups, ruleType))
  {
    assert ([g] + groups)[1..] == groups;
  }

  lemma {:induction false} AddCommutes(groups: seq<Group>, r: AnyRule, ruleType: string)
    ensures WithoutGroup(AddToGroup(groups, r), ruleType) ==
            (if r.ruleType == ruleType then WithoutGroup(groups, ruleType)
             else AddToGroup(WithoutGroup(groups, ruleType), r))
  {
    if groups == [] {
      WithoutGroupCons(Group(r.ruleType, [r]), [], ruleType);
    } else if groups[0].ruleType != r.ruleType {
      AddCommutes(groups[1..], r, ruleType);
      AddSkips(groups[0], groups[1..], r);
      assert groups == [groups[0]] + groups[1..];
      WithoutGroupCons(groups[0], AddToGroup(groups[1..], r), ruleType);
      AddSkips(groups[0], WithoutGroup(groups[1..], ruleType), r);
    } else {
      AddHere(groups[0], groups[1..], r);
      assert groups == [groups[0]] + groups[1..];
      WithoutGroupCons(Group(r.ruleType, groups[0].rules + [r]), groups[1..], ruleType);
      AddHere(groups[0], WithoutGroup(groups[1..], ruleType), r);
    }
  }

  lemma {:induction false} AddSkips(g: Group, groups: seq<Group>, r: AnyRule)
    ensures g.ruleType != r.ruleType ==> AddToGroup([g] + groups, r) == [g] + AddToGroup(groups, r)
  {
    assert ([g] + groups)[1..] == groups;
  }

  lemma {:induction false} AddHere(g: Group, groups: seq<Group>, r: AnyRule)
    ensures g.ruleType == r.ruleType ==> AddToGroup([g] + groups, r) == [Group(r.ruleType, g.rules + [r])] + groups
  {
  }

  lemma {:induction false} GroupsWithout(rules: seq<AnyRule>, ruleType: string)
    ensures GroupsOf(Without(rules, ruleType)) == WithoutGroup(GroupsOf(rules), ruleType)
  {
    if rules != [] {
      var init, last := rules[..|rules| - 1], rules[|rules| - 1];
      GroupsWithout(init, ruleType);
      AddCommutes(GroupsOf(init), last, ruleType);
      var kept := Without(init, ruleType);
      if last.ruleType != ruleType {
        assert (kept + [last])[..|kept|] == kept;
      } else {
        assert kept + [] == kept;
      }
    }
  }

  lemma {:induction false} TroubleIsMonotone(r: AnyRule, b: Budget, earlier: nat, later: nat)
    requires earlier <= later && TroubleOf(r, b, later) == None
    ensures TroubleOf(r, b, earlier) == None
  {
  }

  lemma {:induction false} NoTroubleEarlier(asked: seq<AnyRule>, b: Budget, earlier: nat, later: nat)
    requires earlier <= later && FirstTrouble(asked, b, later) == None
    ensures FirstTrouble(asked, b, earlier) == None
  {
    if asked != [] {
      TroubleIsMonotone(asked[0], b, earlier, later);
      NoTroubleEarlier(asked[1..], b, earlier + asked[0].takes, later + asked[0].takes);
    }
  }

  lemma {:induction false} AskedCons(g: Group, groups: seq<Group>)
    ensures Asked([g] + groups) == Prefix(g.rules) + Asked(groups)
  {
    assert ([g] + groups)[1..] == groups;
  }

  lemma {:induction false} NoTroubleCons(g: Group, groups: seq<Group>, b: Budget, elapsed: nat)
    ensures FirstTrouble(Asked([g] + groups), b, elapsed) == None <==>
            FirstTrouble(Prefix(g.rules), b, elapsed) == None &&
            FirstTrouble(Asked(groups), b, elapsed + Time(Prefix(g.rules))) == None
  {
    AskedCons(g, groups);
    TroubleConcat(Prefix(g.rules), Asked(groups), b, elapsed);
  }

  lemma {:induction false} NoTroubleKept(g: Group, rest: seq<Group>, fewer: seq<Group>, b: Budget, earlier: nat,
                                         later: nat)
    requires earlier <= later && FirstTrouble(Prefix(g.rules), b, later) == None
    requires FirstTrouble(Asked(fewer), b, earlier + Time(Prefix(g.rules))) == None
    ensures FirstTrouble(Asked([g] + fewer), b, earlier) == None
  {
    NoTroubleEarlier(Prefix(g.rules), b, earlier, later);
    NoTroubleCons(g, fewer, b, earlier);
  }

  /** Asking fewer groups makes no trouble that asking all of them did not. */
  lemma {:induction false} NoTroubleWithout(groups: seq<Group>, ruleType: string, b: Budget, earlier: nat, later: nat)
    requires earlier <= later && FirstTrouble(Asked(groups), b, later) == None
    ensures FirstTrouble(Asked(WithoutGroup(groups, ruleType)), b, earlier) == None
  {
    if groups != [] {
      var g, rest := groups[0], groups[1..];
      var time := Time(Prefix(g.rules));
      assert groups == [g] + rest;
      NoTroubleCons(g, rest, b, later);
      if g.ruleType == ruleType {
        NoTroubleWithout(rest, ruleType, b, earlier, later + time);
      } else {
        NoTroubleWithout(rest, ruleType, b, earlier + time, later + time);
        NoTroubleKept(g, rest, WithoutGroup(rest, ruleType), b, earlier, later);
      }
    }
  }

  /** A whole group of restricting rules, wherever in the list it was collected, never
      turns into an allow what would not have been allowed without it. */
  lemma {:induction false} RestrictingGroupOnlyNarrows(rules: seq<AnyRule>, ruleType: string, o: Options)
    requires forall r :: r in rules && r.ruleType == ruleType ==> r.restricts
    requires Allows(rules, o)
    ensures Allows(Without(rules, ruleType), o)
  {
    var fewer := Without(rules, ruleType);
    AllowsIff(rules, o);
    GroupsWithout(rules, ruleType);
    NoTroubleWithout(GroupsOf(rules), ruleType, BudgetOf(o), 0, 0);
    if HasGranting(rules) {
      var k :| 0 <= k < |rules| && !rules[k].restricts;
      WithoutHolds(rules, ruleType, rules[k]);
    }
    forall r | r in fewer ensures TypePasses(fewer, r.ruleType) {
      WithoutHolds(rules, ruleType, r);
      assert TypePasses(rules, r.ruleType);
      var p :| p in rules && p.ruleType == r.ruleType && p.reply == Answers(true);
      WithoutHolds(rules, ruleType, p);
    }
    forall r, q | r in fewer && q in fewer && r.ruleType == q.ruleType ensures r.restricts == q.restricts {
      WithoutHolds(rules, ruleType, r);
      WithoutHolds(rules, ruleType, q);
    }
    AllowsIff(fewer, o);
  }

  /** The same, read the other way: a restricting group whose rules do not pass denies
      whatever the rest of the list would have been decided as. */
  lemma {:induction false} FailingRestrictionDenies(rules: seq<AnyRule>, r: AnyRule, o: Options)
    requires r in rules && !TypePasses(rules, r.ruleType)
    ensures !Allows(rules, o)
  {
    AllowsIff(rules, o);
  }

  /** A synchronous rule that answers at once. */
  predicate Instant(r: AnyRule) { !r.async && r.reply.Answers? && r.takes == 0 }

  lemma {:induction false} InstantMakesNoTrouble(rules: seq<AnyRule>, b: Budget, elapsed: nat)
    requires forall r :: r in rules ==> Instant(r)
    ensures FirstTrouble(Prefix(rules), b, elapsed) == None && Time(Prefix(rules)) == 0
  {
    if rules != [] {
      assert rules == [rules[0]] + rules[1..] && Instant(rules[0]);
      InstantMakesNoTrouble(rules[1..], b, elapsed);
    }
  }

  ghost predicate InstantType(groups: seq<Group>, ruleType: string) {
    forall i, r :: 0 <= i < |groups| && groups[i].ruleType == ruleType && r in groups[i].rules ==> Instant(r)
  }

  lemma {:induction false} NoTroubleWithInstant(groups: seq<Group>, ruleType: string, b: Budget, elapsed: nat)
    requires InstantType(groups, ruleType)
    requires FirstTrouble(Asked(WithoutGroup(groups, ruleType)), b, elapsed) == None
    ensures FirstTrouble(Asked(groups), b, elapsed) == None
  {
    if groups != [] {
      var g, rest := groups[0], groups[1..];
      assert groups == [g] + rest;
      NoTroubleCons(g, rest, b, elapsed);
      if g.ruleType == ruleType {
        InstantMakesNoTrouble(g.rules, b, elapsed);
        NoTroubleWithInstant(rest, ruleType, b, elapsed);
      } else {
        NoTroubleCons(g, WithoutGroup(rest, ruleType), b, elapsed);
        NoTroubleWithInstant(rest, ruleType, b, elapsed + Time(Prefix(g.rules)));
      }
    }
  }

  lemma {:induction false} TypePassesWith(rules: seq<AnyRule>, ruleType: string, r: AnyRule)
    requires r in rules && r.ruleType != ruleType && EveryTypePasses(Without(rules, ruleType))
    ensures TypePasses(rules, r.ruleType)
  {
    var fewer := Without(rules, ruleType);
    WithoutHolds(rules, ruleType, r);
    assert TypePasses(fewer, r.ruleType);
    var p :| p in fewer && p.ruleType == r.ruleType && p.reply == Answers(true);
    WithoutHolds(rules, ruleType, p);
  }

  lemma {:induction false} KindsApartWith(rules: seq<AnyRule>, ruleType: string)
    requires forall r :: r in rules && r.ruleType == ruleType ==> r.restricts
    requires KindsKeptApart(Without(rules, ruleType))
    ensures KindsKeptApart(rules)
  {
    forall r, q | r in rules && q in rules && r.ruleType == q.ruleType ensures r.restricts == q.restricts {
      WithoutHolds(rules, ruleType, r);
      WithoutHolds(rules, ruleType, q);
    }
  }

  /** Kinds apart, a reason to allow, every type passed. */
  ghost predicate Agreed(rules: seq<AnyRule>, allowEmpty: bool) {
    KindsKeptApart(rules) && (HasGranting(rules) || allowEmpty) && EveryTypePasses(rules)
  }

  lemma {:induction false} AgreedWith(rules: seq<AnyRule>, ruleType: string, allowEmpty: bool)
    requires forall r :: r in rules && r.ruleType == ruleType ==> r.restricts
    requires Agreed(Without(rules, ruleType), allowEmpty) && TypePasses(rules, ruleType)
    ensures Agreed(rules, allowEmpty)
  {
    KindsApartWith(rules, ruleType);
    forall r | r in rules ensures TypePasses(rules, r.ruleType) {
      if r.ruleType != ruleType { TypePassesWith(rules, ruleType, r); }
    }
    if HasGranting(Without(rules, ruleType)) { GrantingWith(rules, ruleType); }
  }

  /** A restricting group of rules that answer at once is a conjunct, wherever in the list
      it was collected: allowed means allowed without it, and passed by it. */
  lemma {:induction false} InstantRestrictionIsAConjunct(rules: seq<AnyRule>, ruleType: string, o: Options)
    requires forall r :: r in rules && r.ruleType == ruleType ==> r.restricts && Instant(r)
    requires exists r :: r in rules && r.ruleType == ruleType
    ensures Allows(rules, o) <==> Allows(Without(rules, ruleType), o) && TypePasses(rules, ruleType)
  {
    if Allows(rules, o) {
      RestrictingGroupOnlyNarrows(rules, ruleType, o);
      AllowsIff(rules, o);
    } else if Allows(Without(rules, ruleType), o) && TypePasses(rules, ruleType) {
      AllowsIff(Without(rules, ruleType), o);
      InstantGroups(rules, ruleType);
      GroupsWithout(rules, ruleType);
      NoTroubleWithInstant(GroupsOf(rules), ruleType, BudgetOf(o), 0);
      AgreedWith(rules, ruleType, o.allowEmpty);
      AllowsIff(rules, o);
    }
  }

  /** Every asynchronous rule that is asked ends before the phase's deadline. */
  ghost predicate AskedInTime(rules: seq<AnyRule>, o: Options) {
    && Usable(o.ruleTimeoutMs) && Usable(o.evaluateDeadlineMs)
    && var asked := Asked(GroupsOf(rules));
       forall k :: 0 <= k < |asked| && asked[k].async ==> Time(asked[..k + 1]) < BudgetOf(o).deadlineMs
  }

  /** The rule fails any decision it is asked in. */
  predicate OwnTrouble(r: AnyRule, b: Budget) {
    !r.reply.Answers? || (r.async && r.takes >= b.ruleTimeoutMs)
  }

  /** A rule asked at `elapsed` is in trouble of its own, or ends at the deadline or later. */
  lemma {:induction false} TroubleExactlyWhen(r: AnyRule, b: Budget, elapsed: nat)
    ensures TroubleOf(r, b, elapsed) == None <==>
            !OwnTrouble(r, b) && (r.async ==> elapsed + r.takes < b.deadlineMs)
  {
  }

  lemma {:induction false} NoTroubleInTurn(asked: seq<AnyRule>, b: Budget, elapsed: nat)
    requires forall k :: 0 <= k < |asked| ==> !OwnTrouble(asked[k], b)
    requires forall k :: 0 <= k < |asked| && asked[k].async ==> elapsed + Time(asked[..k + 1]) < b.deadlineMs
    ensures FirstTrouble(asked, b, elapsed) == None
  {
    if asked != [] {
      TroubleExactlyWhen(asked[0], b, elapsed);
      assert asked[..1][1..] == [];
      var rest := asked[1..];
      forall k | 0 <= k < |rest| && rest[k].async
        ensures elapsed + asked[0].takes + Time(rest[..k + 1]) < b.deadlineMs
      {
        assert asked[..k + 2][1..] == rest[..k + 1] && asked[k + 1] == rest[k];
      }
      NoTroubleInTurn(rest, b, elapsed + asked[0].takes);
    }
  }

  lemma {:induction false} AskedWithoutTrouble(asked: seq<AnyRule>, b: Budget, elapsed: nat, k: nat)
    requires FirstTrouble(asked, b, elapsed) == None && k < |asked|
    ensures !OwnTrouble(asked[k], b)
  {
    TroubleExactlyWhen(asked[0], b, elapsed);
    if k > 0 { AskedWithoutTrouble(asked[1..], b, elapsed + asked[0].takes, k - 1); }
  }

  lemma {:induction false} AskedWithoutGroup(groups: seq<Group>, ruleType: string, r: AnyRule)
    requires r in Asked(groups) && r.ruleType != ruleType
    requires forall i, q :: 0 <= i < |groups| && q in groups[i].rules ==> q.ruleType == groups[i].ruleType
    ensures r in Asked(WithoutGroup(groups, ruleType))
  {
    var g, rest := groups[0], groups[1..];
    if r in Prefix(g.rules) {
      PrefixShape(g.rules);
      assert r in g.rules && g.ruleType != ruleType;
    } else {
      assert r in Asked(rest);
      forall i, q | 0 <= i < |rest| && q in rest[i].rules ensures q.ruleType == rest[i].ruleType {
        assert rest[i] == groups[i + 1];
      }
      AskedWithoutGroup(rest, ruleType, r);
    }
    if g.ruleType != ruleType { AskedCons(g, WithoutGroup(rest, ruleType)); }
  }

  lemma {:induction false} NoOwnTroubleWith(rules: seq<AnyRule>, ruleType: string, b: Budget)
    requires forall r :: r in rules && r.ruleType == ruleType ==> !OwnTrouble(r, b)
    requires FirstTrouble(Asked(GroupsOf(Without(rules, ruleType))), b, 0) == None
    ensures forall k :: 0 <= k < |Asked(GroupsOf(rules))| ==> !OwnTrouble(Asked(GroupsOf(rules))[k], b)
  {
    var groups := GroupsOf(rules);
    var asked, fewer := Asked(groups), Asked(GroupsOf(Without(rules, ruleType)));
    GroupsWithout(rules, ruleType);
    forall i, q | 0 <= i < |groups| && q in groups[i].rules ensures q.ruleType == groups[i].ruleType && q in rules {
      var n :| 0 <= n < |groups[i].rules| && groups[i].rules[n] == q;
      RuleOfGroup(rules, i, n);
    }
    forall k | 0 <= k < |asked| ensures !OwnTrouble(asked[k], b) {
      assert asked[k] in asked;
      if asked[k].ruleType == ruleType {
        AskedAreRules(groups, asked[k]);
      } else {
        AskedWithoutGroup(groups, ruleType, asked[k]);
        var n :| 0 <= n < |fewer| && fewer[n] == asked[k];
        AskedWithoutTrouble(fewer, b, 0, n);
      }
    }
  }

  /** A restricting group of synchronous rules, whatever time they take, is a conjunct but for
      that time: allowed means allowed without it, passed by it, and no asynchronous rule
      carried past the phase's deadline. */
  lemma {:induction false} RestrictionIsAConjunct(rules: seq<AnyRule>, ruleType: string, o: Options)
    requires forall r :: r in rules && r.ruleType == ruleType ==> r.restricts && !r.async && r.reply.Answers?
    requires exists r :: r in rules && r.ruleType == ruleType
    ensures Allows(rules, o) <==>
            Allows(Without(rules, ruleType), o) && TypePasses(rules, ruleType) && AskedInTime(rules, o)
  {
    if Allows(rules, o) {
      RestrictingGroupOnlyNarrows(rules, ruleType, o);
      AllowsIff(rules, o);
      forall k | 0 <= k < |Asked(GroupsOf(rules))| && Asked(GroupsOf(rules))[k].async
        ensures Time(Asked(GroupsOf(rules))[..k + 1]) < BudgetOf(o).deadlineMs
      {
        AllowedAnswersAreInTime(rules, o, k);
      }
    } else if Allows(Without(rules, ruleType), o) && TypePasses(rules, ruleType) && AskedInTime(rules, o) {
      AllowsIff(Without(rules, ruleType), o);
      NoOwnTroubleWith(rules, ruleType, BudgetOf(o));
      NoTroubleInTurn(Asked(GroupsOf(rules)), BudgetOf(o), 0);
      AgreedWith(rules, ruleType, o.allowEmpty);
      AllowsIff(rules, o);
    }
  }

  lemma {:induction false} GrantingWith(rules: seq<AnyRule>, ruleType: string)
    requires HasGranting(Without(rules, ruleType))
    ensures HasGranting(rules)
  {
    var fewer := Without(rules, ruleType);
    var k :| 0 <= k < |fewer| && !fewer[k].restricts;
    WithoutHolds(rules, ruleType, fewer[k]);
  }

  lemma {:induction false} InstantGroups(rules: seq<AnyRule>, ruleType: string)
    requires forall r :: r in rules && r.ruleType == ruleType ==> Instant(r)
    ensures InstantType(GroupsOf(rules), ruleType)
  {
    var groups := GroupsOf(rules);
    forall i, r | 0 <= i < |groups| && groups[i].ruleType == ruleType && r in groups[i].rules ensures Instant(r) {
      var k :| 0 <= k < |groups[i].rules| && groups[i].rules[k] == r;
      RuleOfGroup(rules, i, k);
    }
  }

  // --- order -----------------------------------------------------------------

  lemma {:induction false} SameElements(a: seq<AnyRule>, c: seq<AnyRule>)
    requires multiset(a) == multiset(c)
    ensures forall r :: r in a <==> r in c
  {
    forall r ensures r in a <==> r in c {
      assert r in a <==> r in multiset(a);
      assert r in c <==> r in multiset(c);
    }
  }

  /** No reordering turns an allow into a deny or a deny into an allow. */
  lemma {:induction false} OrderDoesNotChangeTheVerdict(a: seq<AnyRule>, c: seq<AnyRule>, o: Options)
    requires multiset(a) == multiset(c)
    requires Meaning(a, o).Decided? && Meaning(c, o).Decided?
    ensures Meaning(a, o).decision.Allow? == Meaning(c, o).decision.Allow?
  {
    SameElements(a, c);
    VerdictIff(a, o);
    VerdictIff(c, o);
    SameGranting(a, c);
    SamePasses(a, c);
    SamePasses(c, a);
  }

  lemma {:induction false} SameGranting(a: seq<AnyRule>, c: seq<AnyRule>)
    requires forall r :: r in a <==> r in c
    ensures HasGranting(a) == HasGranting(c)
  {
    if HasGranting(a) {
      var k :| 0 <= k < |a| && !a[k].restricts;
      assert a[k] in c;
    }
    if HasGranting(c) {
      var k :| 0 <= k < |c| && !c[k].restricts;
      assert c[k] in a;
    }
  }

  lemma {:induction false} SamePasses(a: seq<AnyRule>, c: seq<AnyRule>)
    requires forall r :: r in a <==> r in c
    ensures EveryTypePasses(a) ==> EveryTypePasses(c)
  {
    forall r | EveryTypePasses(a) && r in c ensures TypePasses(c, r.ruleType) {
      assert TypePasses(a, r.ruleType);
      var p :| p in a && p.ruleType == r.ruleType && p.reply == Answers(true);
      assert p in c;
    }
  }

  ghost predicate Dependable(rules: seq<AnyRule>) {
    forall r :: r in rules ==> !r.async && r.reply.Answers?
  }

  lemma {:induction false} DependableMakesNoTrouble(asked: seq<AnyRule>, b: Budget, elapsed: nat)
    requires Dependable(asked)
    ensures FirstTrouble(asked, b, elapsed) == None
  {
    if asked != [] {
      assert asked[0] in asked;
      assert forall r :: r in asked[1..] ==> r in asked;
      DependableMakesNoTrouble(asked[1..], b, elapsed + asked[0].takes);
    }
  }

  lemma {:induction false} AskedAreRules(groups: seq<Group>, r: AnyRule)
    requires r in Asked(groups)
    ensures exists i :: 0 <= i < |groups| && r in groups[i].rules
  {
    if r in Prefix(groups[0].rules) {
      PrefixShape(groups[0].rules);
    } else {
      AskedAreRules(groups[1..], r);
      var i :| 0 <= i < |groups[1..]| && r in groups[1..][i].rules;
      assert groups[i + 1] == groups[1..][i];
    }
  }

  /** A list of synchronous rules that answer booleans, kinds kept apart, is decided in
      every order, and every order gives one verdict. */
  lemma {:induction false} DependableRulesDecideInAnyOrder(a: seq<AnyRule>, c: seq<AnyRule>, o: Options)
    requires multiset(a) == multiset(c)
    requires Usable(o.ruleTimeoutMs) && Usable(o.evaluateDeadlineMs)
    requires Dependable(a) && KindsKeptApart(a)
    ensures Meaning(a, o).Decided? && Meaning(c, o).Decided?
    ensures Allows(a, o) == Allows(c, o)
  {
    SameElements(a, c);
    DependableDecides(a, o);
    DependableDecides(c, o);
    OrderDoesNotChangeTheVerdict(a, c, o);
  }

  lemma {:induction false} DependableDecides(rules: seq<AnyRule>, o: Options)
    requires Usable(o.ruleTimeoutMs) && Usable(o.evaluateDeadlineMs)
    requires Dependable(rules) && KindsKeptApart(rules)
    ensures Meaning(rules, o).Decided?
  {
    var asked := Asked(GroupsOf(rules));
    MixedIffKindsMeet(rules);
    forall r | r in asked ensures !r.async && r.reply.Answers? {
      AskedAreRules(GroupsOf(rules), r);
      var i :| 0 <= i < |GroupsOf(rules)| && r in GroupsOf(rules)[i].rules;
      var k :| 0 <= k < |GroupsOf(rules)[i].rules| && GroupsOf(rules)[i].rules[k] == r;
      RuleOfGroup(rules, i, k);
    }
    DependableMakesNoTrouble(asked, BudgetOf(o), 0);
  }

  /** A rule that throws is order-dependent: behind an alternative that passes it is
      never asked, in front of it it fails the decision. */
  lemma {:induction false} ARaisingRuleDependsOnOrder(passing: AnyRule, raising: AnyRule, o: Options)
    requires Usable(o.ruleTimeoutMs) && Usable(o.evaluateDeadlineMs)
    requires passing.ruleType == raising.ruleType && !passing.restricts && !raising.restricts
    requires !passing.async && passing.reply == Answers(true)
    requires !raising.async && raising.reply.Raises?
    ensures Allows([passing, raising], o)
    ensures Meaning([raising, passing], o) == Failed(RuleRaised(raising.ruleType, raising.code, raising.reply.error))
  {
    PassingHides(passing, raising, o);
    RaisingFails(passing, raising, o);
  }

  lemma {:induction false} PassingHides(passing: AnyRule, other: AnyRule, o: Options)
    requires Usable(o.ruleTimeoutMs) && Usable(o.evaluateDeadlineMs)
    requires passing.ruleType == other.ruleType && !passing.restricts && !other.restricts
    requires !passing.async && passing.reply == Answers(true)
    ensures Allows([passing, other], o)
  {
    var rules := [passing, other];
    TwoInOneGroup(passing, other);
    assert !rules[0].restricts && passing in rules;
    assert forall r :: r in rules ==> TypePasses(rules, r.ruleType);
    assert Prefix(rules) == [passing] && [passing][1..] == [];
    AllowsIff(rules, o);
  }

  lemma {:induction false} RaisingFails(passing: AnyRule, raising: AnyRule, o: Options)
    requires Usable(o.ruleTimeoutMs) && Usable(o.evaluateDeadlineMs)
    requires passing.ruleType == raising.ruleType && !passing.restricts && !raising.restricts
    requires !raising.async && raising.reply.Raises?
    ensures Meaning([raising, passing], o) == Failed(RuleRaised(raising.ruleType, raising.code, raising.reply.error))
  {
    var rules := [raising, passing];
    TwoInOneGroup(raising, passing);
    var groups := GroupsOf(rules);
    assert forall i :: 0 <= i < |rules| ==> !rules[i].restricts;
    assert !Mixed(groups[0].rules) && FirstMixed(groups) == 1;
    assert !rules[0].restricts;
    RaisingIsTrouble(raising, Prefix(rules), BudgetOf(o));
  }

  lemma {:induction false} RaisingIsTrouble(raising: AnyRule, asked: seq<AnyRule>, b: Budget)
    requires !raising.async && raising.reply.Raises? && asked != [] && asked[0] == raising
    ensures FirstTrouble(asked, b, 0) == Some(RuleRaised(raising.ruleType, raising.code, raising.reply.error))
  {
  }

  lemma {:induction false} TwoInOneGroup(a: AnyRule, c: AnyRule)
    requires a.ruleType == c.ruleType
    ensures GroupsOf([a, c]) == [Group(a.ruleType, [a, c])]
    ensures Asked(GroupsOf([a, c])) == Prefix([a, c])
  {
    assert [a, c][..1] == [a] && [a][..0] == [];
    assert GroupsOf([a]) == AddToGroup([], a) == [Group(a.ruleType, [a])];
    assert GroupsOf([a, c]) == AddToGroup([Group(a.ruleType, [a])], c);
    assert [a] + [c] == [a, c];
    assert [Group(a.ruleType, [a, c])][1..] == [];
  }
}
