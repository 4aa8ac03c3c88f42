/** When the order of collection can change what is allowed: exactly, for every list. A
    rule that throws fails the decision only if it is asked, and an asynchronous one is late
    or not by what was asked before it. */
module EvaluateOrder {
  import opened Text
  import opened Evaluate
  import opened EvaluateLaws
  import opened Arrangements

  ghost predicate TypeSound(rules: seq<AnyRule>, ruleType: string, b: Budget) {
    exists p :: p in rules && p.ruleType == ruleType && Sound(p, b)
  }

  ghost predicate UsableBounds(o: Options) { Usable(o.ruleTimeoutMs) && Usable(o.evaluateDeadlineMs) }

  /** Kinds apart, a reason to allow, and in every type a rule that passes in time by itself. */
  ghost predicate Allowable(rules: seq<AnyRule>, o: Options)
    requires UsableBounds(o)
  {
    && KindsKeptApart(rules) && (HasGranting(rules) || o.allowEmpty)
    && forall r :: r in rules ==> TypeSound(rules, r.ruleType, BudgetOf(o))
  }

  ghost function NeededBy(rules: seq<AnyRule>, b: Budget): string -> nat { t => NeededTime(Members(rules, t), b) }

  ghost function WorstOf(rules: seq<AnyRule>): string -> nat { t => WorstTime(Members(rules, t)) }

  /** What must be spent of the phase's deadline: over the types without a synchronous sound
      rule, the quickest sound rule's time. */
  ghost function LeastTime(rules: seq<AnyRule>, b: Budget): nat { Sum(TypesIn(rules), NeededBy(rules, b)) }

  /** The latest a rule can end: after every other type's failing rules and its slowest
      passing one, and its own type's failing rules. */
  ghost function LatestEnd(rules: seq<AnyRule>, r: AnyRule): nat {
    Sum(TypesIn(rules) - {r.ruleType}, WorstOf(rules)) + EndAmong(Members(rules, r.ruleType), r)
  }

  /** The latest a rule can end among those of its type. */
  function EndAmong(rules: seq<AnyRule>, r: AnyRule): nat { FailTime(rules) + (if Passes(r) then r.takes else 0) }

  ghost predicate SomeOrderCan(rules: seq<AnyRule>, o: Options) {
    UsableBounds(o) && Allowable(rules, o) && LeastTime(rules, BudgetOf(o)) < BudgetOf(o).deadlineMs
  }

  ghost predicate EveryOrderCan(rules: seq<AnyRule>, o: Options) {
    && UsableBounds(o) && Allowable(rules, o)
    && forall r :: r in rules ==> !OwnTrouble(r, BudgetOf(o)) && (r.async ==> LatestEnd(rules, r) < BudgetOf(o).deadlineMs)
  }

  // --- what order does not change --------------------------------------------

  lemma {:induction false} AllowablePermuted(a: seq<AnyRule>, c: seq<AnyRule>, o: Options)
    requires multiset(a) == multiset(c) && UsableBounds(o) && Allowable(a, o)
    ensures Allowable(c, o)
  {
    SameElements(a, c);
    SameGranting(a, c);
    forall r | r in c ensures TypeSound(c, r.ruleType, BudgetOf(o)) {
      assert r in a && TypeSound(a, r.ruleType, BudgetOf(o));
      var p :| p in a && p.ruleType == r.ruleType && Sound(p, BudgetOf(o));
      assert p in c;
    }
  }

  lemma {:induction false} LeastTimePermuted(a: seq<AnyRule>, c: seq<AnyRule>, b: Budget)
    requires multiset(a) == multiset(c)
    ensures LeastTime(a, b) == LeastTime(c, b)
  {
    SameTypes(a, c);
    forall t ensures NeededBy(a, b)(t) == NeededBy(c, b)(t) {
      MembersPermuted(a, c, t);
      NeededTimePermuted(Members(a, t), Members(c, t), b);
    }
    SumSame(TypesIn(a), NeededBy(a, b), NeededBy(c, b));
  }

  lemma {:induction false} LatestEndPermuted(a: seq<AnyRule>, c: seq<AnyRule>, r: AnyRule)
    requires multiset(a) == multiset(c)
    ensures LatestEnd(a, r) == LatestEnd(c, r)
  {
    SameTypes(a, c);
    forall t ensures WorstOf(a)(t) == WorstOf(c)(t) && FailTime(Members(a, t)) == FailTime(Members(c, t)) {
      MembersPermuted(a, c, t);
      FailTimePermuted(Members(a, t), Members(c, t));
      PassTimePermuted(Members(a, t), Members(c, t));
    }
    SumSame(TypesIn(a) - {r.ruleType}, WorstOf(a), WorstOf(c));
  }

  // --- the two sums, over groups ----------------------------------------------

  function NeededSum(groups: seq<Group>, b: Budget): nat {
    if groups == [] then 0 else NeededTime(groups[0].rules, b) + NeededSum(groups[1..], b)
  }

  function WorstSum(groups: seq<Group>): nat {
    if groups == [] then 0 else WorstTime(groups[0].rules) + WorstSum(groups[1..])
  }

  lemma {:induction false} SumsOverTypes(groups: seq<Group>, rules: seq<AnyRule>, b: Budget)
    requires forall i :: 0 <= i < |groups| ==> groups[i].rules == Members(rules, groups[i].ruleType)
    ensures NeededSum(groups, b) == SumOver(groups, NeededBy(rules, b))
    ensures WorstSum(groups) == SumOver(groups, WorstOf(rules))
  {
    if groups != [] { SumsOverTypes(groups[1..], rules, b); }
  }

  lemma {:induction false} SumsOfList(rules: seq<AnyRule>, b: Budget)
    ensures NeededSum(GroupsOf(rules), b) == LeastTime(rules, b)
    ensures WorstSum(GroupsOf(rules)) == Sum(TypesIn(rules), WorstOf(rules))
  {
    GroupsAreGrouped(rules);
    SumsOverTypes(GroupsOf(rules), rules, b);
    SumOfMembers(rules, NeededBy(rules, b));
    SumOfMembers(rules, WorstOf(rules));
  }

  lemma {:induction false} LatestEndOverGroups(rules: seq<AnyRule>, i: nat, r: AnyRule)
    requires i < |GroupsOf(rules)| && r.ruleType == GroupsOf(rules)[i].ruleType
    ensures var groups := GroupsOf(rules);
            LatestEnd(rules, r) == WorstSum(groups) - WorstTime(groups[i].rules) + EndAmong(groups[i].rules, r)
  {
    var groups := GroupsOf(rules);
    GroupsAreGrouped(rules);
    SumsOfList(rules, Budget(0, 0));
    TypesAreGrouped(rules);
    assert groups[i] in groups;
    SumPicks(TypesIn(rules), WorstOf(rules), r.ruleType);
  }

  // --- trouble ---------------------------------------------------------------

  lemma {:induction false} NoTroubleInTime(asked: seq<AnyRule>, b: Budget, elapsed: nat)
    requires forall k :: 0 <= k < |asked| ==> !OwnTrouble(asked[k], b)
    requires (forall k :: 0 <= k < |asked| ==> !asked[k].async) || elapsed + Time(asked) < b.deadlineMs
    ensures FirstTrouble(asked, b, elapsed) == None
  {
    if asked != [] {
      TroubleExactlyWhen(asked[0], b, elapsed);
      NoTroubleInTime(asked[1..], b, elapsed + asked[0].takes);
    }
  }

  // --- some order allows: what every allowed order has spent -------------------

  lemma {:induction false} GroupSpends(rules: seq<AnyRule>, b: Budget, elapsed: nat)
    requires Satisfied(rules) && FirstTrouble(Prefix(rules), b, elapsed) == None && b.ruleTimeoutMs >= 1
    ensures NeededTime(rules, b) <= Time(Prefix(rules))
    ensures NeededTime(rules, b) > 0 ==> elapsed + Time(Prefix(rules)) < b.deadlineMs
    ensures Sound(rules[FirstPass(rules)], b)
  {
    PrefixShape(rules);
    var k := FirstPass(rules);
    var p := rules[k];
    assert Prefix(rules) == rules[..k] + [p] && Prefix(rules)[k] == p;
    AskedWithoutTrouble(Prefix(rules), b, elapsed, k);
    TimeConcat(rules[..k], [p]);
    assert [p][1..] == [];
    if NeededTime(rules, b) > 0 {
      assert Better(rules[Best(rules, b)], p);
      UntroubledRulesAreInTime(Prefix(rules), b, elapsed, k);
      assert Prefix(rules)[..k + 1] == Prefix(rules);
    }
  }

  lemma {:induction false} GroupsSpend(groups: seq<Group>, b: Budget, elapsed: nat)
    requires forall i :: 0 <= i < |groups| ==> Satisfied(groups[i].rules)
    requires FirstTrouble(Asked(groups), b, elapsed) == None && b.ruleTimeoutMs >= 1
    ensures NeededSum(groups, b) == 0 || elapsed + NeededSum(groups, b) < b.deadlineMs
  {
    if groups != [] {
      var g, rest := groups[0], groups[1..];
      assert groups == [g] + rest;
      NoTroubleCons(g, rest, b, elapsed);
      GroupSpends(g.rules, b, elapsed);
      GroupsSpend(rest, b, elapsed + Time(Prefix(g.rules)));
    }
  }

  lemma {:induction false} AllGroupsSatisfied(rules: seq<AnyRule>)
    requires EveryTypePasses(rules)
    ensures forall i :: 0 <= i < |GroupsOf(rules)| ==> Satisfied(GroupsOf(rules)[i].rules)
  {
    GroupsAreGrouped(rules);
    forall i | 0 <= i < |GroupsOf(rules)| ensures Satisfied(GroupsOf(rules)[i].rules) {
      RuleOfGroup(rules, i, 0);
      SatisfiedIffTypePasses(rules, i);
    }
  }

  lemma {:induction false} GroupUntroubled(groups: seq<Group>, i: nat, b: Budget, elapsed: nat) returns (at: nat)
    requires i < |groups| && FirstTrouble(Asked(groups), b, elapsed) == None
    ensures FirstTrouble(Prefix(groups[i].rules), b, at) == None
  {
    var g, rest := groups[0], groups[1..];
    assert groups == [g] + rest;
    NoTroubleCons(g, rest, b, elapsed);
    if i == 0 {
      at := elapsed;
    } else {
      at := GroupUntroubled(rest, i - 1, b, elapsed + Time(Prefix(g.rules)));
    }
  }

  /** What is allowed meets the condition: its rules, and the time it took. */
  lemma {:induction false} AllowedMeetsIt(rules: seq<AnyRule>, o: Options)
    requires Allows(rules, o)
    ensures SomeOrderCan(rules, o)
  {
    AllowsIff(rules, o);
    var b := BudgetOf(o);
    AllGroupsSatisfied(rules);
    forall r | r in rules ensures TypeSound(rules, r.ruleType, b) {
      var i := GroupOfRule(rules, r);
      var at := GroupUntroubled(GroupsOf(rules), i, b, 0);
      var members := GroupsOf(rules)[i].rules;
      GroupSpends(members, b, at);
      PrefixShape(members);
      RuleOfGroup(rules, i, FirstPass(members));
    }
    GroupsSpend(GroupsOf(rules), b, 0);
    SumsOfList(rules, b);
  }

  // --- some order allows: the order that spends least ---------------------------

  /** The group with the rule at `k` moved to the front. */
  function Front(g: Group, k: nat): Group
    requires k < |g.rules|
  {
    Group(g.ruleType, [g.rules[k]] + (g.rules[..k] + g.rules[k + 1..]))
  }

  lemma {:induction false} FrontRearranges(g: Group, k: nat)
    requires k < |g.rules|
    ensures multiset(Front(g, k).rules) == multiset(g.rules)
  {
    assert g.rules == g.rules[..k] + ([g.rules[k]] + g.rules[k + 1..]);
  }

  ghost predicate AllSound(groups: seq<Group>, b: Budget) {
    forall i :: 0 <= i < |groups| ==> Best(groups[i].rules, b) < |groups[i].rules|
  }

  /** The groups whose best rule is asynchronous, or is not. */
  function Those(groups: seq<Group>, b: Budget, async: bool): seq<Group>
  {
    if groups == [] then []
    else
      var k := Best(groups[0].rules, b);
      (if k < |groups[0].rules| && groups[0].rules[k].async == async then [groups[0]] else []) + Those(groups[1..], b, async)
  }

  lemma {:induction false} ThoseAre(groups: seq<Group>, b: Budget, async: bool)
    requires AllSound(groups, b)
    ensures AllSound(Those(groups, b, async), b)
    ensures forall i :: 0 <= i < |Those(groups, b, async)| ==>
              var rules := Those(groups, b, async)[i].rules; rules[Best(rules, b)].async == async
  {
    if groups != [] { ThoseAre(groups[1..], b, async); }
  }

  lemma {:induction false} JoinedWith<T>(x: T, a: seq<T>, c: seq<T>, all: seq<T>)
    requires all == ([x] + a) + c || all == a + ([x] + c)
    ensures multiset(all) == multiset{x} + multiset(a + c)
  {
  }

  lemma {:induction false} HeadOf<T>(all: seq<T>)
    requires all != []
    ensures multiset(all) == multiset{all[0]} + multiset(all[1..])
  {
    assert all == [all[0]] + all[1..];
  }

  lemma {:induction false} ThoseCons(groups: seq<Group>, b: Budget)
    requires AllSound(groups, b) && groups != []
    ensures var g, t, f := groups[0], Those(groups[1..], b, true), Those(groups[1..], b, false);
            if g.rules[Best(g.rules, b)].async
            then Those(groups, b, true) == [g] + t && Those(groups, b, false) == f
            else Those(groups, b, true) == t && Those(groups, b, false) == [g] + f
  {
  }

  lemma {:induction false} ThoseAreAll(groups: seq<Group>, b: Budget)
    requires AllSound(groups, b)
    ensures multiset(Those(groups, b, true) + Those(groups, b, false)) == multiset(groups)
  {
    if groups != [] {
      ThoseAreAll(groups[1..], b);
      ThoseCons(groups, b);
      JoinedWith(groups[0], Those(groups[1..], b, true), Those(groups[1..], b, false),
                 Those(groups, b, true) + Those(groups, b, false));
      HeadOf(groups);
    }
  }

  lemma {:induction false} AsynchronousAreNeeded(groups: seq<Group>, b: Budget)
    requires AllSound(groups, b)
    ensures NeededSum(Those(groups, b, true), b) == NeededSum(groups, b)
  {
    if groups != [] {
      AsynchronousAreNeeded(groups[1..], b);
      ThoseCons(groups, b);
      assert ([groups[0]] + Those(groups[1..], b, true))[1..] == Those(groups[1..], b, true);
    }
  }

  function BestFirst(groups: seq<Group>, b: Budget): (order: seq<Group>)
    requires forall i :: 0 <= i < |groups| ==> Best(groups[i].rules, b) < |groups[i].rules|
    ensures |order| == |groups|
    ensures forall i :: 0 <= i < |groups| ==> order[i] == Front(groups[i], Best(groups[i].rules, b))
  {
    seq(|groups|, i requires 0 <= i < |groups| => Front(groups[i], Best(groups[i].rules, b)))
  }

  /** With the best rules first, they are all that is asked. */
  lemma {:induction false} AsksTheBest(groups: seq<Group>, b: Budget)
    requires AllSound(groups, b)
    ensures var asked := Asked(BestFirst(groups, b));
            && |asked| == |groups|
            && forall i :: 0 <= i < |groups| ==> asked[i] == groups[i].rules[Best(groups[i].rules, b)]
  {
    if groups != [] {
      AsksTheBest(groups[1..], b);
      var order := BestFirst(groups, b);
      assert order[1..] == BestFirst(groups[1..], b);
      assert Prefix(order[0].rules) == [order[0].rules[0]];
    }
  }

  lemma {:induction false} NeededIsAsked(groups: seq<Group>, b: Budget, asked: seq<AnyRule>)
    requires AllSound(groups, b) && |asked| == |groups|
    requires forall i :: 0 <= i < |groups| ==> asked[i] == groups[i].rules[Best(groups[i].rules, b)] && asked[i].async
    ensures Time(asked) == NeededSum(groups, b)
  {
    if groups != [] { NeededIsAsked(groups[1..], b, asked[1..]); }
  }

  /** Each asynchronous group with its quickest: in time when they need less than there is. */
  lemma {:induction false} QuickestInTime(first: seq<Group>, b: Budget)
    requires AllSound(first, b) && NeededSum(first, b) < b.deadlineMs
    requires forall i :: 0 <= i < |first| ==> first[i].rules[Best(first[i].rules, b)].async
    ensures FirstTrouble(Asked(BestFirst(first, b)), b, 0) == None
  {
    var asked := Asked(BestFirst(first, b));
    AsksTheBest(first, b);
    NeededIsAsked(first, b, asked);
    NoTroubleInTime(asked, b, 0);
  }

  lemma {:induction false} SynchronousInTime(rest: seq<Group>, b: Budget, elapsed: nat)
    requires AllSound(rest, b)
    requires forall i :: 0 <= i < |rest| ==> !rest[i].rules[Best(rest[i].rules, b)].async
    ensures FirstTrouble(Asked(BestFirst(rest, b)), b, elapsed) == None
  {
    AsksTheBest(rest, b);
    NoTroubleInTime(Asked(BestFirst(rest, b)), b, elapsed);
  }

  /** Asynchronous groups first, then the others: no trouble. */
  lemma {:induction false} BestFirstIsUntroubled(first: seq<Group>, rest: seq<Group>, b: Budget)
    requires AllSound(first, b) && AllSound(rest, b) && NeededSum(first, b) < b.deadlineMs
    requires forall i :: 0 <= i < |first| ==> first[i].rules[Best(first[i].rules, b)].async
    requires forall i :: 0 <= i < |rest| ==> !rest[i].rules[Best(rest[i].rules, b)].async
    ensures FirstTrouble(Asked(BestFirst(first, b) + BestFirst(rest, b)), b, 0) == None
  {
    var now, later := Asked(BestFirst(first, b)), Asked(BestFirst(rest, b));
    QuickestInTime(first, b);
    SynchronousInTime(rest, b, Time(now));
    AskedConcat(BestFirst(first, b), BestFirst(rest, b));
    TroubleConcat(now, later, b, 0);
  }

  lemma {:induction false} SoundTypesAreSoundGroups(rules: seq<AnyRule>, b: Budget)
    requires forall r :: r in rules ==> TypeSound(rules, r.ruleType, b)
    ensures AllSound(GroupsOf(rules), b)
  {
    var groups := GroupsOf(rules);
    GroupsAreGrouped(rules);
    forall i | 0 <= i < |groups| ensures Best(groups[i].rules, b) < |groups[i].rules| {
      RuleOfGroup(rules, i, 0);
      assert TypeSound(rules, groups[i].ruleType, b);
      var p :| p in rules && p.ruleType == groups[i].ruleType && Sound(p, b);
      MembersAre(rules, groups[i].ruleType, p);
      var k :| 0 <= k < |groups[i].rules| && groups[i].rules[k] == p;
    }
  }

  lemma {:induction false} BestFirstRearranges(groups: seq<Group>, b: Budget)
    requires AllSound(groups, b)
    ensures Rearranged(groups, BestFirst(groups, b))
  {
    forall i | 0 <= i < |groups| ensures multiset(BestFirst(groups, b)[i].rules) == multiset(groups[i].rules) {
      FrontRearranges(groups[i], Best(groups[i].rules, b));
    }
  }

  lemma {:induction false} RearrangedConcat(a: seq<Group>, x: seq<Group>, c: seq<Group>, y: seq<Group>)
    requires Rearranged(a, x) && Rearranged(c, y)
    ensures Rearranged(a + c, x + y)
  {
  }

  lemma {:induction false} UntroubledAllows(rules: seq<AnyRule>, o: Options)
    requires UsableBounds(o) && Allowable(rules, o)
    requires FirstTrouble(Asked(GroupsOf(rules)), BudgetOf(o), 0) == None
    ensures Allows(rules, o)
  {
    forall r | r in rules ensures TypePasses(rules, r.ruleType) {
      assert TypeSound(rules, r.ruleType, BudgetOf(o));
    }
    AllowsIff(rules, o);
  }

  /** The list put in that order. */
  lemma {:induction false} BestOrder(rules: seq<AnyRule>, b: Budget) returns (c: seq<AnyRule>)
    requires AllSound(GroupsOf(rules), b)
    ensures multiset(c) == multiset(rules)
    ensures NeededSum(GroupsOf(rules), b) < b.deadlineMs ==> FirstTrouble(Asked(GroupsOf(c)), b, 0) == None
  {
    var groups := GroupsOf(rules);
    var first, rest := Those(groups, b, true), Those(groups, b, false);
    ThoseAre(groups, b, true);
    ThoseAre(groups, b, false);
    ThoseAreAll(groups, b);
    AsynchronousAreNeeded(groups, b);
    BestFirstRearranges(first, b);
    BestFirstRearranges(rest, b);
    RearrangedConcat(first, BestFirst(first, b), rest, BestFirst(rest, b));
    c := ListOf(rules, first + rest, BestFirst(first, b) + BestFirst(rest, b));
    if NeededSum(groups, b) < b.deadlineMs { BestFirstIsUntroubled(first, rest, b); }
  }

  /** What meets the condition has an order that is allowed: the best rule of each type first,
      and the types that need an asynchronous one before the others. */
  lemma {:induction false} BestOrderAllows(rules: seq<AnyRule>, o: Options) returns (c: seq<AnyRule>)
    ensures SomeOrderCan(rules, o) ==> multiset(c) == multiset(rules) && Allows(c, o)
  {
    c := rules;
    if SomeOrderCan(rules, o) {
      SoundTypesAreSoundGroups(rules, BudgetOf(o));
      SumsOfList(rules, BudgetOf(o));
      c := BestOrder(rules, BudgetOf(o));
      AllowablePermuted(rules, c, o);
      UntroubledAllows(c, o);
    }
  }

  /** Some order of a list is allowed exactly when, bounds usable, its kinds are apart, there
      is a reason to allow, every type has a rule that passes in time by itself, and the types
      only asynchronous ones can satisfy need less than the phase's deadline together. */
  lemma {:induction false} SomeOrderAllowsExactlyWhen(rules: seq<AnyRule>, o: Options)
    ensures (exists c: seq<AnyRule> :: multiset(c) == multiset(rules) && Allows(c, o)) <==> SomeOrderCan(rules, o)
  {
    if c: seq<AnyRule> :| multiset(c) == multiset(rules) && Allows(c, o) {
      AllowedMeetsIt(c, o);
      AllowablePermuted(c, rules, o);
      LeastTimePermuted(c, rules, BudgetOf(o));
    }
    if SomeOrderCan(rules, o) { var c := BestOrderAllows(rules, o); }
  }

  // --- every order allows: no order is late -------------------------------------

  lemma {:induction false} PrefixInTime(rules: seq<AnyRule>, b: Budget, elapsed: nat)
    requires forall k :: 0 <= k < |rules| ==> !OwnTrouble(rules[k], b)
    requires forall k :: 0 <= k < |rules| && rules[k].async ==> elapsed + EndAmong(rules, rules[k]) < b.deadlineMs
    ensures FirstTrouble(Prefix(rules), b, elapsed) == None
  {
    if rules != [] {
      TroubleExactlyWhen(rules[0], b, elapsed);
      if Passes(rules[0]) {
        assert [rules[0]][1..] == [];
      } else {
        assert ([rules[0]] + Prefix(rules[1..]))[1..] == Prefix(rules[1..]);
        PrefixInTime(rules[1..], b, elapsed + rules[0].takes);
      }
    }
  }

  /** Every asynchronous rule of the groups ends in time, asked from `elapsed` on in any
      order of each group, the groups as they stand or not. */
  ghost predicate EndsInTime(groups: seq<Group>, b: Budget, elapsed: nat) {
    forall i, k :: 0 <= i < |groups| && 0 <= k < |groups[i].rules| ==>
      && !OwnTrouble(groups[i].rules[k], b)
      && (groups[i].rules[k].async ==>
            elapsed + WorstSum(groups) - WorstTime(groups[i].rules) + EndAmong(groups[i].rules, groups[i].rules[k]) < b.deadlineMs)
  }

  lemma {:induction false} EndsInTimeAfter(g: Group, rest: seq<Group>, b: Budget, elapsed: nat, later: nat)
    requires EndsInTime([g] + rest, b, elapsed) && later <= elapsed + WorstTime(g.rules)
    ensures EndsInTime(rest, b, later)
  {
    var groups := [g] + rest;
    assert groups[1..] == rest;
    forall i, k | 0 <= i < |rest| && 0 <= k < |rest[i].rules|
      ensures !OwnTrouble(rest[i].rules[k], b)
      ensures rest[i].rules[k].async ==>
                later + WorstSum(rest) - WorstTime(rest[i].rules) + EndAmong(rest[i].rules, rest[i].rules[k]) < b.deadlineMs
    {
      assert groups[i + 1] == rest[i];
      assert groups[i + 1].rules[k] == rest[i].rules[k];
    }
  }

  lemma {:induction false} FirstEndsInTime(g: Group, rest: seq<Group>, b: Budget, elapsed: nat)
    requires EndsInTime([g] + rest, b, elapsed)
    ensures forall k :: 0 <= k < |g.rules| ==>
              !OwnTrouble(g.rules[k], b) && (g.rules[k].async ==> elapsed + EndAmong(g.rules, g.rules[k]) < b.deadlineMs)
  {
    var groups := [g] + rest;
    assert groups[0] == g && groups[1..] == rest;
    forall k | 0 <= k < |g.rules|
      ensures !OwnTrouble(g.rules[k], b) && (g.rules[k].async ==> elapsed + EndAmong(g.rules, g.rules[k]) < b.deadlineMs)
    {
      assert groups[0].rules[k] == g.rules[k];
    }
  }

  lemma {:induction false} NoTroubleInGroups(groups: seq<Group>, b: Budget, elapsed: nat)
    requires EndsInTime(groups, b, elapsed)
    ensures FirstTrouble(Asked(groups), b, elapsed) == None
  {
    if groups != [] {
      var g, rest := groups[0], groups[1..];
      assert groups == [g] + rest;
      FirstEndsInTime(g, rest, b, elapsed);
      PrefixInTime(g.rules, b, elapsed);
      PrefixTakesAtMost(g.rules);
      EndsInTimeAfter(g, rest, b, elapsed, elapsed + Time(Prefix(g.rules)));
      NoTroubleInGroups(rest, b, elapsed + Time(Prefix(g.rules)));
      NoTroubleCons(g, rest, b, elapsed);
    }
  }

  lemma {:induction false} EveryOrderAllows(rules: seq<AnyRule>, c: seq<AnyRule>, o: Options)
    requires EveryOrderCan(rules, o) && multiset(c) == multiset(rules)
    ensures Allows(c, o)
  {
    var b := BudgetOf(o);
    var groups := GroupsOf(c);
    AllowablePermuted(rules, c, o);
    forall i, k | 0 <= i < |groups| && 0 <= k < |groups[i].rules|
      ensures !OwnTrouble(groups[i].rules[k], b)
      ensures groups[i].rules[k].async ==>
                WorstSum(groups) - WorstTime(groups[i].rules) + EndAmong(groups[i].rules, groups[i].rules[k]) < b.deadlineMs
    {
      var r := groups[i].rules[k];
      RuleOfGroup(c, i, k);
      InPermutation(c, rules, r);
      LatestEndPermuted(c, rules, r);
      LatestEndOverGroups(c, i, r);
    }
    NoTroubleInGroups(groups, b, 0);
    UntroubledAllows(c, o);
  }

  // --- every order allows: an order that is late ---------------------------------

  function Failing(rules: seq<AnyRule>, fail: bool): seq<AnyRule> {
    if rules == [] then []
    else (if Passes(rules[0]) != fail then [rules[0]] else []) + Failing(rules[1..], fail)
  }

  lemma {:induction false} FailingCons(rules: seq<AnyRule>)
    requires rules != []
    ensures var r, f, w := rules[0], Failing(rules[1..], true), Failing(rules[1..], false);
            if Passes(r) then Failing(rules, true) == f && Failing(rules, false) == [r] + w
            else Failing(rules, true) == [r] + f && Failing(rules, false) == w
  {
  }

  lemma {:induction false} FailingTake(rules: seq<AnyRule>)
    ensures forall i :: 0 <= i < |Failing(rules, true)| ==> !Passes(Failing(rules, true)[i])
    ensures Time(Failing(rules, true)) == FailTime(rules)
  {
    if rules != [] {
      FailingTake(rules[1..]);
      FailingCons(rules);
      assert ([rules[0]] + Failing(rules[1..], true))[1..] == Failing(rules[1..], true);
    }
  }

  lemma {:induction false} FailingAreAll(rules: seq<AnyRule>)
    ensures multiset(Failing(rules, true) + Failing(rules, false)) == multiset(rules)
  {
    if rules != [] {
      FailingAreAll(rules[1..]);
      FailingCons(rules);
      JoinedWith(rules[0], Failing(rules[1..], true), Failing(rules[1..], false),
                 Failing(rules, true) + Failing(rules, false));
      HeadOf(rules);
    }
  }

  /** The failing rules of some, then another rule, then the rest. */
  function Around(others: seq<AnyRule>, r: AnyRule): seq<AnyRule> {
    Failing(others, true) + ([r] + Failing(others, false))
  }

  /** The other failing rules, then the rule at `k`, then the rest. */
  function Staged(rules: seq<AnyRule>, k: nat): seq<AnyRule>
    requires k < |rules|
  {
    Around(rules[..k] + rules[k + 1..], rules[k])
  }

  lemma {:induction false} AroundKeeps(others: seq<AnyRule>, r: AnyRule)
    ensures multiset(Around(others, r)) == multiset{r} + multiset(others)
  {
    FailingAreAll(others);
    JoinedWith(r, Failing(others, true), Failing(others, false), Around(others, r));
  }

  lemma {:induction false} WithoutOne<T>(all: seq<T>, k: nat)
    requires k < |all|
    ensures multiset(all) == multiset{all[k]} + multiset(all[..k] + all[k + 1..])
  {
    assert all == all[..k] + ([all[k]] + all[k + 1..]);
  }

  lemma {:induction false} StagedRearranges(rules: seq<AnyRule>, k: nat)
    requires k < |rules|
    ensures multiset(Staged(rules, k)) == multiset(rules)
  {
    AroundKeeps(rules[..k] + rules[k + 1..], rules[k]);
    WithoutOne(rules, k);
  }

  lemma {:induction false} AskedAfterFailing(failing: seq<AnyRule>, r: AnyRule, rest: seq<AnyRule>, all: seq<AnyRule>)
    requires all == failing + ([r] + rest) && forall i :: 0 <= i < |failing| ==> !Passes(failing[i])
    ensures failing + [r] <= Prefix(all)
    ensures Passes(r) ==> Prefix(all) == failing + [r]
  {
    var after := [r] + rest;
    assert forall i :: 0 <= i < |failing| ==> all[i] == failing[i];
    PrefixOfFailing(all, |failing|);
    assert all[..|failing|] == failing && all[|failing|..] == after;
    assert Prefix(after)[0] == r;
    assert [r] <= Prefix(after);
  }

  /** So arranged the group asks that rule, and has then spent all its failing time. */
  lemma {:induction false} StagedAsks(rules: seq<AnyRule>, k: nat) returns (asked: seq<AnyRule>)
    requires k < |rules|
    ensures asked <= Prefix(Staged(rules, k)) && asked != [] && asked[|asked| - 1] == rules[k]
    ensures Time(asked) == EndAmong(rules, rules[k])
    ensures Passes(rules[k]) ==> asked == Prefix(Staged(rules, k))
  {
    var before, r, after := rules[..k], rules[k], rules[k + 1..];
    var failing := Failing(before + after, true);
    FailingTake(before + after);
    AskedAfterFailing(failing, r, Failing(before + after, false), Staged(rules, k));
    asked := failing + [r];
    TimeConcat(failing, [r]);
    assert [r][1..] == [];
    FailTimeMiddle(before, r, after);
    assert rules == before + ([r] + after);
  }

  ghost predicate AllPass(groups: seq<Group>) {
    forall i :: 0 <= i < |groups| ==> Slowest(groups[i].rules) < |groups[i].rules|
  }

  function Slowed(groups: seq<Group>): (order: seq<Group>)
    requires forall i :: 0 <= i < |groups| ==> Slowest(groups[i].rules) < |groups[i].rules|
    ensures |order| == |groups|
    ensures forall i :: 0 <= i < |groups| ==>
              order[i] == Group(groups[i].ruleType, Staged(groups[i].rules, Slowest(groups[i].rules)))
  {
    seq(|groups|, i requires 0 <= i < |groups| =>
      Group(groups[i].ruleType, Staged(groups[i].rules, Slowest(groups[i].rules))))
  }

  lemma {:induction false} SlowedRearranges(groups: seq<Group>)
    requires AllPass(groups)
    ensures Rearranged(groups, Slowed(groups))
  {
    forall i | 0 <= i < |groups| ensures multiset(Slowed(groups)[i].rules) == multiset(groups[i].rules) {
      StagedRearranges(groups[i].rules, Slowest(groups[i].rules));
    }
  }

  /** Slowed, groups take all the time they can. */
  lemma {:induction false} SlowedTakesAll(groups: seq<Group>)
    requires AllPass(groups)
    ensures Time(Asked(Slowed(groups))) == WorstSum(groups)
  {
    if groups != [] {
      var rest := groups[1..];
      var order := Slowed(groups);
      SlowedTakesAll(rest);
      assert order[1..] == Slowed(rest);
      var asked := StagedAsks(groups[0].rules, Slowest(groups[0].rules));
      TimeConcat(Prefix(order[0].rules), Asked(Slowed(rest)));
    }
  }

  lemma {:induction false} PassingGroups(rules: seq<AnyRule>, o: Options)
    requires UsableBounds(o) && Allowable(rules, o)
    ensures AllPass(GroupsOf(rules))
  {
    SoundTypesAreSoundGroups(rules, BudgetOf(o));
    var groups := GroupsOf(rules);
    forall i | 0 <= i < |groups| ensures Slowest(groups[i].rules) < |groups[i].rules| {
      assert Passes(groups[i].rules[Best(groups[i].rules, BudgetOf(o))]);
    }
  }

  lemma {:induction false} WorstSumWithout(before: seq<Group>, g: Group, after: seq<Group>)
    ensures WorstSum(before + ([g] + after)) == WorstTime(g.rules) + WorstSum(before + after)
  {
    var all := before + ([g] + after);
    if before == [] {
      assert all[1..] == after && before + after == after;
    } else {
      WorstSumWithout(before[1..], g, after);
      assert all[1..] == before[1..] + ([g] + after);
      assert (before + after)[1..] == before[1..] + after;
    }
  }

  /** Asked last, after groups slowed and its own failing rules, a rule ends at its latest. */
  lemma {:induction false} EndsAtItsLatest(others: seq<Group>, own: Group, k: nat, order: seq<Group>) returns (at: nat)
    requires AllPass(others) && k < |own.rules|
    requires order == Slowed(others) + [Group(own.ruleType, Staged(own.rules, k))]
    ensures at < |Asked(order)| && Asked(order)[at] == own.rules[k]
    ensures Time(Asked(order)[..at + 1]) == WorstSum(others) + EndAmong(own.rules, own.rules[k])
  {
    var last := Group(own.ruleType, Staged(own.rules, k));
    var before, mine := Asked(Slowed(others)), Prefix(last.rules);
    AskedConcat(Slowed(others), [last]);
    assert [last][1..] == [] && Asked([last]) == mine + [];
    var asked := StagedAsks(own.rules, k);
    at := |before| + |asked| - 1;
    assert Asked(order)[..at + 1] == before + asked;
    assert (before + asked)[at] == asked[|asked| - 1];
    TimeConcat(before, asked);
    SlowedTakesAll(others);
  }

  /** The list whose groups are slowed, the group of a rule last, and in it that rule. */
  lemma {:induction false} Delayed(rules: seq<AnyRule>, i: nat, k: nat) returns (c: seq<AnyRule>, others: seq<Group>)
    requires AllPass(GroupsOf(rules)) && i < |GroupsOf(rules)| && k < |GroupsOf(rules)[i].rules|
    ensures multiset(c) == multiset(rules) && AllPass(others)
    ensures var own := GroupsOf(rules)[i];
            && GroupsOf(c) == Slowed(others) + [Group(own.ruleType, Staged(own.rules, k))]
            && WorstSum(others) == WorstSum(GroupsOf(rules)) - WorstTime(own.rules)
  {
    var groups := GroupsOf(rules);
    var before, own, after := groups[..i], groups[i], groups[i + 1..];
    others := before + after;
    var staged := [Group(own.ruleType, Staged(own.rules, k))];
    assert groups == before + ([own] + after);
    SlowedRearranges(others);
    StagedRearranges(own.rules, k);
    RearrangedConcat(others, Slowed(others), [own], staged);
    MovedLast(before, own, after);
    c := ListOf(rules, others + [own], Slowed(others) + staged);
    WorstSumWithout(before, own, after);
  }

  /** An order in which an asynchronous rule that can be late is. */
  lemma {:induction false} LateOrderFails(rules: seq<AnyRule>, r: AnyRule, o: Options) returns (c: seq<AnyRule>)
    requires r in rules && r.async
    ensures multiset(c) == multiset(rules)
    ensures UsableBounds(o) && Allowable(rules, o) && LatestEnd(rules, r) >= BudgetOf(o).deadlineMs ==> !Allows(c, o)
  {
    c := rules;
    if UsableBounds(o) && Allowable(rules, o) && LatestEnd(rules, r) >= BudgetOf(o).deadlineMs {
      var i := GroupOfRule(rules, r);
      var own := GroupsOf(rules)[i];
      var k :| 0 <= k < |own.rules| && own.rules[k] == r;
      PassingGroups(rules, o);
      var others;
      c, others := Delayed(rules, i, k);
      LatestEndOverGroups(rules, i, r);
      var at := EndsAtItsLatest(others, own, k, GroupsOf(c));
      LateIsNotAllowed(c, at, o);
    }
  }

  lemma {:induction false} MovedLast<T>(before: seq<T>, x: T, after: seq<T>)
    ensures multiset((before + after) + [x]) == multiset(before + ([x] + after))
  {
  }

  lemma {:induction false} LateIsNotAllowed(rules: seq<AnyRule>, at: nat, o: Options)
    requires UsableBounds(o) && at < |Asked(GroupsOf(rules))| && Asked(GroupsOf(rules))[at].async
    requires Time(Asked(GroupsOf(rules))[..at + 1]) >= BudgetOf(o).deadlineMs
    ensures !Allows(rules, o)
  {
    if Allows(rules, o) { AllowedAnswersAreInTime(rules, o, at); }
  }

  // --- every order allows: a rule in trouble of its own --------------------------

  lemma {:induction false} FirstIsAsked(rules: seq<AnyRule>)
    requires rules != []
    ensures GroupsOf(rules) != [] && GroupsOf(rules)[0].rules != [] && GroupsOf(rules)[0].rules[0] == rules[0]
  {
    var init, last := rules[..|rules| - 1], rules[|rules| - 1];
    if init == [] {
      assert GroupsOf(rules) == AddToGroup([], last);
    } else {
      FirstIsAsked(init);
      assert init[0] == rules[0];
    }
  }

  /** With a troubled rule first, nothing is allowed. */
  lemma {:induction false} TroubledFirstFails(rules: seq<AnyRule>, o: Options)
    requires UsableBounds(o) && rules != [] && OwnTrouble(rules[0], BudgetOf(o))
    ensures !Allows(rules, o)
  {
    FirstIsAsked(rules);
    assert Asked(GroupsOf(rules))[0] == rules[0];
    TroubleExactlyWhen(rules[0], BudgetOf(o), 0);
    AllowsIff(rules, o);
  }

  lemma {:induction false} TroubleFirst(rules: seq<AnyRule>, r: AnyRule, o: Options) returns (c: seq<AnyRule>)
    requires UsableBounds(o) && r in rules && OwnTrouble(r, BudgetOf(o))
    ensures multiset(c) == multiset(rules) && !Allows(c, o)
  {
    var k :| 0 <= k < |rules| && rules[k] == r;
    c := [r] + (rules[..k] + rules[k + 1..]);
    assert rules == rules[..k] + ([r] + rules[k + 1..]);
    MovedFirst(r, rules[..k], rules[k + 1..]);
    TroubledFirstFails(c, o);
  }

  lemma {:induction false} MovedFirst<T>(x: T, before: seq<T>, after: seq<T>)
    ensures multiset([x] + (before + after)) == multiset(before + ([x] + after))
  {
  }

  lemma {:induction false} FailingOrder(rules: seq<AnyRule>, o: Options) returns (c: seq<AnyRule>)
    requires !EveryOrderCan(rules, o)
    ensures multiset(c) == multiset(rules) && !Allows(c, o)
  {
    c := rules;
    if Allows(rules, o) {
      AllowedMeetsIt(rules, o);
      var r :| r in rules && (OwnTrouble(r, BudgetOf(o)) || (r.async && LatestEnd(rules, r) >= BudgetOf(o).deadlineMs));
      if OwnTrouble(r, BudgetOf(o)) {
        c := TroubleFirst(rules, r, o);
      } else {
        c := LateOrderFails(rules, r, o);
      }
    }
  }

  /** Every order of a list is allowed exactly when, bounds usable, its kinds are apart, there
      is a reason to allow, every type has a rule that passes in time by itself, no rule
      throws, answers no boolean or overruns its own budget, and no asynchronous rule can end
      at the phase's deadline or later. */
  lemma {:induction false} EveryOrderAllowsExactlyWhen(rules: seq<AnyRule>, o: Options)
    ensures (forall c: seq<AnyRule> :: multiset(c) == multiset(rules) ==> Allows(c, o)) <==> EveryOrderCan(rules, o)
  {
    if EveryOrderCan(rules, o) {
      forall c: seq<AnyRule> | multiset(c) == multiset(rules) ensures Allows(c, o) { EveryOrderAllows(rules, c, o); }
    } else {
      var c := FailingOrder(rules, o);
    }
  }

  // --- order -------------------------------------------------------------------

  /** Every order of these rules allows, or none does. */
  ghost predicate OrderNeverMatters(rules: seq<AnyRule>, o: Options) {
    forall c: seq<AnyRule> :: multiset(c) == multiset(rules) ==> (Allows(c, o) <==> Allows(rules, o))
  }

  lemma {:induction false} TwoOrders(rules: seq<AnyRule>, o: Options, allowing: seq<AnyRule>, failing: seq<AnyRule>)
    requires multiset(allowing) == multiset(rules) && Allows(allowing, o)
    requires multiset(failing) == multiset(rules) && !Allows(failing, o)
    ensures !OrderNeverMatters(rules, o)
  {
  }

  /** The order of collection never matters exactly when no order can allow, or every one can. */
  lemma {:induction false} OrderNeverMattersExactlyWhen(rules: seq<AnyRule>, o: Options)
    ensures OrderNeverMatters(rules, o) <==> (SomeOrderCan(rules, o) ==> EveryOrderCan(rules, o))
  {
    SomeOrderAllowsExactlyWhen(rules, o);
    EveryOrderAllowsExactlyWhen(rules, o);
    if SomeOrderCan(rules, o) && !EveryOrderCan(rules, o) {
      var allowing := BestOrderAllows(rules, o);
      var failing := FailingOrder(rules, o);
      TwoOrders(rules, o, allowing, failing);
    }
  }

  /** Order can matter by time alone: a rule that passes, asked first, spares the decision the
      failing alternatives that, asked first, carry it past the deadline. */
  lemma {:induction false} TheDeadlineDependsOnOrder(passing: AnyRule, failing: AnyRule, o: Options)
    requires o == Options(false, None, None)
    requires passing.async && passing.reply == Answers(true) && passing.takes == 1000
    requires failing.async && failing.reply == Answers(false) && failing.takes == 1900
    requires passing.ruleType == failing.ruleType && !passing.restricts && !failing.restricts
    ensures Allows([passing, failing, failing, failing], o)
    ensures !Allows([failing, failing, failing, passing], o)
    ensures multiset([passing, failing, failing, failing]) == multiset([failing, failing, failing, passing])
  {
    PassingFirstAllows(passing, failing, o);
    PassingLastIsLate(passing, failing, o);
  }

  lemma {:induction false} PassingFirstAllows(passing: AnyRule, failing: AnyRule, o: Options)
    requires o == Options(false, None, None)
    requires passing.async && passing.reply == Answers(true) && passing.takes == 1000
    requires passing.ruleType == failing.ruleType && !passing.restricts && !failing.restricts
    ensures Allows([passing, failing, failing, failing], o)
  {
    var rules := [passing, failing, failing, failing];
    OneGroupOf(passing, failing, failing, failing);
    assert Prefix(rules) == [passing] && [passing][1..] == [];
    assert !rules[0].restricts && passing in rules;
    assert forall r :: r in rules ==> TypePasses(rules, r.ruleType);
    AllowsIff(rules, o);
  }

  lemma {:induction false} PassingLastIsLate(passing: AnyRule, failing: AnyRule, o: Options)
    requires o == Options(false, None, None)
    requires passing.async && passing.takes == 1000
    requires failing.reply == Answers(false) && failing.takes == 1900
    requires passing.ruleType == failing.ruleType
    ensures !Allows([failing, failing, failing, passing], o)
  {
    var rules := [failing, failing, failing, passing];
    OneGroupOf(failing, failing, failing, passing);
    AskedAfterFailing([failing, failing, failing], passing, [], rules);
    TimeOfFour(failing, failing, failing, passing);
    assert rules <= Prefix(rules);
    assert Asked(GroupsOf(rules))[..4] == rules;
    LateIsNotAllowed(rules, 3, o);
  }

  lemma {:induction false} TimeOfFour(p: AnyRule, q: AnyRule, r: AnyRule, s: AnyRule)
    ensures Time([p, q, r, s]) == p.takes + q.takes + r.takes + s.takes
  {
    assert [p, q, r, s][1..] == [q, r, s];
    assert [q, r, s][1..] == [r, s];
    assert [r, s][1..] == [s];
    assert [s][1..] == [];
    assert Time([s]) == s.takes;
    assert Time([r, s]) == r.takes + s.takes;
  }

  lemma {:induction false} OneGroupOf(p: AnyRule, q: AnyRule, r: AnyRule, s: AnyRule)
    requires p.ruleType == q.ruleType == r.ruleType == s.ruleType
    ensures GroupsOf([p, q, r, s]) == [Group(p.ruleType, [p, q, r, s])]
    ensures Asked(GroupsOf([p, q, r, s])) == Prefix([p, q, r, s])
  {
    var g := Group(p.ruleType, [p, q, r, s]);
    assert GroupsOf([]) == [];
    NotAmong([], p.ruleType);
    assert [] + g.rules == [p, q, r, s];
    FillsGroup([], g, [], [p, q, r, s]);
    assert [] + [g] == [g] && [g][1..] == [];
    assert Asked([g]) == Prefix(g.rules) + [];
  }
}
