/** Rule lists put in other orders: grouping undone and redone, and the times of a type's
    rules that no order changes. */
module Arrangements {
  import opened Text
  import opened Evaluate
  import opened EvaluateLaws

  // --- from groups back to a list --------------------------------------------

  function Flatten(groups: seq<Group>): seq<AnyRule> {
    if groups == [] then [] else Flatten(groups[..|groups| - 1]) + groups[|groups| - 1].rules
  }

  /** Groups as grouping makes them: each of its own type, none empty. */
  ghost predicate Tidy(groups: seq<Group>) {
    && (forall i :: 0 <= i < |groups| ==> groups[i].rules != [])
    && (forall i, k :: 0 <= i < |groups| && 0 <= k < |groups[i].rules| ==> groups[i].rules[k].ruleType == groups[i].ruleType)
    && (forall i, j :: 0 <= i < j < |groups| ==> groups[i].ruleType != groups[j].ruleType)
  }

  lemma {:induction false} FlattenSnoc(groups: seq<Group>, g: Group, all: seq<Group>)
    requires all == groups + [g]
    ensures Flatten(all) == Flatten(groups) + g.rules
  {
    assert all[..|groups|] == groups;
  }

  lemma {:induction false} Reassociate<T>(a: seq<T>, b: seq<T>, c: seq<T>)
    ensures (a + b) + c == a + (b + c)
  {
  }

  lemma {:induction false} FlattenConcat(a: seq<Group>, c: seq<Group>, all: seq<Group>)
    requires all == a + c
    ensures Flatten(all) == Flatten(a) + Flatten(c)
    decreases |c|
  {
    if c == [] {
      assert all == a;
    } else {
      var init, last := c[..|c| - 1], c[|c| - 1];
      FlattenConcat(a, init, a + init);
      assert all == a + init + [last] && c == init + [last];
      FlattenSnoc(a + init, last, all);
      FlattenSnoc(init, last, c);
      Reassociate(Flatten(a), Flatten(init), last.rules);
    }
  }

  lemma {:induction false} GroupsSnoc(rules: seq<AnyRule>, r: AnyRule, all: seq<AnyRule>)
    requires all == rules + [r]
    ensures GroupsOf(all) == AddToGroup(GroupsOf(rules), r)
  {
    assert all[..|all| - 1] == rules;
  }

  lemma {:induction false} AddToLast(groups: seq<Group>, g: Group, r: AnyRule, grown: Group)
    requires IndexOf(groups, g.ruleType) == |groups| && r.ruleType == g.ruleType
    requires grown == Group(g.ruleType, g.rules + [r])
    ensures AddToGroup(groups + [g], r) == groups + [grown]
  {
    LastOfType(groups, g);
  }

  lemma {:induction false} FillsGroup(groups: seq<Group>, g: Group, flat: seq<AnyRule>, all: seq<AnyRule>)
    requires IndexOf(groups, g.ruleType) == |groups| && g.rules != []
    requires forall k :: 0 <= k < |g.rules| ==> g.rules[k].ruleType == g.ruleType
    requires GroupsOf(flat) == groups && all == flat + g.rules
    ensures GroupsOf(all) == groups + [g]
    decreases |g.rules|
  {
    var n := |g.rules| - 1;
    var last := g.rules[n];
    var before := flat + g.rules[..n];
    assert all == before + [last];
    GroupsSnoc(before, last, all);
    if n == 0 {
      assert before == flat && g.rules == [last];
    } else {
      var smaller := Group(g.ruleType, g.rules[..n]);
      FillsGroup(groups, smaller, flat, before);
      assert g.rules == g.rules[..n] + [last];
      AddToLast(groups, smaller, last, g);
    }
  }

  lemma {:induction false} LastOfType(groups: seq<Group>, g: Group)
    requires IndexOf(groups, g.ruleType) == |groups|
    ensures IndexOf(groups + [g], g.ruleType) == |groups|
  {
    if groups != [] {
      LastOfType(groups[1..], g);
      assert (groups + [g])[1..] == groups[1..] + [g];
    }
  }

  lemma {:induction false} NotAmong(groups: seq<Group>, ruleType: string)
    requires forall i :: 0 <= i < |groups| ==> groups[i].ruleType != ruleType
    ensures IndexOf(groups, ruleType) == |groups|
  {
  }

  lemma {:induction false} TidyPrefix(init: seq<Group>, g: Group, groups: seq<Group>)
    requires groups == init + [g] && Tidy(groups)
    ensures Tidy(init) && IndexOf(init, g.ruleType) == |init| && g.rules != []
    ensures forall k :: 0 <= k < |g.rules| ==> g.rules[k].ruleType == g.ruleType
  {
    assert forall i :: 0 <= i < |init| ==> groups[i] == init[i];
    assert groups[|init|] == g;
    NotAmong(init, g.ruleType);
  }

  /** Tidy groups, flattened, are grouped into themselves. */
  lemma {:induction false} GroupsComeBack(groups: seq<Group>)
    requires Tidy(groups)
    ensures GroupsOf(Flatten(groups)) == groups
    decreases |groups|
  {
    if groups != [] {
      var init, g := groups[..|groups| - 1], groups[|groups| - 1];
      assert groups == init + [g];
      TidyPrefix(init, g, groups);
      GroupsComeBack(init);
      FlattenSnoc(init, g, groups);
      FillsGroup(init, g, Flatten(init), Flatten(groups));
    }
  }

  lemma {:induction false} GroupsAreTidy(rules: seq<AnyRule>)
    ensures Tidy(GroupsOf(rules))
  {
    GroupsAreGrouped(rules);
    var groups := GroupsOf(rules);
    forall i, k | 0 <= i < |groups| && 0 <= k < |groups[i].rules|
      ensures groups[i].rules[k].ruleType == groups[i].ruleType
    {
      RuleOfGroup(rules, i, k);
    }
  }

  lemma {:induction false} AddFlattens(groups: seq<Group>, r: AnyRule)
    ensures multiset(Flatten(AddToGroup(groups, r))) == multiset(Flatten(groups)) + multiset{r}
  {
    var i := IndexOf(groups, r.ruleType);
    if i == |groups| {
      FlattenSnoc(groups, Group(r.ruleType, [r]), AddToGroup(groups, r));
    } else {
      var before, g, after := groups[..i], groups[i], groups[i + 1..];
      var grown := Group(r.ruleType, g.rules + [r]);
      assert groups == before + [g] + after && AddToGroup(groups, r) == before + [grown] + after;
      FlattenMiddle(before, g, after);
      FlattenMiddle(before, grown, after);
    }
  }

  lemma {:induction false} FlattenMiddle(before: seq<Group>, g: Group, after: seq<Group>)
    ensures multiset(Flatten(before + [g] + after)) == multiset(Flatten(before)) + multiset(g.rules) + multiset(Flatten(after))
  {
    FlattenConcat(before + [g], after, before + [g] + after);
    FlattenSnoc(before, g, before + [g]);
  }

  /** Grouping loses no rule and makes none. */
  lemma {:induction false} GroupingKeepsRules(rules: seq<AnyRule>)
    ensures multiset(Flatten(GroupsOf(rules))) == multiset(rules)
    decreases |rules|
  {
    if rules != [] {
      var init, last := rules[..|rules| - 1], rules[|rules| - 1];
      GroupingKeepsRules(init);
      assert rules == init + [last];
      GroupsSnoc(init, last, rules);
      AddFlattens(GroupsOf(init), last);
      MultisetSnoc(init, last, rules);
    }
  }

  lemma {:induction false} MultisetSnoc<T>(init: seq<T>, last: T, all: seq<T>)
    requires all == init + [last]
    ensures multiset(all) == multiset(init) + multiset{last}
  {
  }

  // --- other orders of the same groups ----------------------------------------

  lemma {:induction false} FlattenWithout(before: seq<Group>, g: Group, after: seq<Group>, all: seq<Group>)
    requires all == before + ([g] + after)
    ensures multiset(Flatten(all)) == multiset(g.rules) + multiset(Flatten(before + after))
  {
    assert all == before + [g] + after;
    FlattenMiddle(before, g, after);
    FlattenConcat(before, after, before + after);
  }

  lemma {:induction false} FlattenPermuted(a: seq<Group>, c: seq<Group>)
    requires multiset(a) == multiset(c)
    ensures multiset(Flatten(a)) == multiset(Flatten(c))
    decreases |a|
  {
    if a == [] {
      assert |c| == |multiset(c)| == 0;
    } else {
      var none: seq<Group> := [];
      var k := IsGroupOf(a, c, 0);
      var g, rest, before, after := a[0], a[1..], c[..k], c[k + 1..];
      assert a == none + ([g] + rest);
      assert c == before + ([g] + after);
      assert none + rest == rest;
      FlattenWithout(none, g, rest, a);
      FlattenWithout(before, g, after, c);
      TakenFrom(g, rest, before, after);
      FlattenPermuted(rest, before + after);
    }
  }

  lemma {:induction false} Twice<T>(s: seq<T>, i: nat, j: nat)
    requires i < j < |s| && s[i] == s[j]
    ensures multiset(s)[s[i]] >= 2
  {
    assert s == s[..j] + ([s[j]] + s[j + 1..]);
    assert s[i] in s[..j];
  }

  lemma {:induction false} Once(groups: seq<Group>, g: Group)
    requires forall i, j :: 0 <= i < j < |groups| ==> groups[i].ruleType != groups[j].ruleType
    ensures multiset(groups)[g] <= 1
  {
    if groups != [] {
      Once(groups[1..], g);
      assert groups == [groups[0]] + groups[1..];
      if g == groups[0] { assert g !in groups[1..]; }
    }
  }

  lemma {:induction false} IsGroupOf(a: seq<Group>, c: seq<Group>, i: nat) returns (k: nat)
    requires multiset(a) == multiset(c) && i < |a|
    ensures k < |c| && c[k] == a[i]
  {
    assert a[i] in multiset(a) && a[i] in multiset(c);
    k :| 0 <= k < |c| && c[k] == a[i];
  }

  lemma {:induction false} TidyPermuted(a: seq<Group>, c: seq<Group>)
    requires Tidy(a) && multiset(a) == multiset(c)
    ensures Tidy(c)
  {
    forall i | 0 <= i < |c|
      ensures c[i].rules != [] && forall k :: 0 <= k < |c[i].rules| ==> c[i].rules[k].ruleType == c[i].ruleType
    {
      var at := IsGroupOf(c, a, i);
    }
    forall i, j | 0 <= i < j < |c| ensures c[i].ruleType != c[j].ruleType {
      var x := IsGroupOf(c, a, i);
      var y := IsGroupOf(c, a, j);
      if c[i] == c[j] {
        Twice(c, i, j);
        Once(a, c[i]);
      }
    }
  }

  /** Group for group, the same rules in another order. */
  ghost predicate Rearranged(groups: seq<Group>, order: seq<Group>) {
    && |order| == |groups|
    && forall i :: 0 <= i < |groups| ==>
         order[i].ruleType == groups[i].ruleType && multiset(order[i].rules) == multiset(groups[i].rules)
  }

  lemma {:induction false} RearrangedFlatten(groups: seq<Group>, order: seq<Group>)
    requires Rearranged(groups, order)
    ensures multiset(Flatten(order)) == multiset(Flatten(groups))
    decreases |groups|
  {
    if groups != [] {
      var n := |groups| - 1;
      RearrangedFlatten(groups[..n], order[..n]);
    }
  }

  lemma {:induction false} RearrangedTidy(groups: seq<Group>, order: seq<Group>)
    requires Rearranged(groups, order) && Tidy(groups)
    ensures Tidy(order)
  {
    forall i | 0 <= i < |order|
      ensures order[i].rules != [] && forall k :: 0 <= k < |order[i].rules| ==> order[i].rules[k].ruleType == order[i].ruleType
    {
      assert |order[i].rules| == |multiset(order[i].rules)| == |groups[i].rules|;
      forall k | 0 <= k < |order[i].rules| ensures order[i].rules[k].ruleType == order[i].ruleType {
        InPermutation(order[i].rules, groups[i].rules, order[i].rules[k]);
      }
    }
  }

  /** The list that has these groups, permuted and rearranged, as its own. */
  lemma {:induction false} ListOf(rules: seq<AnyRule>, permuted: seq<Group>,
                                  order: seq<Group>) returns (c: seq<AnyRule>)
    requires multiset(permuted) == multiset(GroupsOf(rules)) && Rearranged(permuted, order)
    ensures multiset(c) == multiset(rules) && GroupsOf(c) == order
  {
    c := Flatten(order);
    GroupsAreTidy(rules);
    TidyPermuted(GroupsOf(rules), permuted);
    RearrangedTidy(permuted, order);
    RearrangedFlatten(permuted, order);
    FlattenPermuted(permuted, GroupsOf(rules));
    GroupingKeepsRules(rules);
    GroupsComeBack(order);
  }

  // --- the members of a type, in any order -----------------------------------

  lemma {:induction false} MemberCount(rules: seq<AnyRule>, ruleType: string, r: AnyRule)
    ensures multiset(Members(rules, ruleType))[r] == if r.ruleType == ruleType then multiset(rules)[r] else 0
    decreases |rules|
  {
    if rules != [] {
      var init, last := rules[..|rules| - 1], rules[|rules| - 1];
      MemberCount(init, ruleType, r);
      assert rules == init + [last];
    }
  }

  lemma {:induction false} MembersPermuted(a: seq<AnyRule>, c: seq<AnyRule>, ruleType: string)
    requires multiset(a) == multiset(c)
    ensures multiset(Members(a, ruleType)) == multiset(Members(c, ruleType))
  {
    forall r ensures multiset(Members(a, ruleType))[r] == multiset(Members(c, ruleType))[r] {
      MemberCount(a, ruleType, r);
      MemberCount(c, ruleType, r);
    }
  }

  lemma {:induction false} InPermutation(a: seq<AnyRule>, c: seq<AnyRule>, r: AnyRule)
    requires multiset(a) == multiset(c)
    ensures r in a <==> r in c
  {
    assert r in a <==> r in multiset(a);
    assert r in c <==> r in multiset(c);
  }

  // --- failing time ----------------------------------------------------------

  predicate Passes(r: AnyRule) { r.reply == Answers(true) }

  /** What asking every rule that does not pass takes. */
  function FailTime(rules: seq<AnyRule>): nat {
    if rules == [] then 0 else (if Passes(rules[0]) then 0 else rules[0].takes) + FailTime(rules[1..])
  }

  lemma {:induction false} FailTimeConcat(a: seq<AnyRule>, c: seq<AnyRule>)
    ensures FailTime(a + c) == FailTime(a) + FailTime(c)
  {
    if a == [] {
      assert a + c == c;
    } else {
      assert (a + c)[1..] == a[1..] + c;
      FailTimeConcat(a[1..], c);
    }
  }

  lemma {:induction false} FailTimeMiddle(before: seq<AnyRule>, r: AnyRule, after: seq<AnyRule>)
    ensures FailTime(before + ([r] + after)) == FailTime([r]) + FailTime(before + after)
  {
    FailTimeConcat(before, [r] + after);
    FailTimeConcat([r], after);
    FailTimeConcat(before, after);
  }

  lemma {:induction false} FailTimePermuted(a: seq<AnyRule>, c: seq<AnyRule>)
    requires multiset(a) == multiset(c)
    ensures FailTime(a) == FailTime(c)
    decreases |a|
  {
    if a == [] {
      assert |c| == |multiset(c)| == 0;
    } else {
      var k := IndexIn(a[0], a, c);
      var rest, others := a[1..], c[..k] + c[k + 1..];
      assert a == [] + ([a[0]] + rest) && c == c[..k] + ([a[0]] + c[k + 1..]);
      TakenFrom(a[0], rest, c[..k], c[k + 1..]);
      FailTimePermuted(rest, others);
      FailTimeMiddle([], a[0], rest);
      FailTimeMiddle(c[..k], a[0], c[k + 1..]);
      assert [] + rest == rest;
    }
  }

  lemma {:induction false} IndexIn(r: AnyRule, a: seq<AnyRule>, c: seq<AnyRule>) returns (k: nat)
    requires multiset(a) == multiset(c) && r in a
    ensures k < |c| && c[k] == r
  {
    InPermutation(a, c, r);
    k :| 0 <= k < |c| && c[k] == r;
  }

  lemma {:induction false} TakenFrom<T>(x: T, rest: seq<T>, before: seq<T>, after: seq<T>)
    requires multiset([] + ([x] + rest)) == multiset(before + ([x] + after))
    ensures multiset(rest) == multiset(before + after)
  {
    assert multiset([] + ([x] + rest)) - multiset{x} == multiset(rest);
    assert multiset(before + ([x] + after)) - multiset{x} == multiset(before + after);
  }

  // --- the slowest pass ------------------------------------------------------

  /** The slowest of the rules that pass; past the end if none does. */
  function Slowest(rules: seq<AnyRule>): (k: nat)
    ensures k <= |rules|
    ensures k < |rules| ==> Passes(rules[k])
    ensures k < |rules| ==> forall i :: 0 <= i < |rules| && Passes(rules[i]) ==> rules[i].takes <= rules[k].takes
    ensures k == |rules| ==> forall i :: 0 <= i < |rules| ==> !Passes(rules[i])
  {
    if rules == [] then 0
    else
      var later := 1 + Slowest(rules[1..]);
      if !Passes(rules[0]) || (later < |rules| && rules[later].takes > rules[0].takes) then later else 0
  }

  function PassTime(rules: seq<AnyRule>): nat {
    if Slowest(rules) < |rules| then rules[Slowest(rules)].takes else 0
  }

  lemma {:induction false} PassTimePermuted(a: seq<AnyRule>, c: seq<AnyRule>)
    requires multiset(a) == multiset(c)
    ensures PassTime(a) == PassTime(c)
  {
    PassTimeAtMost(a, c);
    PassTimeAtMost(c, a);
  }

  lemma {:induction false} PassTimeAtMost(a: seq<AnyRule>, c: seq<AnyRule>)
    requires multiset(a) == multiset(c)
    ensures PassTime(a) <= PassTime(c)
  {
    if Slowest(a) < |a| { var k := IndexIn(a[Slowest(a)], a, c); }
  }

  /** The most that asking a group can take: all that fail, and the slowest that passes. */
  function WorstTime(rules: seq<AnyRule>): nat { FailTime(rules) + PassTime(rules) }

  lemma {:induction false} PrefixTakesAtMost(rules: seq<AnyRule>)
    ensures Time(Prefix(rules)) <= WorstTime(rules)
  {
    if rules != [] {
      PrefixTakesAtMost(rules[1..]);
      if Passes(rules[0]) {
        assert [rules[0]][1..] == [];
      } else {
        assert ([rules[0]] + Prefix(rules[1..]))[1..] == Prefix(rules[1..]);
      }
    }
  }

  // --- the least time a group can be satisfied in ------------------------------

  /** It passes, and in time by itself. */
  predicate Sound(r: AnyRule, b: Budget) { Passes(r) && !OwnTrouble(r, b) }

  predicate Better(r: AnyRule, q: AnyRule) { !r.async || (q.async && r.takes <= q.takes) }

  /** A sound rule that is synchronous if any sound one is, and the quickest if none is. */
  function Best(rules: seq<AnyRule>, b: Budget): (k: nat)
    ensures k <= |rules|
    ensures k < |rules| ==> Sound(rules[k], b)
    ensures k < |rules| ==> forall i :: 0 <= i < |rules| && Sound(rules[i], b) ==> Better(rules[k], rules[i])
    ensures k == |rules| ==> forall i :: 0 <= i < |rules| ==> !Sound(rules[i], b)
  {
    if rules == [] then 0
    else
      var later := 1 + Best(rules[1..], b);
      if !Sound(rules[0], b) || (later < |rules| && !Better(rules[0], rules[later])) then later else 0
  }

  /** What a group must take of the phase's deadline: nothing when a synchronous rule can
      satisfy it, otherwise its quickest sound rule's time. */
  function NeededTime(rules: seq<AnyRule>, b: Budget): nat {
    var k := Best(rules, b);
    if k < |rules| && rules[k].async then rules[k].takes else 0
  }

  lemma {:induction false} NeededTimePermuted(a: seq<AnyRule>, c: seq<AnyRule>, b: Budget)
    requires multiset(a) == multiset(c)
    ensures NeededTime(a, b) == NeededTime(c, b)
  {
    if Best(a, b) < |a| { var k := IndexIn(a[Best(a, b)], a, c); }
    if Best(c, b) < |c| { var k := IndexIn(c[Best(c, b)], c, a); }
  }

  // --- sums over types ---------------------------------------------------------

  ghost function Sum(types: set<string>, f: string -> nat): nat {
    if types == {} then 0
    else
      var t :| t in types;
      f(t) + Sum(types - {t}, f)
  }

  lemma {:induction false} SumPicks(types: set<string>, f: string -> nat, t: string)
    requires t in types
    ensures Sum(types, f) == f(t) + Sum(types - {t}, f)
    decreases types
  {
    var u :| u in types && Sum(types, f) == f(u) + Sum(types - {u}, f);
    if u != t {
      SumPicks(types - {u}, f, t);
      SumPicks(types - {t}, f, u);
      assert types - {u} - {t} == types - {t} - {u};
    }
  }

  lemma {:induction false} SumSame(types: set<string>, f: string -> nat, g: string -> nat)
    requires forall t :: t in types ==> f(t) == g(t)
    ensures Sum(types, f) == Sum(types, g)
    decreases types
  {
    if types != {} {
      var t :| t in types;
      SumPicks(types, f, t);
      SumPicks(types, g, t);
      SumSame(types - {t}, f, g);
    }
  }

  function TypesOf(groups: seq<Group>): set<string> { set g | g in groups :: g.ruleType }

  function TypesIn(rules: seq<AnyRule>): set<string> { set r | r in rules :: r.ruleType }

  function SumOver(groups: seq<Group>, f: string -> nat): nat {
    if groups == [] then 0 else f(groups[0].ruleType) + SumOver(groups[1..], f)
  }

  lemma {:induction false} SumOfGroups(groups: seq<Group>, f: string -> nat)
    requires forall i, j :: 0 <= i < j < |groups| ==> groups[i].ruleType != groups[j].ruleType
    ensures SumOver(groups, f) == Sum(TypesOf(groups), f)
  {
    if groups == [] {
      assert TypesOf(groups) == {};
    } else {
      var t, rest := groups[0].ruleType, groups[1..];
      SumOfGroups(rest, f);
      assert groups == [groups[0]] + rest;
      assert t in TypesOf(groups) by { assert groups[0] in groups; }
      assert TypesOf(rest) == TypesOf(groups) - {t};
      SumPicks(TypesOf(groups), f, t);
    }
  }

  lemma {:induction false} TypesAreGrouped(rules: seq<AnyRule>)
    ensures TypesOf(GroupsOf(rules)) == TypesIn(rules)
  {
    var groups := GroupsOf(rules);
    forall t ensures t in TypesOf(groups) <==> t in TypesIn(rules) {
      if t in TypesOf(groups) {
        var g :| g in groups && g.ruleType == t;
        var i :| 0 <= i < |groups| && groups[i] == g;
        GroupsAreGrouped(rules);
        RuleOfGroup(rules, i, 0);
      }
      if t in TypesIn(rules) {
        var r :| r in rules && r.ruleType == t;
        var i := GroupOfRule(rules, r);
        assert groups[i] in groups;
      }
    }
  }

  lemma {:induction false} SameTypes(a: seq<AnyRule>, c: seq<AnyRule>)
    requires multiset(a) == multiset(c)
    ensures TypesIn(a) == TypesIn(c)
  {
    forall t ensures t in TypesIn(a) <==> t in TypesIn(c) {
      if t in TypesIn(a) {
        var r :| r in a && r.ruleType == t;
        InPermutation(a, c, r);
      }
      if t in TypesIn(c) {
        var r :| r in c && r.ruleType == t;
        InPermutation(a, c, r);
      }
    }
  }

  /** Summing a quantity of the members of each type, over the types or over the groups. */
  lemma {:induction false} SumOfMembers(rules: seq<AnyRule>, f: string -> nat)
    ensures SumOver(GroupsOf(rules), f) == Sum(TypesIn(rules), f)
  {
    GroupsAreGrouped(rules);
    SumOfGroups(GroupsOf(rules), f);
    TypesAreGrouped(rules);
  }
}
