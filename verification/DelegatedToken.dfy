/** The pair of collectors a delegated token is decided by, the rule one of them emits, and
    what an evaluated request then comes to. */
module DelegatedToken {
  import opened Text
  import opened DelegationRange
  import opened JsonValues
  import E = Evaluate
  import EvaluateLaws
  import EvaluateFailures

  // --- reading the claim -----------------------------------------------------

  predicate OfType(entry: Json, kind: string) {
    entry.Object? && "type" in entry.fields && entry.fields["type"] == Str(kind)
  }

  function Select(entries: seq<Json>, kind: string): seq<Json> {
    if entries == [] then []
    else (if OfType(entries[0], kind) then [entries[0]] else []) + Select(entries[1..], kind)
  }

  predicate IsEntryList(claim: Json) {
    claim.List? && forall i :: 0 <= i < |claim.items| ==> claim.items[i].Object?
  }

  /** The claim's entries of a type; nothing when the token has no range. */
  function EntriesOfType(claim: Option<Json>, kind: string): Option<seq<Json>> {
    if claim.None? then None
    else if !IsEntryList(claim.value) then Some([])
    else
      var entries := Select(claim.value.items, kind);
      if entries != [] then Some(entries) else None
  }

  function PathField(entry: Json): Option<string> {
    if entry.Object? && "path" in entry.fields && entry.fields["path"].Str? then Some(entry.fields["path"].text) else None
  }

  function RangePaths(entries: seq<Json>): seq<string> {
    if entries == [] then []
    else
      var path := PathField(entries[0]);
      (if path.Some? && ParsePath(path.value).Some? then [path.value] else []) + RangePaths(entries[1..])
  }

  lemma {:induction false} Selected(entries: seq<Json>, kind: string, e: Json)
    ensures e in Select(entries, kind) <==> e in entries && OfType(e, kind)
  {
    if entries != [] {
      Selected(entries[1..], kind, e);
      assert entries == [entries[0]] + entries[1..];
    }
  }

  lemma {:induction false} PathsRead(entries: seq<Json>, path: string)
    ensures path in RangePaths(entries) <==>
            ParsePath(path).Some? && exists e :: e in entries && PathField(e) == Some(path)
  {
    if entries != [] {
      PathsRead(entries[1..], path);
      assert entries == [entries[0]] + entries[1..];
    }
  }

  lemma {:induction false} Reassociated<T>(a: seq<T>, b: seq<T>, c: seq<T>)
    ensures (a + b) + c == a + (b + c)
  {
  }

  lemma {:induction false} SelectConcat(a: seq<Json>, b: seq<Json>, all: seq<Json>, kind: string)
    requires all == a + b
    ensures Select(all, kind) == Select(a, kind) + Select(b, kind)
    decreases |a|
  {
    if a == [] {
      assert all == b;
    } else {
      var rest := all[1..];
      assert all[0] == a[0] && rest == a[1..] + b;
      SelectConcat(a[1..], b, rest, kind);
      Reassociated(if OfType(a[0], kind) then [a[0]] else [], Select(a[1..], kind), Select(b, kind));
    }
  }

  /** What an entry's path adds to the range. */
  function OnePath(entry: Json): seq<string> {
    var path := PathField(entry);
    if path.Some? && ParsePath(path.value).Some? then [path.value] else []
  }

  lemma {:induction false} PathsConcat(a: seq<Json>, b: seq<Json>, all: seq<Json>)
    requires all == a + b
    ensures RangePaths(all) == RangePaths(a) + RangePaths(b)
    decreases |a|
  {
    if a == [] {
      assert all == b;
    } else {
      var rest := all[1..];
      assert all[0] == a[0] && rest == a[1..] + b;
      PathsConcat(a[1..], b, rest);
      Reassociated(OnePath(a[0]), RangePaths(a[1..]), RangePaths(b));
    }
  }

  /** Entries and their paths are taken in the claim's order. */
  lemma {:induction false} TakenInOrder(a: seq<Json>, b: seq<Json>, kind: string)
    ensures Select(a + b, kind) == Select(a, kind) + Select(b, kind)
    ensures RangePaths(a + b) == RangePaths(a) + RangePaths(b)
  {
    SelectConcat(a, b, a + b, kind);
    PathsConcat(a, b, a + b);
  }

  // --- the collectors and the rule -------------------------------------------

  function Strings(paths: seq<string>): (items: seq<Json>)
    ensures |items| == |paths| && forall i :: 0 <= i < |paths| ==> items[i] == Str(paths[i])
  {
    seq(|paths|, i requires 0 <= i < |paths| => Str(paths[i]))
  }

  /** `DelegationRangeCollector`: what it leaves under the range's attribute key. */
  function CollectRange(claim: Option<Json>, kind: string): Option<Json> {
    match EntriesOfType(claim, kind)
    case None => None
    case Some(entries) => Some(List(Strings(RangePaths(entries))))
  }

  /** `DelegationRangeRuleCollector`: the path of the rule it emits, if it emits one. */
  function CollectRule(claim: Option<Json>, kind: string, resource: string, action: string): Option<Option<string>> {
    match EntriesOfType(claim, kind)
    case None => None
    case Some(_) => Some(RequestedRangePath(resource, action))
  }

  /** `WithinDelegationRange.verify`, over whatever is under the attribute key. */
  ghost predicate Verify(path: Option<string>, range: Option<Json>) {
    && path.Some? && range.Some? && range.value.List?
    && exists i :: 0 <= i < |range.value.items| && range.value.items[i].Str? && Contains(range.value.items[i].text, path.value)
  }

  method VerifyRange(path: Option<string>, range: Option<Json>) returns (r: bool)
    ensures r <==> Verify(path, range)
  {
    if path.None? || range.None? || !range.value.List? { return false; }
    var items := range.value.items;
    for i := 0 to |items|
      invariant forall k :: 0 <= k < i && items[k].Str? ==> !Contains(items[k].text, path.value)
    {
      if items[i].Str? {
        var contains := RangeContains(items[i].text, path.value);
        if contains { return true; }
      }
    }
    return false;
  }

  /** A list of nothing but objects. */
  ghost predicate ObjectsOnly(claim: Json) { claim.List? && forall e :: e in claim.items ==> e.Object? }

  /** The claim lists an object of that type. */
  ghost predicate ListsType(claim: Json, kind: string) {
    && claim.List?
    && exists e :: e in claim.items && e.Object? && "type" in e.fields && e.fields["type"] == Str(kind)
  }

  /** The claim lists nothing but objects, and one of that type whose path contains this one. */
  ghost predicate SomeEntryContains(claim: Json, kind: string, path: string) {
    && ObjectsOnly(claim)
    && exists e, p: string ::
         && e in claim.items && "type" in e.fields && e.fields["type"] == Str(kind)
         && "path" in e.fields && e.fields["path"] == Str(p) && Contains(p, path)
  }

  lemma {:induction false} EntryListsAreObjects(claim: Json)
    ensures IsEntryList(claim) <==> ObjectsOnly(claim)
  {
    if ObjectsOnly(claim) {
      assert forall i :: 0 <= i < |claim.items| ==> claim.items[i] in claim.items;
    }
  }

  /** A token has a range unless the claim is absent, or a list of entry objects none of
      which is of the type: a claim in any other shape is a range. */
  lemma {:induction false} HasRangeExactlyWhen(claim: Option<Json>, kind: string)
    ensures EntriesOfType(claim, kind).Some? <==>
            && claim.Some?
            && (ObjectsOnly(claim.value) ==> ListsType(claim.value, kind))
  {
    if claim.Some? { EntryListsAreObjects(claim.value); }
    if claim.Some? && IsEntryList(claim.value) {
      var entries := Select(claim.value.items, kind);
      if entries != [] {
        Selected(claim.value.items, kind, entries[0]);
      } else {
        forall e | e in claim.value.items ensures !OfType(e, kind) { Selected(claim.value.items, kind, e); }
      }
    }
  }

  lemma {:induction false} ContainedByAPath(paths: seq<string>, path: string)
    ensures Verify(Some(path), Some(List(Strings(paths)))) <==> exists p :: p in paths && Contains(p, path)
  {
    var items := Strings(paths);
    if Verify(Some(path), Some(List(items))) {
      var i :| 0 <= i < |items| && items[i].Str? && Contains(items[i].text, path);
      assert paths[i] in paths;
    }
    if exists p :: p in paths && Contains(p, path) {
      var p :| p in paths && Contains(p, path);
      var i :| 0 <= i < |paths| && paths[i] == p;
      assert items[i] == Str(p);
    }
  }

  lemma {:induction false} EntryContains(claim: Json, kind: string, path: string)
    requires IsEntryList(claim)
    ensures (exists p :: p in RangePaths(Select(claim.items, kind)) && Contains(p, path)) <==>
            SomeEntryContains(claim, kind, path)
  {
    var entries := Select(claim.items, kind);
    if p :| p in RangePaths(entries) && Contains(p, path) {
      PathsRead(entries, p);
      var e :| e in entries && PathField(e) == Some(p);
      Selected(claim.items, kind, e);
      assert e.fields["path"] == Str(p);
    }
    EntryListsAreObjects(claim);
    if SomeEntryContains(claim, kind, path) {
      var e, p: string :|
        && e in claim.items && "type" in e.fields && e.fields["type"] == Str(kind)
        && "path" in e.fields && e.fields["path"] == Str(p) && Contains(p, path);
      Selected(claim.items, kind, e);
      PathsRead(entries, p);
    }
  }

  /** With both collectors configured alike, the rule a delegated token gets passes exactly
      when the claim is a list of entry objects, the action is one action of the grammar,
      and some entry of the type contains the request. */
  lemma {:induction false} RangeIsEnforcedExactly(claim: Option<Json>, kind: string, resource: string, action: string)
    requires CollectRule(claim, kind, resource, action).Some?
    ensures Verify(CollectRule(claim, kind, resource, action).value, CollectRange(claim, kind)) <==>
            IsName(action) && SomeEntryContains(claim.value, kind, resource + "." + action)
  {
    var path := resource + "." + action;
    EntryListsAreObjects(claim.value);
    if IsEntryList(claim.value) {
      ContainedByAPath(RangePaths(Select(claim.value.items, kind)), path);
      EntryContains(claim.value, kind, path);
    }
  }

  /** Configured for two types, the pair denies where only the rule collector finds
      entries, and where only the other does, no rule is emitted. */
  lemma {:induction false} ConfiguredApart(claim: Option<Json>, ruleKind: string, rangeKind: string,
                                           resource: string, action: string)
    ensures EntriesOfType(claim, rangeKind).None? ==>
              forall path :: !Verify(path, CollectRange(claim, rangeKind))
    ensures EntriesOfType(claim, ruleKind).None? <==> CollectRule(claim, ruleKind, resource, action).None?
  {
  }

  // --- the decision ----------------------------------------------------------

  const DELEGATION_RANGE := "delegation_range"

  /** The rule as the evaluator sees it: synchronous, and however long it takes. */
  function RangeRule(message: string, passes: bool, takes: nat): E.AnyRule {
    E.AnyRule(DELEGATION_RANGE, "outside_delegation_range", message, true, false, E.Answers(passes), takes)
  }

  /** Where the range does not contain the request, and no other rule was collected, the deny
      is the range's own. */
  lemma {:induction false} OutsideTheRangeIsSaid(message: string, takes: nat, o: E.Options)
    requires o.allowEmpty && E.Usable(o.ruleTimeoutMs) && E.Usable(o.evaluateDeadlineMs)
    ensures var r := E.Meaning([RangeRule(message, false, takes)], o);
            && r.Decided? && r.decision.Deny?
            && r.decision.code == "outside_delegation_range" && r.decision.message == message
  {
    var rule := RangeRule(message, false, takes);
    OneRuleFails(rule, o);
  }

  lemma {:induction false} OneRuleFails(rule: E.AnyRule, o: E.Options)
    requires o.allowEmpty && E.Usable(o.ruleTimeoutMs) && E.Usable(o.evaluateDeadlineMs)
    requires !rule.async && rule.reply == E.Answers(false)
    ensures var r := E.Meaning([rule], o);
            r.Decided? && r.decision.Deny? && r.decision.code == rule.code && r.decision.message == rule.message
  {
    EvaluateFailures.OneGroup(rule);
    EvaluateFailures.OneTrouble(rule, E.BudgetOf(o));
    EvaluateFailures.OneIsNotMixed(rule);
  }

  lemma {:induction false} WithoutTheRule(before: seq<E.AnyRule>, rule: E.AnyRule, after: seq<E.AnyRule>,
                                          kind: string)
    requires rule.ruleType == kind
    requires forall r :: r in before || r in after ==> r.ruleType != kind
    ensures EvaluateLaws.Without(before + [rule] + after, kind) == before + after
    decreases |after|
  {
    var all := before + [rule] + after;
    if after == [] {
      assert all[..|all| - 1] == before && before + [] == before;
      NothingToDrop(before, kind);
    } else {
      var init, last := after[..|after| - 1], after[|after| - 1];
      assert all[..|all| - 1] == before + [rule] + init;
      WithoutTheRule(before, rule, init, kind);
      assert before + init + [last] == before + after;
    }
  }

  lemma {:induction false} NothingToDrop(rules: seq<E.AnyRule>, kind: string)
    requires forall r :: r in rules ==> r.ruleType != kind
    ensures EvaluateLaws.Without(rules, kind) == rules
    decreases |rules|
  {
    if rules != [] {
      var init, last := rules[..|rules| - 1], rules[|rules| - 1];
      assert rules == init + [last];
      NothingToDrop(init, kind);
      LastIsKept(init, last, rules, kind);
    }
  }

  lemma {:induction false} LastIsKept(init: seq<E.AnyRule>, last: E.AnyRule, rules: seq<E.AnyRule>, kind: string)
    requires rules == init + [last] && last.ruleType != kind
    ensures EvaluateLaws.Without(rules, kind) == EvaluateLaws.Without(init, kind) + [last]
  {
    assert rules[..|rules| - 1] == init;
  }

  /** A delegated token is allowed exactly what the policies and its range both allow: the
      rule, wherever among the policies' rules it is collected, allows nothing they do not and
      takes away exactly what no entry contains — and, if it takes time, what that carries past
      the phase's deadline. */
  lemma {:induction false} DelegatedRequestIsAllowedByBoth(before: seq<E.AnyRule>, after: seq<E.AnyRule>,
                                                           message: string, takes: nat,
                                        o: E.Options, claim: Option<Json>, kind: string, resource: string, action: string)
    requires forall r :: r in before || r in after ==> r.ruleType != DELEGATION_RANGE
    requires CollectRule(claim, kind, resource, action).Some?
    ensures var passes := Verify(CollectRule(claim, kind, resource, action).value, CollectRange(claim, kind));
            var rules := before + [RangeRule(message, passes, takes)] + after;
            var both := && E.Allows(before + after, o)
                        && IsName(action) && SomeEntryContains(claim.value, kind, resource + "." + action);
            && (E.Allows(rules, o) <==> both && EvaluateLaws.AskedInTime(rules, o))
            && (takes == 0 ==> (E.Allows(rules, o) <==> both))
  {
    var passes := Verify(CollectRule(claim, kind, resource, action).value, CollectRange(claim, kind));
    RangeIsEnforcedExactly(claim, kind, resource, action);
    OneRestriction(before, RangeRule(message, passes, takes), after, o);
  }

  lemma {:induction false} OneRestriction(before: seq<E.AnyRule>, rule: E.AnyRule, after: seq<E.AnyRule>, o: E.Options)
    requires forall r :: r in before || r in after ==> r.ruleType != DELEGATION_RANGE
    requires rule.ruleType == DELEGATION_RANGE && rule.restricts && !rule.async && rule.reply.Answers?
    ensures var rules, both := before + [rule] + after, E.Allows(before + after, o) && rule.reply == E.Answers(true);
            && (E.Allows(rules, o) <==> both && EvaluateLaws.AskedInTime(rules, o))
            && (rule.takes == 0 ==> (E.Allows(rules, o) <==> both))
  {
    var all := before + [rule] + after;
    WithoutTheRule(before, rule, after, DELEGATION_RANGE);
    assert all[|before|] == rule;
    assert forall r :: r in all && r.ruleType == DELEGATION_RANGE ==> r == rule;
    EvaluateLaws.RestrictionIsAConjunct(all, DELEGATION_RANGE, o);
    if rule.takes == 0 { EvaluateLaws.InstantRestrictionIsAConjunct(all, DELEGATION_RANGE, o); }
  }
}
