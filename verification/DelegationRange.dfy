/** A delegated token's range: the paths of its `authorization_details` entries (section 2
    of RFC 9396) of one type, and the rule by which an entry contains a requested path. */
module DelegationRange {
  import opened Text
  import opened Segments
  import ResourceParser

  // --- the grammar -----------------------------------------------------------

  predicate IsNameChar(c: char) { 'a' <= c <= 'z' || '0' <= c <= '9' || c == '_' }

  /** `[a-z][a-z0-9_]*`. */
  predicate IsName(s: string) {
    s != "" && 'a' <= s[0] <= 'z' && forall i :: 0 <= i < |s| ==> IsNameChar(s[i])
  }

  predicate IsHex(c: char) { '0' <= c <= '9' || 'A' <= c <= 'F' }

  predicate IsUnreserved(c: char) {
    'A' <= c <= 'Z' || 'a' <= c <= 'z' || '0' <= c <= '9' || c == '_' || c == '~' || c == '-'
  }

  predicate IsIdRest(s: string) {
    if s == "" then true
    else if s[0] == '%' then |s| >= 3 && IsHex(s[1]) && IsHex(s[2]) && IsIdRest(s[3..])
    else IsUnreserved(s[0]) && IsIdRest(s[1..])
  }

  /** Unreserved characters, or any other percent-encoded in upper-case hex. */
  predicate IsId(s: string) { s != "" && IsIdRest(s) }

  /** One part of a path; the last takes no id. */
  function ParsePart(part: string, last: bool): Option<Segment> {
    var pieces := Split(part, ':');
    if |pieces| > 2 || !IsName(pieces[0]) then None
    else if |pieces| == 1 then Some(Segment(pieces[0], None))
    else if last || !IsId(pieces[1]) then None
    else Some(Segment(pieces[0], Some(pieces[1])))
  }

  function ParseParts(parts: seq<string>): Option<seq<Segment>> {
    if parts == [] then Some([])
    else
      match (ParsePart(parts[0], |parts| == 1), ParseParts(parts[1..]))
      case (Some(g), Some(gs)) => Some([g] + gs)
      case _ => None
  }

  function ParsePath(path: string): Option<seq<Segment>> {
    if path == "" then None else ParseParts(Split(path, '.'))
  }

  /** `parseRangePath`: the elements, pushed one part at a time. */
  method ParseRangePath(path: string) returns (r: Option<seq<Segment>>)
    ensures r == ParsePath(path)
  {
    if path == "" { return None; }
    var parts := Split(path, '.');
    var elements: seq<Segment> := [];
    PrependNothing(ParseParts(parts));
    assert parts[0..] == parts;
    for index := 0 to |parts|
      invariant ParseParts(parts) == Prepend(elements, ParseParts(parts[index..]))
    {
      assert parts[index..][1..] == parts[index + 1..];
      var pieces := Split(parts[index], ':');
      if |pieces| > 2 { return None; }
      if !IsName(pieces[0]) { return None; }
      ghost var before, rest := elements, ParseParts(parts[index + 1..]);
      if |pieces| == 1 {
        elements := elements + [Segment(pieces[0], None)];
      } else {
        if index == |parts| - 1 || !IsId(pieces[1]) { return None; }
        elements := elements + [Segment(pieces[0], Some(pieces[1]))];
      }
      PrependSnoc(before, elements[|before|], rest);
    }
    assert elements + [] == elements;
    return Some(elements);
  }

  function Prepend(gs: seq<Segment>, rest: Option<seq<Segment>>): Option<seq<Segment>> {
    if rest.None? then None else Some(gs + rest.value)
  }

  lemma {:induction false} PrependNothing(rest: Option<seq<Segment>>)
    ensures Prepend([], rest) == rest
  {
    if rest.Some? { assert [] + rest.value == rest.value; }
  }

  lemma {:induction false} PrependSnoc(gs: seq<Segment>, g: Segment, rest: Option<seq<Segment>>)
    ensures Prepend(gs, Prepend([g], rest)) == Prepend(gs + [g], rest)
  {
    if rest.Some? { assert gs + ([g] + rest.value) == gs + [g] + rest.value; }
  }

  predicate IsElement(g: Segment) { IsName(g.kind) && (g.id.Some? ==> IsId(g.id.value)) }

  predicate AllElements(gs: seq<Segment>) { forall i :: 0 <= i < |gs| ==> IsElement(gs[i]) }

  /** `(type(:id)?.)*action`. */
  predicate IsPath(gs: seq<Segment>) { gs != [] && AllElements(gs) && gs[|gs| - 1].id.None? }

  lemma {:induction false} IdCharacters(s: string, i: nat)
    requires IsIdRest(s) && i < |s|
    ensures IsUnreserved(s[i]) || s[i] == '%'
  {
    if s[0] == '%' {
      if i >= 3 { IdCharacters(s[3..], i - 3); } else { assert i == 0 || IsHex(s[i]); }
    } else if i > 0 {
      IdCharacters(s[1..], i - 1);
    }
  }

  lemma {:induction false} ElementsArePlain(g: Segment)
    requires IsElement(g)
    ensures Plain(g)
  {
    if g.id.Some? {
      forall i | 0 <= i < |g.id.value| ensures g.id.value[i] != '.' && g.id.value[i] != ':' {
        IdCharacters(g.id.value, i);
      }
    }
  }

  lemma {:induction false} ParsesPart(part: string, last: bool, g: Segment)
    ensures ParsePart(part, last) == Some(g) <==> IsElement(g) && (last ==> g.id.None?) && part == Print(g)
  {
    if ParsePart(part, last) == Some(g) { PiecesPrint(g, part); }
    if IsElement(g) && part == Print(g) {
      ElementsArePlain(g);
      PrintPieces(g);
    }
  }

  /** The parts are these elements, printed, the last without an id. */
  ghost predicate PrintsOf(parts: seq<string>, gs: seq<Segment>) {
    && |gs| == |parts| && AllElements(gs)
    && (gs != [] ==> gs[|gs| - 1].id.None?)
    && forall i :: 0 <= i < |gs| ==> parts[i] == Print(gs[i])
  }

  lemma {:induction false} PrintsOfCons(part: string, parts: seq<string>, g: Segment, gs: seq<Segment>)
    ensures PrintsOf([part] + parts, [g] + gs) <==>
            IsElement(g) && (parts == [] ==> g.id.None?) && part == Print(g) && PrintsOf(parts, gs)
  {
    var allParts, all := [part] + parts, [g] + gs;
    if PrintsOf(allParts, all) {
      assert all[0] == g && allParts[0] == part;
      forall i | 0 <= i < |gs| ensures IsElement(gs[i]) && parts[i] == Print(gs[i]) {
        assert all[i + 1] == gs[i] && allParts[i + 1] == parts[i];
      }
    }
  }

  lemma {:induction false} ParsesParts(parts: seq<string>, gs: seq<Segment>)
    ensures ParseParts(parts) == Some(gs) <==> PrintsOf(parts, gs)
  {
    if parts != [] && gs != [] {
      ParsesPart(parts[0], |parts| == 1, gs[0]);
      ParsesParts(parts[1..], gs[1..]);
      assert gs == [gs[0]] + gs[1..] && parts == [parts[0]] + parts[1..];
      PrintsOfCons(parts[0], parts[1..], gs[0], gs[1..]);
    }
  }

  lemma {:induction false} AllArePlain(gs: seq<Segment>)
    requires AllElements(gs)
    ensures AllPlain(gs)
  {
    forall i | 0 <= i < |gs| ensures Plain(gs[i]) { ElementsArePlain(gs[i]); }
  }

  lemma {:induction false} PathsAreNotEmpty(gs: seq<Segment>)
    requires IsPath(gs)
    ensures PathOf(gs) != ""
  {
    assert IsElement(gs[0]);
    assert PrintAll(gs)[0] == Print(gs[0]) != "";
  }

  lemma {:induction false} ParsedIsThePath(path: string, gs: seq<Segment>)
    requires ParsePath(path) == Some(gs)
    ensures IsPath(gs) && path == PathOf(gs)
  {
    var parts := Split(path, '.');
    ParsesParts(parts, gs);
    assert parts == PrintAll(gs);
    PathOfSplit(path, gs);
  }

  lemma {:induction false} ThePathIsParsed(path: string, gs: seq<Segment>)
    requires IsPath(gs) && path == PathOf(gs)
    ensures ParsePath(path) == Some(gs)
  {
    AllArePlain(gs);
    SplitPath(gs);
    PathsAreNotEmpty(gs);
    ParsesParts(Split(path, '.'), gs);
  }

  /** A string parses to these elements exactly when they are a path and it is their
      printing. */
  lemma {:induction false} ParsesExactlyTheGrammar(path: string, gs: seq<Segment>)
    ensures ParsePath(path) == Some(gs) <==> IsPath(gs) && path == PathOf(gs)
  {
    if ParsePath(path) == Some(gs) { ParsedIsThePath(path, gs); }
    if IsPath(gs) && path == PathOf(gs) { ThePathIsParsed(path, gs); }
  }

  // --- the grammar, by character code -----------------------------------------

  predicate IsLower(c: char) { 97 <= c as int <= 122 }

  predicate IsUpper(c: char) { 65 <= c as int <= 90 }

  predicate IsDigit(c: char) { 48 <= c as int <= 57 }

  /** What an id is made of: one letter, digit, hyphen, underscore or tilde, or a percent sign
      and two digits of upper-case hex. */
  predicate IsIdUnit(unit: string) {
    if |unit| == 1 then IsLower(unit[0]) || IsUpper(unit[0]) || IsDigit(unit[0]) || unit[0] as int in {45, 95, 126}
    else |unit| == 3 && unit[0] as int == 37 && IsHexDigit(unit[1]) && IsHexDigit(unit[2])
  }

  predicate IsHexDigit(c: char) { IsDigit(c) || 65 <= c as int <= 70 }

  ghost predicate AllIdUnits(units: seq<string>) { forall i :: 0 <= i < |units| ==> IsIdUnit(units[i]) }

  function RunTogether(units: seq<string>): string {
    if units == [] then "" else units[0] + RunTogether(units[1..])
  }

  lemma {:induction false} IdHasUnits(s: string) returns (units: seq<string>)
    requires IsIdRest(s)
    ensures AllIdUnits(units) && RunTogether(units) == s
    decreases |s|
  {
    if s == "" {
      units := [];
    } else {
      var n := if s[0] == '%' then 3 else 1;
      var rest := IdHasUnits(s[n..]);
      units := [s[..n]] + rest;
      assert s == s[..n] + s[n..] && units[1..] == rest;
    }
  }

  lemma {:induction false} UnitsMakeAnId(units: seq<string>)
    requires AllIdUnits(units)
    ensures IsIdRest(RunTogether(units))
  {
    if units != [] {
      var s, n := RunTogether(units), |units[0]|;
      UnitsMakeAnId(units[1..]);
      assert s[n..] == RunTogether(units[1..]) && s[..n] == units[0];
    }
  }

  /** A name is a lower-case letter, then those, digits and underscores; an id is one or more
      units run together. */
  lemma {:induction false} NamesAndIds(s: string)
    ensures IsName(s) <==>
            s != "" && IsLower(s[0]) && forall i :: 0 <= i < |s| ==> IsLower(s[i]) || IsDigit(s[i]) || s[i] as int == 95
    ensures IsId(s) <==> exists units: seq<string> :: units != [] && AllIdUnits(units) && s == RunTogether(units)
  {
    if IsId(s) {
      var units := IdHasUnits(s);
    }
    forall units: seq<string> | units != [] && AllIdUnits(units) && s == RunTogether(units) ensures IsId(s) {
      UnitsMakeAnId(units);
      assert IsIdUnit(units[0]);
    }
  }

  // --- containment -----------------------------------------------------------

  ghost predicate Within(entry: seq<Segment>, path: seq<Segment>) {
    && |entry| <= |path|
    && forall i :: 0 <= i < |entry| ==>
         entry[i].kind == path[i].kind && (entry[i].id.None? || entry[i].id == path[i].id)
  }

  ghost predicate Contains(entry: string, path: string) {
    && ParsePath(entry).Some? && ParsePath(path).Some?
    && Within(ParsePath(entry).value, ParsePath(path).value)
  }

  method RangeContains(entry: string, path: string) returns (r: bool)
    ensures r <==> Contains(entry, path)
  {
    var within := ParseRangePath(entry);
    var requested := ParseRangePath(path);
    if within.None? || requested.None? || |within.value| > |requested.value| { return false; }
    for i := 0 to |within.value|
      invariant Within(within.value[..i], requested.value)
    {
      var element, other := within.value[i], requested.value[i];
      if !(element.kind == other.kind && (element.id.None? || element.id == other.id)) { return false; }
      assert within.value[..i + 1] == within.value[..i] + [element];
    }
    assert within.value[..|within.value|] == within.value;
    return true;
  }

  lemma {:induction false} SameParse(a: string, b: string)
    requires ParsePath(a).Some? && ParsePath(a) == ParsePath(b)
    ensures a == b
  {
    ParsesExactlyTheGrammar(a, ParsePath(a).value);
    ParsesExactlyTheGrammar(b, ParsePath(a).value);
  }

  lemma {:induction false} ContainsItself(a: string)
    ensures Contains(a, a) <==> ParsePath(a).Some?
  {
  }

  lemma {:induction false} ContainsAntisymmetric(a: string, b: string)
    requires Contains(a, b) && Contains(b, a)
    ensures a == b
  {
    var x, y := ParsePath(a).value, ParsePath(b).value;
    forall i | 0 <= i < |x| ensures x[i] == y[i] {
      assert x[i].kind == y[i].kind;
      assert x[i].id.None? || x[i].id == y[i].id;
      assert y[i].id.None? || y[i].id == x[i].id;
    }
    assert x == y;
    SameParse(a, b);
  }

  lemma {:induction false} ContainsTransitive(a: string, b: string, c: string)
    requires Contains(a, b) && Contains(b, c)
    ensures Contains(a, c)
  {
    var x, y, z := ParsePath(a).value, ParsePath(b).value, ParsePath(c).value;
    forall i | 0 <= i < |x| ensures x[i].kind == z[i].kind && (x[i].id.None? || x[i].id == z[i].id) {
      assert x[i].kind == y[i].kind && y[i].kind == z[i].kind;
    }
  }

  /** One entry contains another exactly when it contains all the other contains. */
  lemma {:induction false} ContainsIsInclusion(a: string, b: string)
    requires ParsePath(b).Some?
    ensures Contains(a, b) <==> forall p: string :: Contains(b, p) ==> Contains(a, p)
  {
    if Contains(a, b) {
      forall p: string | Contains(b, p) ensures Contains(a, p) { ContainsTransitive(a, b, p); }
    } else {
      ContainsItself(b);
    }
  }

  /** A part of an entry's text covers a part of a path: it is that part, or it is the part's
      type without its id. */
  ghost predicate Covers(part: string, other: string) {
    part == other || exists id: string :: ':' !in part && other == part + ":" + id
  }

  lemma {:induction false} TypeWithoutItsId(g: Segment, h: Segment, id: string)
    requires IsElement(g) && IsElement(h) && ':' !in Print(g) && Print(h) == Print(g) + ":" + id
    ensures g.id.None? && g.kind == h.kind
  {
    ElementsArePlain(h);
    PrintPieces(h);
    SplitConcat(Print(g), id, ':');
    SplitOne(Print(g), ':');
    assert Split(Print(h), ':')[0] == Print(g);
    IdNeedsItsColon(g);
  }

  lemma {:induction false} IdNeedsItsColon(g: Segment)
    ensures g.id.Some? ==> ':' in Print(g)
  {
    if g.id.Some? { assert Print(g)[|g.kind|] == ':'; }
  }

  lemma {:induction false} CoversIsWithin(g: Segment, h: Segment)
    requires IsElement(g) && IsElement(h)
    ensures Covers(Print(g), Print(h)) <==> g.kind == h.kind && (g.id.None? || g.id == h.id)
  {
    ElementsArePlain(g);
    ElementsArePlain(h);
    PrintPieces(g);
    PrintPieces(h);
    if g.kind == h.kind && g.id.None? && h.id.Some? {
      assert Print(h) == Print(g) + ":" + h.id.value;
    }
    forall id: string | ':' !in Print(g) && Print(h) == Print(g) + ":" + id ensures g.id.None? && g.kind == h.kind {
      TypeWithoutItsId(g, h, id);
    }
  }

  /** A part covers the part in the same place. */
  ghost predicate CoversAt(parts: seq<string>, others: seq<string>, i: nat) {
    i < |parts| && i < |others| && Covers(parts[i], others[i])
  }

  lemma {:induction false} CoversAtIsWithin(parts: seq<string>, others: seq<string>, gs: seq<Segment>,
                                            hs: seq<Segment>, i: nat)
    requires PrintsOf(parts, gs) && PrintsOf(others, hs) && i < |gs| && i < |hs|
    ensures CoversAt(parts, others, i) <==> gs[i].kind == hs[i].kind && (gs[i].id.None? || gs[i].id == hs[i].id)
  {
    CoversIsWithin(gs[i], hs[i]);
  }

  lemma {:induction false} CoveringIsWithin(parts: seq<string>, others: seq<string>, gs: seq<Segment>, hs: seq<Segment>)
    requires PrintsOf(parts, gs) && PrintsOf(others, hs)
    ensures Within(gs, hs) <==> forall i: nat :: i < |parts| ==> CoversAt(parts, others, i)
  {
    forall i: nat | i < |gs| && i < |hs|
      ensures CoversAt(parts, others, i) <==> gs[i].kind == hs[i].kind && (gs[i].id.None? || gs[i].id == hs[i].id)
    {
      CoversAtIsWithin(parts, others, gs, hs, i);
    }
    if |gs| > |hs| { assert !CoversAt(parts, others, |hs|); }
  }

  lemma {:induction false} ParsedPrints(path: string, parts: seq<string>, gs: seq<Segment>)
    requires ParsePath(path) == Some(gs) && parts == Split(path, '.')
    ensures PrintsOf(parts, gs)
  {
    ParsesParts(parts, gs);
  }

  /** On the text: an entry contains a path exactly when both are in the grammar and each of its
      parts between dots covers the path's part in that place. */
  lemma {:induction false} ContainsOnTheText(entry: string, path: string, parts: seq<string>, others: seq<string>)
    requires parts == Split(entry, '.') && others == Split(path, '.')
    ensures Contains(entry, path) <==>
            && ParsePath(entry).Some? && ParsePath(path).Some?
            && forall i: nat :: i < |parts| ==> CoversAt(parts, others, i)
  {
    if ParsePath(entry).Some? && ParsePath(path).Some? {
      var gs, hs := ParsePath(entry).value, ParsePath(path).value;
      ParsedPrints(entry, parts, gs);
      ParsedPrints(path, others, hs);
      CoveringIsWithin(parts, others, gs, hs);
    }
  }

  // --- the requested path ----------------------------------------------------

  function RequestedRangePath(resource: string, action: string): Option<string> {
    if IsName(action) then Some(resource + "." + action) else None
  }

  lemma {:induction false} NameIsElement(action: string)
    requires IsName(action)
    ensures IsElement(Segment(action, None)) && PathOf([Segment(action, None)]) == action
  {
  }

  /** With an action of one element, the requested path's elements are those the resource
      prints, then exactly the action; with any other action there is no requested path. */
  lemma {:induction false} RequestedPathIsResourceThenAction(resource: string, action: string, gs: seq<Segment>)
    ensures RequestedRangePath(resource, action).Some? <==> IsName(action)
    ensures IsName(action) ==>
              (ParsePath(resource + "." + action) == Some(gs) <==>
               && |gs| > 1 && gs[|gs| - 1] == Segment(action, None)
               && AllElements(gs[..|gs| - 1]) && PathOf(gs[..|gs| - 1]) == resource)
  {
    if IsName(action) {
      var path := resource + "." + action;
      ParsesExactlyTheGrammar(path, gs);
      NameIsElement(action);
      if ParsePath(path) == Some(gs) { ActionComesLast(resource, action, path, gs); }
      if |gs| > 1 && gs[|gs| - 1] == Segment(action, None) && AllElements(gs[..|gs| - 1]) && PathOf(gs[..|gs| - 1]) == resource {
        assert gs == gs[..|gs| - 1] + [Segment(action, None)];
        PathOfConcat(gs[..|gs| - 1], [Segment(action, None)]);
        forall i | 0 <= i < |gs| ensures IsElement(gs[i]) {
          if i < |gs| - 1 { assert gs[i] == gs[..|gs| - 1][i]; }
        }
      }
    }
  }

  lemma {:induction false} LastPart(gs: seq<Segment>, parts: seq<string>, action: string)
    requires PrintAll(gs) == parts + [action]
    ensures |gs| == |parts| + 1 && Print(gs[|parts|]) == action && PrintAll(gs[..|parts|]) == parts
  {
    assert |gs| == |PrintAll(gs)|;
    assert PrintAll(gs)[|parts|] == action;
    assert PrintAll(gs[..|parts|]) == PrintAll(gs)[..|parts|];
  }

  lemma {:induction false} SplitOff(resource: string, action: string, path: string)
    requires path == resource + "." + action && IsName(action)
    ensures Split(path, '.') == Split(resource, '.') + [action]
  {
    SplitConcat(resource, action, '.');
    SplitOne(action, '.');
  }

  lemma {:induction false} ActionComesLast(resource: string, action: string, path: string, gs: seq<Segment>)
    requires path == resource + "." + action && IsName(action)
    requires IsPath(gs) && PathOf(gs) == path
    ensures |gs| > 1 && gs[|gs| - 1] == Segment(action, None) && PathOf(gs[..|gs| - 1]) == resource
  {
    AllArePlain(gs);
    SplitPath(gs);
    SplitOff(resource, action, path);
    LastPart(gs, Split(resource, '.'), action);
    PathOfSplit(resource, gs[..|gs| - 1]);
  }

  /** No two requests are one path. */
  lemma {:induction false} RequestsAreTold(r1: string, a1: string, r2: string, a2: string)
    requires RequestedRangePath(r1, a1).Some?
    requires RequestedRangePath(r1, a1) == RequestedRangePath(r2, a2)
    ensures r1 == r2 && a1 == a2
  {
    var path := RequestedRangePath(r1, a1).value;
    SplitOff(r1, a1, path);
    SplitOff(r2, a2, path);
    SameSplit(r1, a1, r2, a2);
  }

  lemma {:induction false} SameSplit(r1: string, a1: string, r2: string, a2: string)
    requires Split(r1, '.') + [a1] == Split(r2, '.') + [a2]
    ensures r1 == r2 && a1 == a2
  {
    var all := Split(r1, '.') + [a1];
    assert all[..|all| - 1] == Split(r1, '.') && all[..|all| - 1] == Split(r2, '.');
    assert all[|all| - 1] == a1 && all[|all| - 1] == a2;
    SplitThenJoin(r1, '.');
    SplitThenJoin(r2, '.');
  }

  /** What the check on the action is for: joined unchecked, an action of several elements
      on a parent is an action on its child. */
  lemma {:induction false} UncheckedActionsAreConfused(parent: string, child: string, action: string)
    ensures parent + "." + (child + "." + action) == (parent + "." + child) + "." + action
    ensures !IsName(child + "." + action)
  {
    assert (child + "." + action)[|child|] == '.';
  }

  /** Every resource and action a range can allow is a resource of the dot notation too,
      with the very elements the range was compared with. */
  lemma {:induction false} RangeGrammarIsDotNotation(resource: string, action: string, gs: seq<Segment>)
    requires IsName(action) && ParsePath(resource + "." + action) == Some(gs)
    ensures ResourceParser.ParseSegments(resource) == ResourceParser.Ok(gs[..|gs| - 1])
  {
    RequestedPathIsResourceThenAction(resource, action, gs);
    var rs := gs[..|gs| - 1];
    forall i | 0 <= i < |rs| ensures ResourceParser.IsSegment(rs[i]) {
      if rs[i].id.Some? {
        var id := rs[i].id.value;
        forall k | 0 <= k < |id| ensures ResourceParser.IsTokenChar(id[k]) { IdCharacters(id, k); }
      }
    }
    ResourceParser.AcceptsExactlyTheGrammar(resource, rs);
  }
}
