/** The `HasPermission` rule: grants held directly or through roles, each compared exactly
    except for a single `*`. */
module HasPermission {
  import opened Text
  import opened JsonValues

  function Stars(s: string): nat {
    if s == "" then 0 else (if s[0] == '*' then 1 else 0) + Stars(s[1..])
  }

  predicate StartsWith(s: string, prefix: string) { |prefix| <= |s| && s[..|prefix|] == prefix }

  predicate EndsWith(s: string, suffix: string) { |suffix| <= |s| && s[|s| - |suffix|..] == suffix }

  lemma {:induction false} StarsSplit(s: string)
    ensures |Split(s, '*')| == Stars(s) + 1
  {
    if s != "" { StarsSplit(s[1..]); }
  }

  /** `match`, branch for branch. */
  predicate Matches(permission: string, required: string) {
    if permission == "*" then true
    else if permission == required then true
    else if '*' in permission then
      if Stars(permission) > 1 then false
      else
        var parts := Split(permission, '*');
        var prefix, suffix := parts[0], if |parts| > 1 then parts[1] else "";
        if |required| < |prefix| + |suffix| then false
        else (prefix == "" || StartsWith(required, prefix)) && (suffix == "" || EndsWith(required, suffix))
    else false
  }

  // --- what a grant means ----------------------------------------------------

  ghost predicate Between(required: string, prefix: string, mid: string, suffix: string) {
    required == prefix + mid + suffix
  }

  ghost predicate Filled(required: string, prefix: string, suffix: string) {
    exists mid: string :: Between(required, prefix, mid, suffix)
  }

  /** The two halves of a grant with exactly one star. */
  ghost predicate OneStar(permission: string, prefix: string, suffix: string) {
    permission == prefix + "*" + suffix && '*' !in prefix && '*' !in suffix
  }

  lemma {:induction false} FilledIffHalvesFit(required: string, prefix: string, suffix: string)
    ensures Filled(required, prefix, suffix) <==>
            |required| >= |prefix| + |suffix| && StartsWith(required, prefix) && EndsWith(required, suffix)
  {
    if |required| >= |prefix| + |suffix| && StartsWith(required, prefix) && EndsWith(required, suffix) {
      var mid := required[|prefix|..|required| - |suffix|];
      assert required == required[..|prefix|] + required[|prefix|..|required| - |suffix|] + required[|required| - |suffix|..];
      assert Between(required, prefix, mid, suffix);
    }
    if mid: string :| Between(required, prefix, mid, suffix) {
      assert required[..|prefix|] == prefix;
      assert required[|required| - |suffix|..] == suffix;
    }
  }

  lemma {:induction false} StarIsCounted(s: string)
    ensures Stars(s) == 0 <==> '*' !in s
  {
    if s != "" {
      StarIsCounted(s[1..]);
      assert s == [s[0]] + s[1..];
    }
  }

  lemma {:induction false} OneStarSplits(permission: string, prefix: string, suffix: string)
    requires OneStar(permission, prefix, suffix)
    ensures Split(permission, '*') == [prefix, suffix] && Stars(permission) == 1 && '*' in permission
  {
    SplitConcat(prefix, suffix, '*');
    SplitOne(prefix, '*');
    SplitOne(suffix, '*');
    StarsSplit(permission);
    assert permission[|prefix|] == '*';
  }

  lemma {:induction false} SplitsAtOneStar(permission: string) returns (prefix: string, suffix: string)
    requires Stars(permission) == 1
    ensures OneStar(permission, prefix, suffix)
  {
    StarsSplit(permission);
    SplitThenJoin(permission, '*');
    prefix, suffix := Split(permission, '*')[0], Split(permission, '*')[1];
  }

  /** A grant with one star matches exactly what is its prefix, then anything or nothing,
      then its suffix: the halves never share a character. */
  lemma {:induction false} OneStarMatchesItsLanguage(permission: string, prefix: string, suffix: string,
                                                     required: string)
    requires OneStar(permission, prefix, suffix)
    ensures Matches(permission, required) <==> Filled(required, prefix, suffix)
  {
    OneStarSplits(permission, prefix, suffix);
    FilledIffHalvesFit(required, prefix, suffix);
    if permission == "*" { assert |prefix| == 0 && |suffix| == 0; }
    if permission == required { assert Between(required, prefix, "*", suffix); }
  }

  /** A grant with no star, or more than one, matches its own text and nothing else. */
  lemma {:induction false} OtherGrantsMatchThemselves(permission: string, required: string)
    requires Stars(permission) != 1
    ensures Matches(permission, required) <==> permission == required
  {
    StarIsCounted(permission);
  }

  /** Every grant is of one kind or the other, and has one pair of halves at most. */
  lemma {:induction false} EveryGrantIsDecided(permission: string)
    ensures Stars(permission) == 1 <==> exists prefix, suffix: string :: OneStar(permission, prefix, suffix)
    ensures forall p1, s1, p2, s2: string ::
              OneStar(permission, p1, s1) && OneStar(permission, p2, s2) ==> p1 == p2 && s1 == s2
  {
    if Stars(permission) == 1 { var prefix, suffix := SplitsAtOneStar(permission); }
    forall p, s: string | OneStar(permission, p, s)
      ensures Stars(permission) == 1 && Split(permission, '*') == [p, s]
    {
      OneStarSplits(permission, p, s);
    }
    forall p1, s1, p2, s2: string | OneStar(permission, p1, s1) && OneStar(permission, p2, s2)
      ensures p1 == p2 && s1 == s2
    {
      assert [p1, s1] == [p2, s2];
      assert [p1, s1][0] == [p2, s2][0] && [p1, s1][1] == [p2, s2][1];
    }
  }

  /** Halves that overlap in the required permission do not match it, as `posts.*.read`
      does not match `posts.read`, where the one dot would serve both. */
  lemma {:induction false} OverlappingHalvesDoNotMatch(a: string, shared: string, c: string)
    requires shared != "" && '*' !in a + shared + c
    ensures StartsWith(a + shared + c, a + shared) && EndsWith(a + shared + c, shared + c)
    ensures !Matches((a + shared) + "*" + (shared + c), a + shared + c)
  {
    var required := a + shared + c;
    assert required == a + (shared + c);
    assert OneStar((a + shared) + "*" + (shared + c), a + shared, shared + c);
    OneStarMatchesItsLanguage((a + shared) + "*" + (shared + c), a + shared, shared + c, required);
    FilledIffHalvesFit(required, a + shared, shared + c);
  }

  /** Two stars are no pattern, though the same text is granted. */
  lemma {:induction false} TwoStarsMatchOnlyTheirText(a: string, b: string, c: string, required: string)
    ensures Matches(a + "*" + b + "*" + c, required) <==> required == a + "*" + b + "*" + c
  {
    var grant := a + "*" + b + "*" + c;
    SplitConcat(a + "*" + b, c, '*');
    SplitConcat(a, b, '*');
    StarsSplit(grant);
    OtherGrantsMatchThemselves(grant, required);
  }

  // --- the rule --------------------------------------------------------------

  function FromRoles(roles: seq<Json>): seq<Json> {
    if roles == [] then [] else ListField(roles[0], "permissions") + FromRoles(roles[1..])
  }

  /** Everything the subject might hold: direct entries, then those of its roles. */
  function Candidates(direct: Option<Json>, roles: Option<Json>): seq<Json> {
    (if direct.Some? then ItemsOf(direct.value) else []) + FromRoles(if roles.Some? then ItemsOf(roles.value) else [])
  }

  predicate Verify(direct: Option<Json>, roles: Option<Json>, required: string) {
    var all := Candidates(direct, roles);
    exists i :: 0 <= i < |all| && all[i].Str? && Matches(all[i].text, required)
  }

  /** A list with that string in it. */
  ghost predicate Lists(value: Json, grant: string) { value.List? && Str(grant) in value.items }

  /** An object whose permissions are such a list. */
  ghost predicate RoleLists(role: Json, grant: string) {
    role.Object? && "permissions" in role.fields && Lists(role.fields["permissions"], grant)
  }

  /** The subject holds a grant: listed directly, or listed by a listed role. */
  ghost predicate Holds(direct: Option<Json>, roles: Option<Json>, grant: string) {
    || (direct.Some? && Lists(direct.value, grant))
    || (roles.Some? && roles.value.List? && exists role :: role in roles.value.items && RoleLists(role, grant))
  }

  lemma {:induction false} HeldThroughRoles(roles: seq<Json>, grant: Json)
    ensures grant in FromRoles(roles) <==> exists role :: role in roles && grant in ListField(role, "permissions")
  {
    if roles != [] {
      HeldThroughRoles(roles[1..], grant);
      assert roles == [roles[0]] + roles[1..];
    }
  }

  /** Whatever the attributes hold, the rule passes exactly when a string listed directly
      or by a role matches; a value of any other shape, at any level, grants nothing. */
  lemma {:induction false} PassesExactlyWhenAHeldGrantMatches(direct: Option<Json>, roles: Option<Json>,
                                                              required: string)
    ensures Verify(direct, roles, required) <==>
            exists grant: string :: Holds(direct, roles, grant) && Matches(grant, required)
  {
    var all := Candidates(direct, roles);
    var listed := if roles.Some? then ItemsOf(roles.value) else [];
    if Verify(direct, roles, required) {
      var i :| 0 <= i < |all| && all[i].Str? && Matches(all[i].text, required);
      HeldThroughRoles(listed, all[i]);
      assert all[i] in all;
      assert Holds(direct, roles, all[i].text);
    }
    if grant: string :| Holds(direct, roles, grant) && Matches(grant, required) {
      HeldThroughRoles(listed, Str(grant));
      assert Str(grant) in all;
      var i :| 0 <= i < |all| && all[i] == Str(grant);
      assert all[i].Str? && Matches(all[i].text, required);
    }
  }
}
