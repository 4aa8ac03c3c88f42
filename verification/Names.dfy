/** Project and directory names of the scaffolder, and where `main` puts a project. */
module Names {
  import opened Text
  import Args
  import PosixPath

  const MAX_NAME_LEN := 214

  predicate IsAlphanumeric(c: char) { 'a' <= c <= 'z' || '0' <= c <= '9' }

  predicate IsNameChar(c: char) { IsAlphanumeric(c) || c == '-' || c == '.' || c == '_' || c == '~' }

  /** `UNSCOPED_NAME_RE`. */
  predicate IsUnscoped(s: string) {
    s != "" && IsAlphanumeric(s[0]) && forall i :: 0 <= i < |s| ==> IsNameChar(s[i])
  }

  /** `SCOPED_NAME_RE`. */
  predicate IsScoped(s: string) {
    && s != "" && s[0] == '@'
    && var parts := Split(s[1..], '/');
       |parts| == 2 && IsUnscoped(parts[0]) && IsUnscoped(parts[1])
  }

  predicate IsValidProjectName(name: string) {
    0 < |name| <= MAX_NAME_LEN && name != "." && name != ".." && (IsUnscoped(name) || IsScoped(name))
  }

  predicate IsValidDirName(name: string) {
    0 < |name| <= MAX_NAME_LEN && name != "." && name != ".." && IsUnscoped(name)
  }

  /** `deriveDirName`; nothing where it throws. */
  function DeriveDirName(projectName: string, dir: Option<string>): Option<string> {
    if dir.Some? then dir
    else if projectName != "" && projectName[0] == '@' then
      var parts := Split(projectName, '/');
      if |parts| < 2 || parts[1] == "" then None else Some(parts[1])
    else Some(projectName)
  }

  lemma {:induction false} UnscopedHasNoSlash(s: string)
    requires IsUnscoped(s)
    ensures '/' !in s && '@' !in s
  {
  }

  /** The language of the scoped expression: `@scope/package`. */
  lemma {:induction false} ScopedLanguage(scope: string, pkg: string)
    ensures IsUnscoped(scope) && IsUnscoped(pkg) ==> IsScoped("@" + scope + "/" + pkg)
    ensures IsUnscoped(scope) && IsUnscoped(pkg) ==> Split("@" + scope + "/" + pkg, '/') == ["@" + scope, pkg]
  {
    if IsUnscoped(scope) && IsUnscoped(pkg) {
      UnscopedHasNoSlash(scope);
      UnscopedHasNoSlash(pkg);
      SplitOne(scope, '/');
      SplitOne("@" + scope, '/');
      SplitOne(pkg, '/');
      SplitConcat(scope, pkg, '/');
      SplitConcat("@" + scope, pkg, '/');
      assert ("@" + scope + "/" + pkg)[1..] == scope + "/" + pkg;
    }
  }

  lemma {:induction false} ScopedParts(name: string) returns (scope: string, pkg: string)
    requires IsScoped(name)
    ensures IsUnscoped(scope) && IsUnscoped(pkg) && name == "@" + scope + "/" + pkg
  {
    var parts := Split(name[1..], '/');
    SplitThenJoin(name[1..], '/');
    scope, pkg := parts[0], parts[1];
    assert name == "@" + name[1..];
  }

  /** With a valid project name, and a valid directory if one is given, the directory name
      is the one given, the package part of a scoped name, or the name: always valid, so
      the invariant is never reached. */
  lemma {:induction false} DerivedNameIsValid(projectName: string, dir: Option<string>)
    requires IsValidProjectName(projectName) && (dir.Some? ==> IsValidDirName(dir.value))
    ensures DeriveDirName(projectName, dir).Some? && IsValidDirName(DeriveDirName(projectName, dir).value)
    ensures dir.Some? ==> DeriveDirName(projectName, dir) == dir
    ensures dir.None? && IsUnscoped(projectName) ==> DeriveDirName(projectName, dir) == Some(projectName)
    ensures forall scope, pkg: string ::
              (dir.None? && IsUnscoped(scope) && IsUnscoped(pkg) && projectName == "@" + scope + "/" + pkg) ==>
                DeriveDirName(projectName, dir) == Some(pkg)
  {
    if dir.None? {
      if projectName[0] == '@' {
        var scope, pkg := ScopedParts(projectName);
        ScopedLanguage(scope, pkg);
        assert |pkg| < |projectName|;
      }
      forall scope, pkg: string | IsUnscoped(scope) && IsUnscoped(pkg) && projectName == "@" + scope + "/" + pkg
        ensures DeriveDirName(projectName, dir) == Some(pkg)
      {
        ScopedLanguage(scope, pkg);
      }
    }
  }

  /** A lower-case letter or a digit, by its code. */
  predicate Leads(c: char) { 97 <= c as int <= 122 || 48 <= c as int <= 57 }

  /** A package name without a scope: a lower-case letter or digit, and then those, hyphens,
      dots, underscores and tildes. */
  ghost predicate IsPackageName(s: string) {
    s != "" && Leads(s[0]) && forall c :: c in s ==> Leads(c) || c as int in {45, 46, 95, 126}
  }

  lemma {:induction false} NameCharacters(c: char)
    ensures IsAlphanumeric(c) <==> Leads(c)
    ensures IsNameChar(c) <==> Leads(c) || c as int in {45, 46, 95, 126}
  {
  }

  lemma {:induction false} UnscopedIsPackageName(s: string)
    ensures IsUnscoped(s) <==> IsPackageName(s)
  {
    forall c ensures IsNameChar(c) <==> Leads(c) || c as int in {45, 46, 95, 126} {
      NameCharacters(c);
    }
    if IsPackageName(s) {
      assert forall i :: 0 <= i < |s| ==> s[i] in s;
    }
  }

  /** A project name is valid exactly when it is a package name, with or without one scope, of
      at most 214 characters; a directory name when it is one without. */
  lemma {:induction false} ValidExactlyWhen(name: string)
    ensures IsValidDirName(name) <==> |name| <= 214 && IsPackageName(name)
    ensures IsValidProjectName(name) <==>
            |name| <= 214 && (IsPackageName(name) || exists scope, pkg: string ::
                                IsPackageName(scope) && IsPackageName(pkg) && name == "@" + scope + "/" + pkg)
  {
    UnscopedIsPackageName(name);
    if IsScoped(name) {
      var scope, pkg := ScopedParts(name);
      UnscopedIsPackageName(scope);
      UnscopedIsPackageName(pkg);
    }
    forall scope, pkg: string | IsPackageName(scope) && IsPackageName(pkg) && name == "@" + scope + "/" + pkg
      ensures IsScoped(name)
    {
      UnscopedIsPackageName(scope);
      UnscopedIsPackageName(pkg);
      ScopedLanguage(scope, pkg);
    }
  }

  /** Nothing stands between the first slash and the next, or the end. */
  ghost predicate NothingAfterSlash(name: string, head: string, tail: string) {
    '/' !in head && (name == head + "/" || name == head + "//" + tail)
  }

  lemma {:induction false} NothingIsAnEmptyPart(name: string, head: string, tail: string)
    requires NothingAfterSlash(name, head, tail)
    ensures |Split(name, '/')| >= 2 && Split(name, '/')[1] == ""
  {
    SplitOne(head, '/');
    if name == head + "/" {
      assert name == head + ['/'] + "";
      SplitConcat(head, "", '/');
    } else {
      assert name == head + ['/'] + (['/'] + tail);
      SplitConcat(head, ['/'] + tail, '/');
      SplitCons('/', tail, '/');
    }
  }

  lemma {:induction false} EmptyPartIsNothing(name: string) returns (head: string, tail: string)
    requires |Split(name, '/')| >= 2 && Split(name, '/')[1] == ""
    ensures NothingAfterSlash(name, head, tail)
  {
    var parts := Split(name, '/');
    SplitThenJoin(name, '/');
    head, tail := parts[0], "";
    if |parts| == 2 {
      assert Join(parts[1..], '/') == parts[1];
      assert name == head + ['/'] + parts[1];
    } else {
      tail := Join(parts[2..], '/');
      assert parts[1..][1..] == parts[2..];
      assert Join(parts[1..], '/') == parts[1] + ['/'] + tail;
      assert name == head + ['/'] + (parts[1] + ['/'] + tail);
    }
  }

  /** Unvalidated, it throws exactly for a name that begins with `@` and has no slash, or
      nothing between its first slash and the next. */
  lemma {:induction false} DeriveThrowsExactlyWhen(projectName: string, dir: Option<string>)
    ensures DeriveDirName(projectName, dir).None? <==>
            && dir.None? && projectName != "" && projectName[0] == '@'
            && ('/' !in projectName || exists head, tail: string :: NothingAfterSlash(projectName, head, tail))
  {
    var parts := Split(projectName, '/');
    if '/' !in projectName {
      SplitOne(projectName, '/');
    } else {
      SplitThenJoin(projectName, '/');
      assert |parts| >= 2;
      if parts[1] == "" {
        var head, tail := EmptyPartIsNothing(projectName);
      }
      forall head, tail: string | NothingAfterSlash(projectName, head, tail) ensures parts[1] == "" {
        NothingIsAnEmptyPart(projectName, head, tail);
      }
    }
  }

  // --- main ------------------------------------------------------------------

  datatype Outcome =
    | UsageError(error: Args.Error)
    | InvalidProjectName
    | InvalidDirName
    | InvariantThrown
    | AlreadyExists(dirName: string)
    | Scaffolds(targetDir: string, projectName: string, lockfile: bool)

  /** The arguments ask for this record, and its names are valid. */
  ghost predicate Asks(args: seq<string>, r: Args.ParsedArgs) {
    && Args.ParseItems(Args.Items(args)) == Args.Ok(r) && IsValidProjectName(r.projectName)
    && (r.dir.Some? ==> IsValidDirName(r.dir.value))
  }

  /** The directory a record asks for: the one it gives, or else the name, or what follows the
      name's scope. */
  ghost predicate LandsIn(r: Args.ParsedArgs, dirName: string) {
    if r.dir.Some? then dirName == r.dir.value
    else
      || (IsUnscoped(r.projectName) && dirName == r.projectName)
      || exists scope: string ::
           IsUnscoped(scope) && IsUnscoped(dirName) && r.projectName == "@" + scope + "/" + dirName
  }

  /** The working directory's child of that name. */
  function Child(cwd: string, dirName: string): string { PosixPath.Render(PosixPath.SegmentsOf(cwd) + [dirName]) }

  /** What every outcome of `main` says of its arguments and of what exists. */
  ghost predicate Explained(cwd: string, args: seq<string>, existing: set<string>, o: Outcome) {
    var parsed := Args.ParseItems(Args.Items(args));
    match o
    case UsageError(error) => parsed == Args.Err(error)
    case InvalidProjectName => parsed.Ok? && !IsValidProjectName(parsed.value.projectName)
    case InvalidDirName =>
      && parsed.Ok? && IsValidProjectName(parsed.value.projectName)
      && parsed.value.dir.Some? && !IsValidDirName(parsed.value.dir.value)
    case InvariantThrown => false
    case AlreadyExists(dirName) =>
      exists r :: Asks(args, r) && LandsIn(r, dirName) && Child(cwd, dirName) in existing
    case Scaffolds(targetDir, projectName, lockfile) =>
      && targetDir !in existing
      && exists r, dirName :: Asks(args, r) && LandsIn(r, dirName) && targetDir == Child(cwd, dirName)
                              && projectName == r.projectName && lockfile == r.lockfile
  }

  /** The command's `main`, up to the scaffolding; `existing` are the paths that exist. */
  method RunMain(cwd: string, args: seq<string>, existing: set<string>) returns (o: Outcome)
    requires PosixPath.IsAbsolute(cwd)
    ensures o == OutcomeOf(cwd, Args.ParseItems(Args.Items(args)), existing)
    ensures Explained(cwd, args, existing, o)
  {
    EveryOutcomeIsExplained(cwd, args, existing);
    var parsed := Args.ParseArgs(args);
    if parsed.Err? { return UsageError(parsed.error); }
    var r := parsed.value;
    if !IsValidProjectName(r.projectName) { return InvalidProjectName; }
    if r.dir.Some? && !IsValidDirName(r.dir.value) { return InvalidDirName; }
    var dirName := DeriveDirName(r.projectName, r.dir);
    if dirName.None? { return InvariantThrown; }
    var targetDir := PosixPath.Resolve(cwd, dirName.value);
    if targetDir in existing { return AlreadyExists(dirName.value); }
    return Scaffolds(targetDir, r.projectName, r.lockfile);
  }

  function OutcomeOf(cwd: string, parsed: Args.Result<Args.ParsedArgs>, existing: set<string>): Outcome
    requires PosixPath.IsAbsolute(cwd)
  {
    match parsed
    case Err(e) => UsageError(e)
    case Ok(r) =>
      if !IsValidProjectName(r.projectName) then InvalidProjectName
      else if r.dir.Some? && !IsValidDirName(r.dir.value) then InvalidDirName
      else
        match DeriveDirName(r.projectName, r.dir)
        case None => InvariantThrown
        case Some(dirName) =>
          var targetDir := PosixPath.Resolve(cwd, dirName);
          if targetDir in existing then AlreadyExists(dirName)
          else Scaffolds(targetDir, r.projectName, r.lockfile)
  }

  lemma {:induction false} ResolvesToAChild(cwd: string, dirName: string)
    requires PosixPath.IsAbsolute(cwd) && IsValidDirName(dirName)
    ensures PosixPath.IsSegment(dirName)
    ensures PosixPath.Resolve(cwd, dirName) == Child(cwd, dirName)
  {
    UnscopedHasNoSlash(dirName);
    SplitOne(dirName, '/');
    PosixPath.ResolveWalks(cwd, dirName);
    PosixPath.WalkClean(PosixPath.SegmentsOf(cwd), [dirName]);
  }

  lemma {:induction false} LandsInTheDerived(r: Args.ParsedArgs, dirName: string)
    requires IsValidProjectName(r.projectName) && (r.dir.Some? ==> IsValidDirName(r.dir.value))
    ensures DeriveDirName(r.projectName, r.dir) == Some(dirName) <==> LandsIn(r, dirName)
  {
    DerivedNameIsValid(r.projectName, r.dir);
    if r.dir.None? && IsScoped(r.projectName) {
      var scope, pkg := ScopedParts(r.projectName);
    }
  }

  /** Arguments that are accepted, with a valid name and a valid directory if any, scaffold the
      project into the working directory's direct child of the name they ask for, unless that
      exists already; the name they ask for is one, and a plain segment. */
  lemma {:induction false} ScaffoldsOnlyADirectChild(cwd: string, args: seq<string>, existing: set<string>,
                                                     r: Args.ParsedArgs)
    returns (dirName: string)
    requires PosixPath.IsAbsolute(cwd) && Asks(args, r)
    ensures PosixPath.IsSegment(dirName) && (forall d :: LandsIn(r, d) <==> d == dirName)
    ensures OutcomeOf(cwd, Args.ParseItems(Args.Items(args)), existing) ==
            if Child(cwd, dirName) in existing then AlreadyExists(dirName)
            else Scaffolds(Child(cwd, dirName), r.projectName, r.lockfile)
  {
    DerivedNameIsValid(r.projectName, r.dir);
    dirName := DeriveDirName(r.projectName, r.dir).value;
    ResolvesToAChild(cwd, dirName);
    forall d ensures LandsIn(r, d) <==> d == dirName {
      LandsInTheDerived(r, d);
    }
  }

  /** Every other outcome has its reason, and the invariant never throws. */
  lemma {:induction false} EveryOutcomeIsExplained(cwd: string, args: seq<string>, existing: set<string>)
    requires PosixPath.IsAbsolute(cwd)
    ensures Explained(cwd, args, existing, OutcomeOf(cwd, Args.ParseItems(Args.Items(args)), existing))
  {
    var parsed := Args.ParseItems(Args.Items(args));
    if parsed.Ok? && Asks(args, parsed.value) {
      var dirName := ScaffoldsOnlyADirectChild(cwd, args, existing, parsed.value);
      assert LandsIn(parsed.value, dirName);
    }
  }
}
