/** `resolveConfigPaths`: the environment's overlay stays in the config directory. */
module ConfigPath {
  import opened Text
  import opened PosixPath

  datatype Resolved = Paths(applicationConfPath: string, envConfPath: string) | InvalidEnvironmentName

  function ResolveConfigPaths(cwd: string, configDirPath: string, env: string): Resolved
    requires IsAbsolute(cwd)
  {
    var normalizedConfigDir := Resolve(cwd, configDirPath);
    var applicationConfPath := Resolve("/", normalizedConfigDir + "/" + "application.conf");
    var envConfPath := Resolve(normalizedConfigDir, env + ".conf");
    if Dirname(envConfPath) != normalizedConfigDir then InvalidEnvironmentName
    else Paths(applicationConfPath, envConfPath)
  }

  function ConfigDir(cwd: string, configDirPath: string): seq<string>
    requires IsAbsolute(cwd)
  {
    SegmentsOf(Resolve(cwd, configDirPath))
  }

  /** Where the segments of `env` before its last lead. */
  function EnvDir(dir: seq<string>, env: string): seq<string> {
    var parts := Split(env, '/');
    Walk(if IsAbsolute(env) then [] else dir, parts[..|parts| - 1])
  }

  function OverlayName(env: string): string {
    var parts := Split(env, '/');
    parts[|parts| - 1] + ".conf"
  }

  function ExtendLast(parts: seq<string>, tail: string): seq<string>
    requires parts != []
  {
    parts[..|parts| - 1] + [parts[|parts| - 1] + tail]
  }

  lemma {:induction false} ExtendCons(first: string, rest: seq<string>, tail: string)
    requires rest != []
    ensures ExtendLast([first] + rest, tail) == [first] + ExtendLast(rest, tail)
  {
    var all := [first] + rest;
    assert all[..|all| - 1] == [first] + rest[..|rest| - 1];
  }

  lemma {:induction false} PrefixFirst(c: char, rest: seq<string>, tail: string)
    requires rest != []
    ensures ExtendLast([[c] + rest[0]] + rest[1..], tail) ==
            [[c] + ExtendLast(rest, tail)[0]] + ExtendLast(rest, tail)[1..]
  {
    if |rest| == 1 {
      assert [c] + rest[0] + tail == [c] + (rest[0] + tail);
    } else {
      ExtendCons([c] + rest[0], rest[1..], tail);
      ExtendCons(rest[0], rest[1..], tail);
      assert rest == [rest[0]] + rest[1..];
    }
  }

  /** Text without the separator goes to the last part. */
  lemma {:induction false} SplitAppend(s: string, tail: string, sep: char)
    requires sep !in tail
    ensures Split(s + tail, sep) == ExtendLast(Split(s, sep), tail)
  {
    if s == "" {
      assert s + tail == tail;
      SplitOne(tail, sep);
    } else {
      var rest := Split(s[1..], sep);
      SplitAppend(s[1..], tail, sep);
      assert s + tail == [s[0]] + (s[1..] + tail);
      SplitCons(s[0], s[1..] + tail, sep);
      if s[0] == sep { ExtendCons("", rest, tail); } else { PrefixFirst(s[0], rest, tail); }
    }
  }

  /** The overlay's file name is one segment, never `.` or `..`. */
  lemma {:induction false} OverlayNameIsASegment(env: string)
    ensures IsSegment(OverlayName(env))
  {
    SplitThenJoin(env, '/');
  }

  lemma {:induction false} EnvResolves(dirPath: string, dir: seq<string>, env: string)
    requires Clean(dir) && dirPath == Render(dir)
    ensures Clean(EnvDir(dir, env))
    ensures Resolve(dirPath, env + ".conf") == Render(EnvDir(dir, env) + [OverlayName(env)])
  {
    var parts := Split(env, '/');
    var before := parts[..|parts| - 1];
    RenderedComesBack(dir);
    ResolveWalks(dirPath, env + ".conf");
    SplitAppend(env, ".conf", '/');
    assert IsAbsolute(env + ".conf") == IsAbsolute(env);
    WalkConcat(if IsAbsolute(env) then [] else dir, before, [OverlayName(env)]);
    OverlayNameIsASegment(env);
    SplitThenJoin(env, '/');
    WalkStaysClean(if IsAbsolute(env) then [] else dir, before);
    WalkClean(EnvDir(dir, env), [OverlayName(env)]);
  }

  lemma {:induction false} JoinsChild(root: string, dirPath: string, dir: seq<string>, name: string, path: string)
    requires IsAbsolute(root) && Clean(dir) && dirPath == Render(dir) && IsSegment(name)
    requires path == dirPath + "/" + name
    ensures Resolve(root, path) == Render(dir + [name])
  {
    RenderedComesBack(dir);
    SplitConcat(dirPath, name, '/');
    SplitOne(name, '/');
    WalkConcat([], Split(dirPath, '/'), [name]);
    WalkClean(dir, [name]);
  }

  /** Every environment name is refused, or gives the config directory's own path, one
      more segment, and nothing else; it is accepted exactly when the segments before its
      last lead back to the config directory. */
  lemma {:induction false} AcceptsExactlyWhatStaysInside(cwd: string, configDirPath: string, env: string)
    requires IsAbsolute(cwd)
    ensures var dir := ConfigDir(cwd, configDirPath);
            && Clean(dir) && Resolve(cwd, configDirPath) == Render(dir)
            && IsSegment(OverlayName(env)) && EndsWithConf(OverlayName(env))
            && ResolveConfigPaths(cwd, configDirPath, env) ==
               if EnvDir(dir, env) == dir
               then Paths(Render(dir + ["application.conf"]), Render(dir + [OverlayName(env)]))
               else InvalidEnvironmentName
  {
    var dirPath := Resolve(cwd, configDirPath);
    var full := if IsAbsolute(configDirPath) then configDirPath else cwd + "/" + configDirPath;
    var dir := SegmentsOf(full);
    SegmentsAreClean(full);
    RenderedComesBack(dir);
    EnvResolves(dirPath, dir, env);
    JoinsChild("/", dirPath, dir, "application.conf", dirPath + "/" + "application.conf");
    OverlayNameIsASegment(env);
    DirnameDropsLast(EnvDir(dir, env), OverlayName(env));
    RenderIsInjective(EnvDir(dir, env), dir);
  }

  predicate EndsWithConf(name: string) { |name| >= 5 && name[|name| - 5..] == ".conf" }

  /** A name without a slash is always accepted, dots and all. */
  lemma {:induction false} PlainNamesAreAccepted(cwd: string, configDirPath: string, env: string)
    requires IsAbsolute(cwd) && '/' !in env
    ensures ResolveConfigPaths(cwd, configDirPath, env).Paths?
    ensures ResolveConfigPaths(cwd, configDirPath, env).envConfPath ==
            Render(ConfigDir(cwd, configDirPath) + [env + ".conf"])
  {
    AcceptsExactlyWhatStaysInside(cwd, configDirPath, env);
    SplitOne(env, '/');
  }

  /** A name that steps up and then names a file is refused, except from the root, whose
      parent it is. */
  lemma {:induction false} SteppingUpIsRefused(cwd: string, configDirPath: string, up: string, name: string)
    requires IsAbsolute(cwd) && up == ".." && '/' !in name
    ensures ResolveConfigPaths(cwd, configDirPath, up + "/" + name).Paths? <==> ConfigDir(cwd, configDirPath) == []
  {
    var dir := ConfigDir(cwd, configDirPath);
    var env := up + "/" + name;
    AcceptsExactlyWhatStaysInside(cwd, configDirPath, env);
    SplitConcat(up, name, '/');
    SplitOne(up, '/');
    SplitOne(name, '/');
    var parts := Split(env, '/');
    assert parts[..|parts| - 1] == [up];
    assert Walk(dir, [up]) == Enter(dir, up);
  }
}
