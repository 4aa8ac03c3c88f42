/** The parts of Node's POSIX `path` the repository's guards rest on: `resolve`, `join`,
    `dirname` and `relative`, over absolute paths. */
module PosixPath {
  import opened Text

  predicate IsAbsolute(p: string) { p != "" && p[0] == '/' }

  /** One step of the normalization: nothing, a pop, or a push. */
  function Enter(at: seq<string>, part: string): seq<string> {
    if part == "" || part == "." then at
    else if part == ".." then (if at == [] then [] else at[..|at| - 1])
    else at + [part]
  }

  /** Where the parts lead, from `at`; above the root is the root. */
  function Walk(at: seq<string>, parts: seq<string>): seq<string>
    decreases |parts|
  {
    if parts == [] then at else Walk(Enter(at, parts[0]), parts[1..])
  }

  function Render(segments: seq<string>): string { "/" + Join(segments, '/') }

  /** The segments of an absolute path, normalized. */
  function SegmentsOf(p: string): seq<string> { Walk([], Split(p, '/')) }

  /** `resolve(base, p)` for an absolute base. */
  function Resolve(base: string, p: string): string
    requires IsAbsolute(base)
  {
    Render(SegmentsOf(if IsAbsolute(p) then p else base + "/" + p))
  }

  /** Where `dirname` cuts: the last slash that is neither leading nor trailing. */
  function DirEnd(p: string, i: nat, trailing: bool): (end: nat)
    requires i < |p|
    ensures end <= i
  {
    if i == 0 then 0
    else if p[i] == '/' then (if trailing then DirEnd(p, i - 1, true) else i)
    else DirEnd(p, i - 1, false)
  }

  /** `dirname` of an absolute path. */
  function Dirname(p: string): string
    requires IsAbsolute(p)
  {
    var end := DirEnd(p, |p| - 1, true);
    if end == 0 then "/" else if end == 1 then "//" else p[..end]
  }

  /** `relative(from, to)` over normalized segments: up out of what is not shared, then down. */
  function Relative(from: seq<string>, to: seq<string>): seq<string> {
    if from != [] && to != [] && from[0] == to[0] then Relative(from[1..], to[1..])
    else seq(|from|, i => "..") + to
  }

  // --- normalized segments ---------------------------------------------------

  predicate IsSegment(s: string) { s != "" && s != "." && s != ".." && '/' !in s }

  predicate Clean(segments: seq<string>) { forall i :: 0 <= i < |segments| ==> IsSegment(segments[i]) }

  lemma {:induction false} WalkStaysClean(at: seq<string>, parts: seq<string>)
    requires Clean(at) && AllFree(parts, '/')
    ensures Clean(Walk(at, parts))
    decreases |parts|
  {
    if parts != [] { WalkStaysClean(Enter(at, parts[0]), parts[1..]); }
  }

  lemma {:induction false} WalkClean(at: seq<string>, parts: seq<string>)
    requires Clean(parts)
    ensures Walk(at, parts) == at + parts
    decreases |parts|
  {
    if parts == [] {
      assert at + [] == at;
    } else {
      WalkClean(at + [parts[0]], parts[1..]);
      assert at + [parts[0]] + parts[1..] == at + parts;
    }
  }

  lemma {:induction false} WalkConcat(at: seq<string>, a: seq<string>, b: seq<string>)
    ensures Walk(at, a + b) == Walk(Walk(at, a), b)
    decreases |a|
  {
    if a == [] {
      assert a + b == b;
    } else {
      WalkConcat(Enter(at, a[0]), a[1..], b);
      assert (a + b)[1..] == a[1..] + b;
    }
  }

  lemma {:induction false} SegmentsAreClean(p: string)
    ensures Clean(SegmentsOf(p))
  {
    SplitThenJoin(p, '/');
    WalkStaysClean([], Split(p, '/'));
  }

  lemma {:induction false} SplitRendered(segments: seq<string>)
    requires Clean(segments)
    ensures Split(Render(segments), '/') == [""] + (if segments == [] then [""] else segments)
  {
    SplitCons('/', Join(segments, '/'), '/');
    if segments != [] { JoinThenSplit(segments, '/'); }
  }

  /** Normalizing a normalized path changes nothing. */
  lemma {:induction false} RenderedComesBack(segments: seq<string>)
    requires Clean(segments)
    ensures SegmentsOf(Render(segments)) == segments
  {
    SplitRendered(segments);
    if segments == [] {
      assert Walk([], ["", ""]) == Walk([], [""]) == [];
    } else {
      assert ([""] + segments)[1..] == segments;
      WalkClean([], segments);
    }
  }

  lemma {:induction false} RenderIsInjective(a: seq<string>, b: seq<string>)
    requires Clean(a) && Clean(b)
    ensures Render(a) == Render(b) <==> a == b
  {
    RenderedComesBack(a);
    RenderedComesBack(b);
  }

  /** `resolve` is idempotent: its result resolves to itself, from anywhere. */
  lemma {:induction false} ResolveIsIdempotent(base: string, p: string, other: string)
    requires IsAbsolute(base) && IsAbsolute(other)
    ensures IsAbsolute(Resolve(base, p)) && Resolve(other, Resolve(base, p)) == Resolve(base, p)
  {
    var full := if IsAbsolute(p) then p else base + "/" + p;
    SegmentsAreClean(full);
    RenderedComesBack(SegmentsOf(full));
  }

  /** Resolving walks on from the base's segments, or from the root. */
  lemma {:induction false} ResolveWalks(base: string, p: string)
    requires IsAbsolute(base)
    ensures Resolve(base, p) == Render(Walk(if IsAbsolute(p) then [] else SegmentsOf(base), Split(p, '/')))
  {
    if !IsAbsolute(p) {
      SplitConcat(base, p, '/');
      WalkConcat([], Split(base, '/'), Split(p, '/'));
    }
  }

  lemma {:induction false} WalkTwo(at: seq<string>, a: string, b: string)
    ensures Walk(at, [a, b]) == Enter(Enter(at, a), b)
  {
    var first := Enter(at, a);
    assert [a, b][1..] == [b] && [b][1..] == [];
    assert Walk(first, [b]) == Walk(Enter(first, b), []);
  }

  /** Down a segment and up again is where one was; an empty part and a `.` lead nowhere; above
      the root is the root. */
  lemma {:induction false} StepsCancel(at: seq<string>, segment: string, rest: seq<string>)
    requires IsSegment(segment)
    ensures Walk(at, [segment, ".."] + rest) == Walk(at, rest)
    ensures Walk(at, ["", "."] + rest) == Walk(at, rest)
    ensures Walk([], [".."] + rest) == Walk([], rest)
  {
    WalkConcat(at, [segment, ".."], rest);
    WalkConcat(at, ["", "."], rest);
    WalkTwo(at, segment, "..");
    WalkTwo(at, "", ".");
    assert (at + [segment])[..|at|] == at;
    assert ([".."] + rest)[1..] == rest && ([".."] + rest)[0] == "..";
  }

  lemma {:induction false} SplitFirst(a: string, rest: string)
    requires '/' !in a
    ensures Split(a + "/" + rest, '/') == [a] + Split(rest, '/')
  {
    SplitConcat(a, rest, '/');
    SplitOne(a, '/');
  }

  lemma {:induction false} Regrouped(a: string, b: string, p: string)
    ensures a + "/" + b + "/" + p == a + "/" + (b + "/" + p)
  {
  }

  /** So a relative path that goes into a directory and out of it resolves as the rest of it. */
  lemma {:induction false} InAndOutAgain(base: string, segment: string, up: string, p: string)
    requires IsAbsolute(base) && IsSegment(segment) && up == ".." && !IsAbsolute(p)
    ensures Resolve(base, segment + "/" + up + "/" + p) == Resolve(base, p)
  {
    Regrouped(segment, up, p);
    SplitFirst(segment, up + "/" + p);
    SplitFirst(up, p);
    assert [segment] + ([up] + Split(p, '/')) == [segment, ".."] + Split(p, '/');
    ResolveWalks(base, segment + "/" + up + "/" + p);
    ResolveWalks(base, p);
    StepsCancel(SegmentsOf(base), segment, Split(p, '/'));
  }

  // --- dirname ---------------------------------------------------------------

  lemma {:induction false} DirEndIn(p: string, head: string, last: string, i: nat)
    requires p == head + "/" + last && head != "" && last != "" && '/' !in last
    requires |head| <= i < |p|
    ensures DirEnd(p, i, i == |p| - 1) == |head|
    decreases i
  {
    if i > |head| {
      assert p[i] == last[i - |head| - 1];
      DirEndIn(p, head, last, i - 1);
    } else {
      assert p[i] == '/';
    }
  }

  lemma {:induction false} DirEndOfChild(p: string, last: string, i: nat)
    requires p == "/" + last && last != "" && '/' !in last && i < |p|
    ensures DirEnd(p, i, i == |p| - 1) == 0
    decreases i
  {
    if i > 0 {
      assert p[i] == last[i - 1];
      DirEndOfChild(p, last, i - 1);
    }
  }

  lemma {:induction false} RenderSnoc(segments: seq<string>, last: string)
    requires segments != []
    ensures Render(segments + [last]) == Render(segments) + "/" + last
  {
    JoinConcat(segments, [last], '/');
  }

  lemma {:induction false} RenderedIsLong(segments: seq<string>)
    requires Clean(segments) && segments != []
    ensures |Render(segments)| > 1
  {
    assert IsSegment(segments[0]);
  }

  /** The directory of a normalized path is the path without its last segment. */
  lemma {:induction false} DirnameDropsLast(segments: seq<string>, last: string)
    requires Clean(segments) && IsSegment(last)
    ensures Dirname(Render(segments + [last])) == Render(segments)
  {
    var p := Render(segments + [last]);
    if segments == [] {
      assert segments + [last] == [last];
      DirEndOfChild(p, last, |p| - 1);
    } else {
      RenderSnoc(segments, last);
      RenderedIsLong(segments);
      DirEndIn(p, Render(segments), last, |p| - 1);
    }
  }

  lemma {:induction false} DirEndBefore(p: string, tail: string, i: nat, trailing: bool)
    requires i < |p|
    ensures DirEnd(p + tail, i, trailing) == DirEnd(p, i, trailing)
    decreases i
  {
    assert (p + tail)[i] == p[i];
    if i > 0 { DirEndBefore(p, tail, i - 1, trailing && p[i] == '/'); }
  }

  /** A trailing slash is no part of the path, and two slashes alone are a root of their own. */
  lemma {:induction false} SlashesOfDirname(p: string, last: string, two: string)
    requires IsAbsolute(p) && two == "//" && last != "" && '/' !in last
    ensures Dirname(p + "/") == Dirname(p)
    ensures Dirname(two + last) == two
  {
    var q := p + "/";
    assert q[|q| - 1] == '/' && DirEnd(q, |q| - 1, true) == DirEnd(q, |q| - 2, true);
    DirEndBefore(p, "/", |p| - 1, true);
    var r := two + last;
    assert r == "/" + "/" + last;
    DirEndIn(r, "/", last, |r| - 1);
  }

  // --- relative --------------------------------------------------------------

  /** From a directory to what is below it, the relative path is what is below it. */
  lemma {:induction false} RelativeBelow(root: seq<string>, rel: seq<string>)
    ensures Relative(root, root + rel) == rel
    decreases |root|
  {
    if root == [] {
      assert root + rel == rel;
      assert seq(0, i => "..") + rel == rel;
    } else {
      assert (root + rel)[1..] == root[1..] + rel;
      RelativeBelow(root[1..], rel);
    }
  }

  lemma {:induction false} WalkUp(at: seq<string>, k: nat)
    requires k <= |at|
    ensures Walk(at, seq(k, i => "..")) == at[..|at| - k]
    decreases k
  {
    if k == 0 {
      assert at[..|at|] == at;
    } else {
      assert seq(k, i => "..")[1..] == seq(k - 1, i => "..");
      WalkUp(at[..|at| - 1], k - 1);
      assert at[..|at| - 1][..|at| - k] == at[..|at| - k];
    }
  }

  lemma {:induction false} RelativeShape(from: seq<string>, to: seq<string>) returns (shared: nat)
    ensures shared <= |from| && shared <= |to| && from[..shared] == to[..shared]
    ensures Relative(from, to) == seq(|from| - shared, i => "..") + to[shared..]
    decreases |from|
  {
    if from != [] && to != [] && from[0] == to[0] {
      var rest := RelativeShape(from[1..], to[1..]);
      shared := rest + 1;
      assert from[..shared] == [from[0]] + from[1..][..rest] && to[..shared] == [to[0]] + to[1..][..rest];
      assert to[shared..] == to[1..][rest..];
    } else {
      shared := 0;
    }
  }

  /** Going the relative path from the one directory leads to the other. */
  lemma {:induction false} RelativeLeadsThere(from: seq<string>, to: seq<string>)
    requires Clean(to)
    ensures Walk(from, Relative(from, to)) == to
  {
    var shared := RelativeShape(from, to);
    WalkConcat(from, seq(|from| - shared, i => ".."), to[shared..]);
    WalkUp(from, |from| - shared);
    WalkClean(from[..shared], to[shared..]);
    assert to == to[..shared] + to[shared..];
  }
}
