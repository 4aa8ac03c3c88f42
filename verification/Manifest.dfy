/** `scaffold`'s rewrite of the copied `package.json`: parsed, changed in place, and
    written only when every workspace dependency has been resolved. */
module Manifest {
  import opened Text
  import opened JsonValues

  datatype Dep = Dep(name: string, version: Json)

  datatype Section = Dependencies | DevDependencies | PeerDependencies

  const WORKSPACE := Str("workspace:*")

  /** A manifest: its name, its three dependency sections, and every other field. */
  datatype Package = Package(
    name: Json,
    dependencies: Option<seq<Dep>>,
    devDependencies: Option<seq<Dep>>,
    peerDependencies: Option<seq<Dep>>,
    others: map<string, Json>)

  function Get(p: Package, section: Section): Option<seq<Dep>> {
    match section
    case Dependencies => p.dependencies
    case DevDependencies => p.devDependencies
    case PeerDependencies => p.peerDependencies
  }

  function Put(p: Package, section: Section, deps: seq<Dep>): Package {
    match section
    case Dependencies => p.(dependencies := Some(deps))
    case DevDependencies => p.(devDependencies := Some(deps))
    case PeerDependencies => p.(peerDependencies := Some(deps))
  }

  // --- what the rewrite is ---------------------------------------------------

  /** No version to pin it at: `versions` has none under its name, or an empty one. */
  predicate Unpinned(d: Dep, versions: map<string, string>) {
    d.version == WORKSPACE && (d.name !in versions || versions[d.name] == "")
  }

  predicate AllPinned(deps: seq<Dep>, versions: map<string, string>) {
    forall i :: 0 <= i < |deps| ==> !Unpinned(deps[i], versions)
  }

  function Pin(d: Dep, versions: map<string, string>): Dep
    requires !Unpinned(d, versions)
  {
    if d.version == WORKSPACE then Dep(d.name, Str("^" + versions[d.name])) else d
  }

  function PinAll(deps: seq<Dep>, versions: map<string, string>): (pinned: seq<Dep>)
    requires AllPinned(deps, versions)
    ensures |pinned| == |deps| && forall i :: 0 <= i < |deps| ==> pinned[i] == Pin(deps[i], versions)
  {
    seq(|deps|, i requires 0 <= i < |deps| => Pin(deps[i], versions))
  }

  predicate SectionPinned(p: Package, section: Section, versions: map<string, string>) {
    Get(p, section).Some? ==> AllPinned(Get(p, section).value, versions)
  }

  predicate Resolvable(p: Package, versions: map<string, string>) {
    forall section: Section :: SectionPinned(p, section, versions)
  }

  function PinSection(p: Package, section: Section, versions: map<string, string>): Option<seq<Dep>>
    requires SectionPinned(p, section, versions)
  {
    match Get(p, section)
    case None => None
    case Some(deps) => Some(PinAll(deps, versions))
  }

  /** The manifest of a new project. */
  function Rewritten(p: Package, projectName: string, versions: map<string, string>): Package
    requires Resolvable(p, versions)
  {
    Package(Str(projectName),
            PinSection(p, Dependencies, versions),
            PinSection(p, DevDependencies, versions),
            PinSection(p, PeerDependencies, versions),
            p.others)
  }

  // --- the method ------------------------------------------------------------

  /** `package.json` of a copied template: what the file holds, and the parsed object. */
  class PackageFile {
    var disk: Package
    var pkg: Package

    constructor (copied: Package)
      ensures disk == copied && pkg == copied
    {
      disk, pkg := copied, copied;
    }

    /** One section; the name of the dependency that stopped it, if one did. */
    method ResolveSection(section: Section, versions: map<string, string>) returns (failed: Option<string>)
      modifies this`pkg
      ensures failed.None? <==> SectionPinned(old(pkg), section, versions)
      ensures failed.None? ==> Get(pkg, section) == PinSection(old(pkg), section, versions)
      ensures failed.None? ==> SameBut(old(pkg), pkg, section)
      ensures failed.Some? ==> FirstUnpinned(Get(old(pkg), section), failed.value, versions)
    {
      if Get(pkg, section).None? { return None; }
      var entries := Get(pkg, section).value;
      var deps := entries;
      for i := 0 to |entries|
        invariant AllPinned(entries[..i], versions) && |deps| == |entries|
        invariant forall k :: 0 <= k < i ==> deps[k] == Pin(entries[..i][k], versions)
        invariant forall k :: i <= k < |entries| ==> deps[k] == entries[k]
        invariant Put(pkg, section, deps) == Put(old(pkg), section, deps)
        invariant Get(pkg, section) == Some(deps)
      {
        if entries[i].version == WORKSPACE {
          var name := entries[i].name;
          if name !in versions || versions[name] == "" {
            assert Unpinned(entries[i], versions);
            return Some(name);
          }
          deps := deps[i := Dep(name, Str("^" + versions[name]))];
          pkg := Put(pkg, section, deps);
        }
        assert entries[..i + 1] == entries[..i] + [entries[i]];
      }
      assert entries[..|entries|] == entries;
      assert deps == PinAll(entries, versions);
      return None;
    }

    /** The rewrite: every section in turn, and the file only once all are resolved. */
    method Rewrite(projectName: string, versions: map<string, string>) returns (failed: Option<string>)
      requires pkg == disk
      modifies this
      ensures failed.None? <==> Resolvable(old(disk), versions)
      ensures failed.None? ==> disk == Rewritten(old(disk), projectName, versions)
      ensures failed.Some? ==> disk == old(disk) && BlamesFirst(old(disk), failed.value, versions)
    {
      pkg := pkg.(name := Str(projectName));
      assert forall section: Section :: Get(pkg, section) == Get(old(disk), section);
      failed := ResolveSection(Dependencies, versions);
      assert failed.None? <==> SectionPinned(old(disk), Dependencies, versions);
      if failed.Some? { return; }
      assert Get(pkg, DevDependencies) == Get(old(disk), DevDependencies);
      failed := ResolveSection(DevDependencies, versions);
      assert failed.None? <==> SectionPinned(old(disk), DevDependencies, versions);
      if failed.Some? { return; }
      assert Get(pkg, PeerDependencies) == Get(old(disk), PeerDependencies);
      failed := ResolveSection(PeerDependencies, versions);
      assert failed.None? <==> SectionPinned(old(disk), PeerDependencies, versions);
      if failed.Some? { return; }
      disk := pkg;
    }
  }

  ghost predicate SameBut(a: Package, b: Package, section: Section) {
    && a.name == b.name && a.others == b.others
    && forall other: Section :: other != section ==> Get(a, other) == Get(b, other)
  }

  /** The first entry of a section that has no pin is of this name. */
  ghost predicate FirstUnpinned(deps: Option<seq<Dep>>, name: string, versions: map<string, string>) {
    deps.Some? && exists i :: 0 <= i < |deps.value| && deps.value[i].name == name && Unpinned(deps.value[i], versions)
                              && AllPinned(deps.value[..i], versions)
  }

  /** The dependency a failure names: the first without a pin, of the first section with one. */
  ghost predicate BlamesFirst(p: Package, name: string, versions: map<string, string>) {
    || FirstUnpinned(p.dependencies, name, versions)
    || (SectionPinned(p, Dependencies, versions) && FirstUnpinned(p.devDependencies, name, versions))
    || (SectionPinned(p, Dependencies, versions) && SectionPinned(p, DevDependencies, versions)
        && FirstUnpinned(p.peerDependencies, name, versions))
  }

  // --- what it leaves --------------------------------------------------------

  /** After a rewrite no workspace reference remains; each became a caret and its pin, and
      nothing else moved or changed. */
  lemma {:induction false} RewriteReplacesExactly(p: Package, projectName: string, versions: map<string, string>,
                                                  section: Section)
    requires Resolvable(p, versions)
    ensures var q := Rewritten(p, projectName, versions);
            && q.name == Str(projectName) && q.others == p.others
            && (Get(q, section).Some? <==> Get(p, section).Some?)
            && (Get(q, section).Some? ==>
                var before, after := Get(p, section).value, Get(q, section).value;
                && |after| == |before|
                && forall i :: 0 <= i < |before| ==>
                     && after[i].name == before[i].name && after[i].version != Str("workspace:*")
                     && (before[i].version != Str("workspace:*") ==> after[i] == before[i])
                     && (before[i].version == Str("workspace:*") ==>
                         before[i].name in versions && versions[before[i].name] != ""
                         && after[i].version == Str("^" + versions[before[i].name])))
  {
    assert SectionPinned(p, section, versions);
    CaretIsNotWorkspace(versions);
  }

  lemma {:induction false} CaretIsNotWorkspace(versions: map<string, string>)
    ensures forall name :: name in versions ==> Str("^" + versions[name]) != WORKSPACE
  {
    forall name | name in versions ensures Str("^" + versions[name]) != WORKSPACE {
      assert ("^" + versions[name])[0] != "workspace:*"[0];
    }
  }

  /** A rewritten manifest is always resolvable, even with no versions at all, and
      rewriting it again changes nothing. */
  lemma {:induction false} RewritingAgainChangesNothing(p: Package, projectName: string, versions: map<string, string>,
                                                        later: map<string, string>)
    requires Resolvable(p, versions)
    ensures var q := Rewritten(p, projectName, versions);
            Resolvable(q, later) && Rewritten(q, projectName, later) == q
  {
    var q := Rewritten(p, projectName, versions);
    forall section: Section ensures SectionPinned(q, section, later) && PinSection(q, section, later) == Get(q, section) {
      RewriteReplacesExactly(p, projectName, versions, section);
      if Get(q, section).Some? {
        assert PinAll(Get(q, section).value, later) == Get(q, section).value;
      }
    }
    assert PinSection(q, Dependencies, later) == q.dependencies;
    assert PinSection(q, DevDependencies, later) == q.devDependencies;
    assert PinSection(q, PeerDependencies, later) == q.peerDependencies;
  }
}
