/** The template copied twice, by the build and by the scaffolder, each time pruned of
    build output judged on the path relative to the tree's root. */
module Template {
  import opened Text
  import opened PosixPath

  datatype Entry = File(name: string, content: string) | Dir(name: string, entries: seq<Entry>)

  const EXCLUDED_DIRS := {"node_modules", "dist"}

  /** The filter both copies use. */
  predicate IsTemplateEntryIncluded(templatesDir: string, source: string) {
    var rel := Join(Relative(SegmentsOf(templatesDir), SegmentsOf(source)), '/');
    if rel == "" then true
    else forall i :: 0 <= i < |Split(rel, '/')| ==> Split(rel, '/')[i] !in EXCLUDED_DIRS
  }

  /** `cpSync`, recursive, with the filter: an entry it refuses is not entered. `at` is the
      directory the entries are in. */
  function CopyEntries(templatesDir: string, at: seq<string>, entries: seq<Entry>): seq<Entry>
    decreases entries
  {
    if entries == [] then []
    else
      var entry := entries[0];
      var source := at + [entry.name];
      (if !IsTemplateEntryIncluded(templatesDir, Render(source)) then []
       else
         match entry
         case File(_, _) => [entry]
         case Dir(name, inner) => [Dir(name, CopyEntries(templatesDir, source, inner))])
      + CopyEntries(templatesDir, at, entries[1..])
  }

  function Copy(root: seq<string>, tree: seq<Entry>): seq<Entry> {
    if IsTemplateEntryIncluded(Render(root), Render(root)) then CopyEntries(Render(root), root, tree) else []
  }

  predicate WellNamed(entries: seq<Entry>)
    decreases entries
  {
    if entries == [] then true
    else
      && IsSegment(entries[0].name)
      && (entries[0].Dir? ==> WellNamed(entries[0].entries))
      && WellNamed(entries[1..])
  }

  /** Only names are looked at, and only here: no location. */
  function Prune(entries: seq<Entry>): seq<Entry>
    decreases entries
  {
    if entries == [] then []
    else
      (if entries[0].name in EXCLUDED_DIRS then []
       else
         match entries[0]
         case File(_, _) => [entries[0]]
         case Dir(name, inner) => [Dir(name, Prune(inner))])
      + Prune(entries[1..])
  }

  predicate NoneExcluded(path: seq<string>) { 
    forall i :: 0 <= i < |path| ==> path[i] != "node_modules" && path[i] != "dist"
  }

  /** An entry is judged by the segments below the root alone, wherever the root is. */
  lemma {:induction false} IncludedIffNoneExcluded(root: seq<string>, rel: seq<string>)
    requires Clean(root) && Clean(rel)
    ensures IsTemplateEntryIncluded(Render(root), Render(root + rel)) <==> NoneExcluded(rel)
  {
    RenderedComesBack(root);
    RenderedComesBack(root + rel);
    RelativeBelow(root, rel);
    if rel != [] {
      assert IsSegment(rel[0]);
      JoinThenSplit(rel, '/');
    }
  }

  /** The copy prunes by name, however deep it has gone and wherever the root is. */
  lemma {:induction false} CopyPrunes(root: seq<string>, rel: seq<string>, entries: seq<Entry>)
    requires Clean(root) && Clean(rel) && NoneExcluded(rel) && WellNamed(entries)
    ensures CopyEntries(Render(root), root + rel, entries) == Prune(entries)
    decreases entries
  {
    if entries != [] {
      var entry := entries[0];
      var below := rel + [entry.name];
      assert root + rel + [entry.name] == root + below;
      IncludedIffNoneExcluded(root, below);
      assert NoneExcluded(below) <==> entry.name !in EXCLUDED_DIRS by {
        assert below[|rel|] == entry.name;
      }
      if entry.Dir? && entry.name !in EXCLUDED_DIRS { CopyPrunes(root, below, entry.entries); }
      CopyPrunes(root, rel, entries[1..]);
    }
  }

  /** Where the template is does not matter, under `node_modules` or not. */
  lemma {:induction false} LocationDoesNotMatter(root: seq<string>, other: seq<string>, tree: seq<Entry>)
    requires Clean(root) && Clean(other) && WellNamed(tree)
    ensures Copy(root, tree) == Copy(other, tree) == Prune(tree)
  {
    CopiesArePruned(root, tree);
    CopiesArePruned(other, tree);
  }

  lemma {:induction false} CopiesArePruned(root: seq<string>, tree: seq<Entry>)
    requires Clean(root) && WellNamed(tree)
    ensures Copy(root, tree) == Prune(tree)
  {
    assert root + [] == root;
    IncludedIffNoneExcluded(root, []);
    CopyPrunes(root, [], tree);
  }

  // --- what is kept ----------------------------------------------------------

  datatype Leaf = FileOf(content: string) | Directory

  predicate IsLeaf(entry: Entry, leaf: Leaf) {
    match entry
    case File(_, content) => leaf == FileOf(content)
    case Dir(_, _) => leaf == Directory
  }

  /** A tree has an entry at a path below its root. */
  predicate Has(entries: seq<Entry>, path: seq<string>, leaf: Leaf)
    decreases entries
  {
    if entries == [] || path == [] then false
    else
      || Has(entries[1..], path, leaf)
      || (entries[0].name == path[0] &&
          if |path| == 1 then IsLeaf(entries[0], leaf)
          else entries[0].Dir? && Has(entries[0].entries, path[1..], leaf))
  }

  lemma {:induction false} PruneKeeps(entries: seq<Entry>, path: seq<string>, leaf: Leaf)
    ensures Has(Prune(entries), path, leaf) <==> Has(entries, path, leaf) && NoneExcluded(path)
    decreases entries
  {
    if entries != [] && path != [] {
      var entry := entries[0];
      PruneKeeps(entries[1..], path, leaf);
      if |path| > 1 && entry.Dir? { PruneKeeps(entry.entries, path[1..], leaf); }
      assert path == [path[0]] + path[1..];
      assert NoneExcluded(path) <==> path[0] !in EXCLUDED_DIRS && NoneExcluded(path[1..]);
      if entry.name !in EXCLUDED_DIRS {
        var kept := if entry.Dir? then Dir(entry.name, Prune(entry.entries)) else entry;
        assert ([kept] + Prune(entries[1..]))[1..] == Prune(entries[1..]);
      } else {
        assert [] + Prune(entries[1..]) == Prune(entries[1..]);
      }
    }
  }

  /** The copy holds exactly the entries of the tree, files with their contents, whose
      path below the root names no excluded directory. */
  lemma {:induction false} CopyKeepsExactly(root: seq<string>, tree: seq<Entry>, path: seq<string>, leaf: Leaf)
    requires Clean(root) && WellNamed(tree)
    ensures Has(Copy(root, tree), path, leaf) <==> Has(tree, path, leaf) && NoneExcluded(path)
  {
    CopiesArePruned(root, tree);
    PruneKeeps(tree, path, leaf);
  }

  lemma {:induction false} PrunedIsPruned(entries: seq<Entry>)
    requires WellNamed(entries)
    ensures Prune(Prune(entries)) == Prune(entries) && WellNamed(Prune(entries))
    decreases entries
  {
    if entries != [] {
      var entry := entries[0];
      PrunedIsPruned(entries[1..]);
      if entry.Dir? { PrunedIsPruned(entry.entries); }
      if entry.name !in EXCLUDED_DIRS {
        var kept := if entry.Dir? then Dir(entry.name, Prune(entry.entries)) else entry;
        assert ([kept] + Prune(entries[1..]))[1..] == Prune(entries[1..]);
      } else {
        assert [] + Prune(entries[1..]) == Prune(entries[1..]);
      }
    }
  }

  /** The build's copy, then the scaffolder's of what it left, is one copy. */
  lemma {:induction false} TwoCopiesAreOne(source: seq<string>, bundled: seq<string>, tree: seq<Entry>)
    requires Clean(source) && Clean(bundled) && WellNamed(tree)
    ensures Copy(bundled, Copy(source, tree)) == Copy(source, tree)
  {
    CopiesArePruned(source, tree);
    PrunedIsPruned(tree);
    CopiesArePruned(bundled, Prune(tree));
  }

  /** Judged on absolute paths, a template that sits under an excluded name would be
      refused whole: why the filter takes the path relative to the root. */
  lemma {:induction false} AbsolutePathsWouldRefuseAll(root: seq<string>, rel: seq<string>)
    requires Clean(root) && Clean(rel) && !NoneExcluded(root)
    ensures !IsTemplateEntryIncluded("/", Render(root + rel))
    ensures NoneExcluded(rel) ==> IsTemplateEntryIncluded(Render(root), Render(root + rel))
  {
    var i :| 0 <= i < |root| && root[i] in EXCLUDED_DIRS;
    assert (root + rel)[i] in EXCLUDED_DIRS;
    assert Render([]) == "/" && [] + (root + rel) == root + rel;
    IncludedIffNoneExcluded([], root + rel);
    IncludedIffNoneExcluded(root, rel);
  }
}
