/** Dot-separated `type[:id]` segments, the shape both grammars of the builtins share. */
module Segments {
  import opened Text

  datatype Segment = Segment(kind: string, id: Option<string>)

  function Print(g: Segment): string {
    match g.id
    case None => g.kind
    case Some(id) => g.kind + ":" + id
  }

  function PrintAll(gs: seq<Segment>): (parts: seq<string>)
    ensures |parts| == |gs| && forall i :: 0 <= i < |gs| ==> parts[i] == Print(gs[i])
  {
    seq(|gs|, i requires 0 <= i < |gs| => Print(gs[i]))
  }

  function PathOf(gs: seq<Segment>): string { Join(PrintAll(gs), '.') }

  /** The type and the id hold neither separator. */
  predicate Plain(g: Segment) {
    && '.' !in g.kind && ':' !in g.kind
    && (g.id.Some? ==> '.' !in g.id.value && ':' !in g.id.value)
  }

  predicate AllPlain(gs: seq<Segment>) { forall i :: 0 <= i < |gs| ==> Plain(gs[i]) }

  /** The pieces `split(":")` gives of a segment. */
  function PiecesOf(g: Segment): seq<string> {
    if g.id.None? then [g.kind] else [g.kind, g.id.value]
  }

  lemma {:induction false} PiecesPrint(g: Segment, part: string)
    requires Split(part, ':') == PiecesOf(g)
    ensures Print(g) == part
  {
    SplitThenJoin(part, ':');
  }

  lemma {:induction false} PrintPieces(g: Segment)
    requires Plain(g)
    ensures Split(Print(g), ':') == PiecesOf(g)
  {
    SplitOne(g.kind, ':');
    if g.id.Some? {
      SplitOne(g.id.value, ':');
      SplitConcat(g.kind, g.id.value, ':');
      assert [g.kind] + [g.id.value] == [g.kind, g.id.value];
    }
  }

  lemma {:induction false} PrintIsDotFree(g: Segment)
    requires Plain(g)
    ensures '.' !in Print(g)
  {
  }

  /** A printed path splits into its printed segments. */
  lemma {:induction false} SplitPath(gs: seq<Segment>)
    requires gs != [] && AllPlain(gs)
    ensures Split(PathOf(gs), '.') == PrintAll(gs)
  {
    forall i | 0 <= i < |gs| ensures '.' !in PrintAll(gs)[i] {
      PrintIsDotFree(gs[i]);
    }
    JoinThenSplit(PrintAll(gs), '.');
  }

  /** A path whose parts are the printed segments is the printed path. */
  lemma {:induction false} PathOfSplit(raw: string, gs: seq<Segment>)
    requires Split(raw, '.') == PrintAll(gs)
    ensures raw == PathOf(gs)
  {
    SplitThenJoin(raw, '.');
  }

  lemma {:induction false} PathOfConcat(a: seq<Segment>, b: seq<Segment>)
    requires a != [] && b != []
    ensures PathOf(a + b) == PathOf(a) + "." + PathOf(b)
  {
    assert PrintAll(a + b) == PrintAll(a) + PrintAll(b);
    JoinConcat(PrintAll(a), PrintAll(b), '.');
  }
}
