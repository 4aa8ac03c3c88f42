/** `DotNotationResourceParser`. */
module ResourceParser {
  import opened Text
  import opened Segments

  datatype Piece = TypePiece | IdPiece

  datatype Reason = MoreThanOneColon | EmptyPiece(empty: Piece) | BadCharacter(bad: Piece)

  datatype Result<+T> = Ok(value: T) | ResourceParseError(position: nat, reason: Reason)

  datatype Resource = Resource(raw: string, resourceType: string, resourceId: Option<string>)

  /** `NQCHAR` of RFC 6749, Appendix A, less `.` and `:`. */
  predicate IsTokenChar(c: char) {
    c == '\U{21}' || '\U{23}' <= c <= '\U{2D}' || '\U{2F}' <= c <= '\U{39}' || '\U{3B}' <= c <= '\U{5B}' || '\U{5D}' <= c <= '\U{7E}'
  }

  /** Printable ASCII, except the space, the quotation mark, the full stop, the colon and the
      backslash. */
  lemma {:induction false} TokenCharactersAre(c: char)
    ensures IsTokenChar(c) <==> 0x20 < c as int < 0x7F && c as int !in {0x22, 0x2E, 0x3A, 0x5C}
  {
  }

  predicate IsToken(s: string) { s != "" && forall i :: 0 <= i < |s| ==> IsTokenChar(s[i]) }

  function TokenTrouble(s: string, piece: Piece): Option<Reason> {
    if s == "" then Some(EmptyPiece(piece)) else if !IsToken(s) then Some(BadCharacter(piece)) else None
  }

  /** `parseSegment`: why it is refused, or the segment. */
  function ParseSegment(part: string, position: nat): Result<Segment> {
    var pieces := Split(part, ':');
    if |pieces| > 2 then ResourceParseError(position, MoreThanOneColon)
    else if TokenTrouble(pieces[0], TypePiece).Some? then
      ResourceParseError(position, TokenTrouble(pieces[0], TypePiece).value)
    else if |pieces| == 1 then Ok(Segment(pieces[0], None))
    else if TokenTrouble(pieces[1], IdPiece).Some? then
      ResourceParseError(position, TokenTrouble(pieces[1], IdPiece).value)
    else Ok(Segment(pieces[0], Some(pieces[1])))
  }

  /** The parts in order; the first refused is the one reported. */
  function ParseParts(parts: seq<string>, position: nat): Result<seq<Segment>> {
    if parts == [] then Ok([])
    else
      match ParseSegment(parts[0], position)
      case ResourceParseError(p, reason) => ResourceParseError(p, reason)
      case Ok(g) =>
        match ParseParts(parts[1..], position + 1)
        case ResourceParseError(p, reason) => ResourceParseError(p, reason)
        case Ok(gs) => Ok([g] + gs)
  }

  function ParseSegments(raw: string): Result<seq<Segment>> { ParseParts(Split(raw, '.'), 1) }

  function Kinds(gs: seq<Segment>): (kinds: seq<string>)
    ensures |kinds| == |gs| && forall i :: 0 <= i < |gs| ==> kinds[i] == gs[i].kind
  {
    seq(|gs|, i requires 0 <= i < |gs| => gs[i].kind)
  }

  function TypeOf(gs: seq<Segment>): string { Join(Kinds(gs), '.') }

  lemma {:induction false} ParsedIsNotEmpty(raw: string)
    ensures ParseSegments(raw).Ok? ==> ParseSegments(raw).value != []
  {
  }

  function Parse(raw: string): Result<Resource> {
    ParsedIsNotEmpty(raw);
    match ParseSegments(raw)
    case ResourceParseError(p, reason) => ResourceParseError(p, reason)
    case Ok(gs) => Ok(Resource(raw, TypeOf(gs), gs[|gs| - 1].id))
  }

  // --- the grammar -----------------------------------------------------------

  /** `segment = type [ ":" id ]`. */
  predicate IsSegment(g: Segment) { IsToken(g.kind) && (g.id.Some? ==> IsToken(g.id.value)) }

  predicate IsResource(gs: seq<Segment>) { gs != [] && forall i :: 0 <= i < |gs| ==> IsSegment(gs[i]) }

  lemma {:induction false} SegmentsArePlain(g: Segment)
    requires IsSegment(g)
    ensures Plain(g)
  {
  }

  /** A part parses to a segment exactly when it is that segment, printed. */
  lemma {:induction false} ParsesSegment(part: string, position: nat, g: Segment)
    ensures ParseSegment(part, position) == Ok(g) <==> IsSegment(g) && part == Print(g)
    ensures ParseSegment(part, position).ResourceParseError? ==> ParseSegment(part, position).position == position
  {
    if ParseSegment(part, position) == Ok(g) {
      PiecesPrint(g, part);
    }
    if IsSegment(g) && part == Print(g) {
      SegmentsArePlain(g);
      PrintPieces(g);
    }
  }

  ghost predicate PrintsOf(parts: seq<string>, gs: seq<Segment>) {
    |gs| == |parts| && forall i :: 0 <= i < |gs| ==> IsSegment(gs[i]) && parts[i] == Print(gs[i])
  }

  lemma {:induction false} PrintsOfCons(part: string, parts: seq<string>, g: Segment, gs: seq<Segment>)
    ensures PrintsOf([part] + parts, [g] + gs) <==> IsSegment(g) && part == Print(g) && PrintsOf(parts, gs)
  {
    var allParts, all := [part] + parts, [g] + gs;
    if PrintsOf(allParts, all) {
      assert all[0] == g && allParts[0] == part;
      forall i | 0 <= i < |gs| ensures IsSegment(gs[i]) && parts[i] == Print(gs[i]) {
        assert all[i + 1] == gs[i] && allParts[i + 1] == parts[i];
      }
    }
  }

  lemma {:induction false} ParsesParts(parts: seq<string>, position: nat, gs: seq<Segment>)
    ensures ParseParts(parts, position) == Ok(gs) <==> PrintsOf(parts, gs)
  {
    if parts != [] && gs != [] {
      ParsesSegment(parts[0], position, gs[0]);
      ParsesParts(parts[1..], position + 1, gs[1..]);
      assert gs == [gs[0]] + gs[1..] && parts == [parts[0]] + parts[1..];
      PrintsOfCons(parts[0], parts[1..], gs[0], gs[1..]);
    }
  }

  /** The parser accepts exactly its grammar, and printing what it read gives the raw
      string back: a raw string parses to these segments exactly when they are a resource
      and it is their printing. */
  lemma {:induction false} AcceptsExactlyTheGrammar(raw: string, gs: seq<Segment>)
    ensures ParseSegments(raw) == Ok(gs) <==> IsResource(gs) && raw == PathOf(gs)
  {
    var parts := Split(raw, '.');
    ParsesParts(parts, 1, gs);
    if ParseSegments(raw) == Ok(gs) {
      assert parts == PrintAll(gs);
      PathOfSplit(raw, gs);
    }
    if IsResource(gs) && raw == PathOf(gs) {
      forall i | 0 <= i < |gs| ensures Plain(gs[i]) { SegmentsArePlain(gs[i]); }
      SplitPath(gs);
    }
  }

  /** No two segment lists print alike. */
  lemma {:induction false} PrintingIsInjective(a: seq<Segment>, b: seq<Segment>)
    requires IsResource(a) && IsResource(b) && PathOf(a) == PathOf(b)
    ensures a == b
  {
    AcceptsExactlyTheGrammar(PathOf(a), a);
    AcceptsExactlyTheGrammar(PathOf(b), b);
  }

  lemma {:induction false} FirstRefused(parts: seq<string>, position: nat) returns (k: nat)
    requires ParseParts(parts, position).ResourceParseError?
    ensures k < |parts| && ParseParts(parts, position).position == position + k
    ensures ParseSegment(parts[k], position + k) ==
            ResourceParseError(position + k, ParseParts(parts, position).reason)
    ensures forall i :: 0 <= i < k ==> ParseSegment(parts[i], position + i).Ok?
  {
    ParsesSegment(parts[0], position, Segment("", None));
    if ParseSegment(parts[0], position).ResourceParseError? {
      k := 0;
    } else {
      var rest := FirstRefused(parts[1..], position + 1);
      k := rest + 1;
      forall i | 0 <= i < k ensures ParseSegment(parts[i], position + i).Ok? {
        if i > 0 {
          assert parts[1..][i - 1] == parts[i];
          assert ParseSegment(parts[1..][i - 1], position + 1 + (i - 1)).Ok?;
        }
      }
    }
  }

  /** A refusal names the first part that is no segment, counted from 1, and its reason. */
  lemma {:induction false} RefusalNamesTheFirst(raw: string) returns (k: nat)
    requires Parse(raw).ResourceParseError?
    ensures k < |Split(raw, '.')| && Parse(raw).position == k + 1
    ensures ParseSegment(Split(raw, '.')[k], k + 1) == ResourceParseError(k + 1, Parse(raw).reason)
    ensures forall i :: 0 <= i < k ==> ParseSegment(Split(raw, '.')[i], i + 1).Ok?
  {
    k := FirstRefused(Split(raw, '.'), 1);
  }

  /** Why a part without a second colon is refused, if it is: its type first, and an
      empty piece told from one with a character outside the set. */
  lemma {:induction false} ReasonByShape(g: Segment, position: nat)
    requires ':' !in g.kind && (g.id.Some? ==> ':' !in g.id.value)
    ensures var r := ParseSegment(Print(g), position);
            && (r.Ok? <==> IsSegment(g))
            && (r == ResourceParseError(position, EmptyPiece(TypePiece)) <==> g.kind == "")
            && (r == ResourceParseError(position, BadCharacter(TypePiece)) <==> g.kind != "" && !IsToken(g.kind))
            && (r == ResourceParseError(position, EmptyPiece(IdPiece)) <==> IsToken(g.kind) && g.id == Some(""))
            && r != ResourceParseError(position, MoreThanOneColon)
  {
    SplitOne(g.kind, ':');
    if g.id.Some? {
      SplitOne(g.id.value, ':');
      SplitConcat(g.kind, g.id.value, ':');
      assert [g.kind] + [g.id.value] == [g.kind, g.id.value];
    }
  }

  /** A second colon is refused as such, whatever stands around it. */
  lemma {:induction false} SecondColonIsRefused(a: string, b: string, c: string, position: nat)
    ensures ParseSegment(a + ":" + b + ":" + c, position) == ResourceParseError(position, MoreThanOneColon)
  {
    SplitConcat(a + ":" + b, c, ':');
    SplitConcat(a, b, ':');
  }

  /** Two accepted strings share a `resourceType` exactly when their segments have the
      same types in the same order. */
  lemma {:induction false} TypesAreInjective(a: string, b: string)
    requires ParseSegments(a).Ok? && ParseSegments(b).Ok?
    ensures Parse(a).value.resourceType == Parse(b).value.resourceType <==>
            Kinds(ParseSegments(a).value) == Kinds(ParseSegments(b).value)
  {
    KindsComeBack(a);
    KindsComeBack(b);
  }

  lemma {:induction false} KindsComeBack(raw: string)
    requires ParseSegments(raw).Ok?
    ensures Split(TypeOf(ParseSegments(raw).value), '.') == Kinds(ParseSegments(raw).value)
  {
    var gs := ParseSegments(raw).value;
    AcceptsExactlyTheGrammar(raw, gs);
    forall i | 0 <= i < |gs| ensures '.' !in Kinds(gs)[i] { SegmentsArePlain(gs[i]); }
    JoinThenSplit(Kinds(gs), '.');
  }

  /** What a parsed resource carries: the string as written, its types, the last id. */
  lemma {:induction false} ResourceOf(gs: seq<Segment>)
    requires IsResource(gs)
    ensures Parse(PathOf(gs)) == Ok(Resource(PathOf(gs), TypeOf(gs), gs[|gs| - 1].id))
  {
    AcceptsExactlyTheGrammar(PathOf(gs), gs);
  }
}
