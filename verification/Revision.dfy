/** What a policy set's revision digests: a versioned header, then each file's name and
    text as netstrings, in load order. The digest itself is not part of this model. */
module Revision {
  import opened Text
  import opened Utf8

  datatype File = File(name: seq<Unit>, text: seq<Unit>)

  const COLON: Unit := 0x3A
  const COMMA: Unit := 0x2C

  /** `n` in decimal. */
  function Decimal(n: nat): (digits: seq<Byte>)
    ensures digits != [] && forall i :: 0 <= i < |digits| ==> IsDigit(digits[i])
  {
    if n < 10 then [0x30 + n] else Decimal(n / 10) + [0x30 + n % 10]
  }

  predicate IsDigit(b: int) { 0x30 <= b < 0x3A }

  function DigitOf(b: Byte): nat
    requires IsDigit(b)
  {
    b as int - 0x30
  }

  /** `netstring`: the byte length in decimal, a colon, the value, a comma. */
  function Netstring(value: seq<Unit>): seq<Unit> {
    Decimal(|Bytes(value)|) + [COLON] + value + [COMMA]
  }

  function ToUnits(s: string): (units: seq<Unit>)
    requires forall i :: 0 <= i < |s| ==> s[i] < '\U{80}'
    ensures |units| == |s| && forall i :: 0 <= i < |s| ==> units[i] == s[i] as int
  {
    seq(|s|, i requires 0 <= i < |s| => s[i] as int)
  }

  function Header(): seq<Unit> { ToUnits("auth.policy-verifier.cedar/policy-set/v1\n") }

  /** The bytes of the files' netstrings, in order. */
  function Framed(files: seq<File>): seq<Byte> {
    if files == [] then []
    else Bytes(Netstring(files[0].name)) + Bytes(Netstring(files[0].text)) + Framed(files[1..])
  }

  /** What is hashed: a header, then the files. */
  function Preimage(header: seq<Unit>, files: seq<File>): seq<Byte> { Bytes(header) + Framed(files) }

  /** `createHash("sha256")` up to its digest: what has been hashed so far. */
  class Hash {
    var hashed: seq<Byte>

    constructor ()
      ensures hashed == []
    {
      hashed := [];
    }

    method Update(s: seq<Unit>)
      modifies this
      ensures hashed == old(hashed) + Bytes(s)
    {
      hashed := hashed + Bytes(s);
    }
  }

  /** `computePolicyRevision`, up to the digest. */
  method ComputePreimage(files: seq<File>) returns (hash: Hash)
    ensures fresh(hash) && hash.hashed == Preimage(Header(), files)
  {
    hash := HashUnder(Header(), files);
  }

  method HashUnder(header: seq<Unit>, files: seq<File>) returns (hash: Hash)
    ensures fresh(hash) && hash.hashed == Preimage(header, files)
  {
    hash := new Hash();
    hash.Update(header);
    UpdateWith(hash, files);
  }

  method UpdateWith(hash: Hash, files: seq<File>)
    modifies hash
    ensures hash.hashed == old(hash.hashed) + Framed(files)
  {
    for k := 0 to |files|
      invariant hash.hashed + Framed(files[k..]) == old(hash.hashed) + Framed(files)
    {
      var file := files[k];
      ghost var before := hash.hashed;
      hash.Update(Netstring(file.name));
      hash.Update(Netstring(file.text));
      FramedFrom(files, k, before);
    }
  }

  lemma {:induction false} FramedFrom(files: seq<File>, k: nat, before: seq<Byte>)
    requires k < |files|
    ensures before + Framed(files[k..]) ==
            before + Bytes(Netstring(files[k].name)) + Bytes(Netstring(files[k].text)) + Framed(files[k + 1..])
  {
    FramedCons(files[k..]);
    assert files[k..][1..] == files[k + 1..];
    Regroup(before, Bytes(Netstring(files[k].name)), Bytes(Netstring(files[k].text)), Framed(files[k + 1..]));
  }

  lemma {:induction false} FramedCons(files: seq<File>)
    requires files != []
    ensures Framed(files) == Bytes(Netstring(files[0].name)) + Bytes(Netstring(files[0].text)) + Framed(files[1..])
  {
  }

  lemma {:induction false} Regroup<T>(a: seq<T>, b: seq<T>, c: seq<T>, d: seq<T>)
    ensures a + (b + c + d) == a + b + c + d
  {
  }

  // --- reading a preimage back -----------------------------------------------

  /** The length at the head of a netstring, and what follows its colon. */
  function ReadLength(bytes: seq<Byte>, soFar: nat): Option<(nat, seq<Byte>)> {
    if bytes == [] then None
    else if bytes[0] == COLON then Some((soFar, bytes[1..]))
    else if IsDigit(bytes[0]) then ReadLength(bytes[1..], soFar * 10 + (DigitOf(bytes[0])))
    else None
  }

  /** The bytes in the netstring at the head, and what follows it. */
  function ReadNetstring(bytes: seq<Byte>): Option<(seq<Byte>, seq<Byte>)> {
    match ReadLength(bytes, 0)
    case None => None
    case Some((length, rest)) =>
      if |rest| <= length || rest[length] != COMMA then None
      else Some((rest[..length], rest[length + 1..]))
  }

  function ValueDigits(digits: seq<Byte>, soFar: nat): nat
    requires forall i :: 0 <= i < |digits| ==> IsDigit(digits[i])
  {
    if digits == [] then soFar else ValueDigits(digits[1..], soFar * 10 + (DigitOf(digits[0])))
  }

  lemma {:induction false} ValueDigitsSnoc(digits: seq<Byte>, last: Byte, soFar: nat)
    requires IsDigit(last) && forall i :: 0 <= i < |digits| ==> IsDigit(digits[i])
    ensures ValueDigits(digits + [last], soFar) == ValueDigits(digits, soFar) * 10 + (DigitOf(last))
  {
    if digits == [] {
    } else {
      assert (digits + [last])[1..] == digits[1..] + [last];
      ValueDigitsSnoc(digits[1..], last, soFar * 10 + (DigitOf(digits[0])));
    }
  }

  lemma {:induction false} DecimalValue(n: nat)
    ensures ValueDigits(Decimal(n), 0) == n
  {
    if n >= 10 {
      DecimalValue(n / 10);
      ValueDigitsSnoc(Decimal(n / 10), 0x30 + n % 10, 0);
    }
  }

  /** A length is written as the number it is, with no zero before it. */
  lemma {:induction false} DecimalIsTheNumber(n: nat)
    ensures ValueDigits(Decimal(n), 0) == n
    ensures Decimal(n)[0] == 0x30 ==> Decimal(n) == [0x30]
  {
    DecimalValue(n);
    if n >= 10 { DecimalIsTheNumber(n / 10); }
  }

  /** ASCII is its own bytes. */
  lemma {:induction false} AsciiBytes(s: seq<Unit>)
    requires forall i :: 0 <= i < |s| ==> s[i] < 0x80
    ensures Bytes(s) == s
  {
    if s != [] {
      AsciiBytes(s[1..]);
      assert s == [s[0]] + s[1..];
    }
  }

  lemma {:induction false} ReadLengthOf(digits: seq<Byte>, soFar: nat, rest: seq<Byte>)
    requires forall i :: 0 <= i < |digits| ==> IsDigit(digits[i])
    ensures ReadLength(digits + ([COLON] + rest), soFar) == Some((ValueDigits(digits, soFar), rest))
    decreases |digits|
  {
    var all := digits + ([COLON] + rest);
    if digits == [] {
      assert all[1..] == rest;
    } else {
      assert all[1..] == digits[1..] + ([COLON] + rest);
      ReadLengthOf(digits[1..], soFar * 10 + (DigitOf(digits[0])), rest);
    }
  }

  /** The frame is encoded as one string, and still holds the value's own bytes. */
  lemma {:induction false} NetstringBytes(value: seq<Unit>)
    ensures Bytes(Netstring(value)) == Decimal(|Bytes(value)|) + ([0x3A] + (Bytes(value) + [0x2C]))
  {
    var digits := Decimal(|Bytes(value)|);
    var tail := [COLON] + (value + [COMMA]);
    assert Netstring(value) == digits + tail;
    BytesConcat(digits, tail);
    AsciiBytes(digits);
    ColonThen(value + [COMMA]);
    BytesConcat(value, [COMMA]);
    AsciiBytes([COMMA]);
  }

  lemma {:induction false} ColonThen(s: seq<Unit>)
    ensures Bytes([COLON] + s) == [COLON] + Bytes(s)
  {
    OneThen(COLON, s);
    EncodeCons(COLON, ToScalars(s), ToScalars([COLON] + s));
  }

  /** Reading a netstring gives the value's bytes, whatever they hold, and the rest. */
  lemma {:induction false} ReadsNetstring(value: seq<Unit>, rest: seq<Byte>)
    ensures ReadNetstring(Bytes(Netstring(value)) + rest) == Some((Bytes(value), rest))
  {
    var payload := Bytes(value);
    NetstringBytes(value);
    var digits := Decimal(|payload|);
    var body := payload + [COMMA] + rest;
    assert Bytes(Netstring(value)) + rest == digits + ([COLON] + body);
    ReadLengthOf(digits, 0, body);
    DecimalValue(|payload|);
    assert body[..|payload|] == payload && body[|payload| + 1..] == rest;
  }

  datatype Contents = Contents(name: seq<int>, text: seq<int>)

  /** A file's name and text as scalar values. */
  function ContentsOf(file: File): Contents { Contents(ToScalars(file.name), ToScalars(file.text)) }

  function AllContents(files: seq<File>): (all: seq<Contents>)
    ensures |all| == |files| && forall i :: 0 <= i < |files| ==> all[i] == ContentsOf(files[i])
  {
    seq(|files|, i requires 0 <= i < |files| => ContentsOf(files[i]))
  }

  /** One file's name and text, and what follows them. */
  function ReadFile(bytes: seq<Byte>): Option<(Contents, seq<Byte>)> {
    match ReadNetstring(bytes)
    case None => None
    case Some((name, afterName)) =>
      match ReadNetstring(afterName)
      case None => None
      case Some((text, rest)) =>
        match (Utf8.Decode(name), Utf8.Decode(text))
        case (Some(n), Some(t)) => Some((Contents(n, t), rest))
        case _ => None
  }

  function ReadFiles(bytes: seq<Byte>): Option<seq<Contents>>
    decreases |bytes|
  {
    if bytes == [] then Some([])
    else
      match ReadFile(bytes)
      case None => None
      case Some((file, rest)) =>
        if |rest| >= |bytes| then None
        else
          match ReadFiles(rest)
          case None => None
          case Some(files) => Some([file] + files)
  }

  lemma {:induction false} ReadsFile(file: File, rest: seq<Byte>)
    ensures ReadFile(Bytes(Netstring(file.name)) + Bytes(Netstring(file.text)) + rest) == Some((ContentsOf(file), rest))
    ensures |Bytes(Netstring(file.name))| > 0
  {
    var name, text := Bytes(Netstring(file.name)), Bytes(Netstring(file.text));
    assert name + text + rest == name + (text + rest);
    ReadsNetstring(file.name, text + rest);
    ReadsNetstring(file.text, rest);
    NetstringBytes(file.name);
    DecodeEncode(ToScalars(file.name));
    DecodeEncode(ToScalars(file.text));
  }

  lemma {:induction false} ReadFilesCons(file: File, rest: seq<Byte>, files: seq<Contents>, bytes: seq<Byte>)
    requires bytes == Bytes(Netstring(file.name)) + Bytes(Netstring(file.text)) + rest
    requires ReadFiles(rest) == Some(files)
    ensures ReadFiles(bytes) == Some([ContentsOf(file)] + files)
  {
    ReadsFile(file, rest);
  }

  lemma {:induction false} AllContentsCons(files: seq<File>)
    requires files != []
    ensures AllContents(files) == [ContentsOf(files[0])] + AllContents(files[1..])
  {
  }

  lemma {:induction false} ReadsFramed(files: seq<File>, bytes: seq<Byte>)
    requires bytes == Framed(files)
    ensures ReadFiles(bytes) == Some(AllContents(files))
    decreases |files|
  {
    if files != [] {
      var rest := Framed(files[1..]);
      ReadsFramed(files[1..], rest);
      FramedCons(files);
      AllContentsCons(files);
      ReadFilesCons(files[0], rest, AllContents(files[1..]), bytes);
    }
  }

  /** The list that was framed, decoded from a preimage. */
  function ReadPreimage(header: seq<Unit>, bytes: seq<Byte>): Option<seq<Contents>> {
    var start := Bytes(header);
    if start <= bytes then ReadFiles(bytes[|start|..]) else None
  }

  /** Reading a preimage back recovers every file's name and text, in order. */
  lemma {:induction false} ReadsPreimage(header: seq<Unit>, files: seq<File>)
    ensures ReadPreimage(header, Preimage(header, files)) == Some(AllContents(files))
  {
    ReadsFramed(files, Framed(files));
    assert Preimage(header, files)[|Bytes(header)|..] == Framed(files);
  }

  lemma {:induction false} SameFramed(a: seq<File>, b: seq<File>)
    requires AllContents(a) == AllContents(b)
    ensures Framed(a) == Framed(b)
  {
    if a != [] {
      assert |a| == |AllContents(a)| == |AllContents(b)| == |b|;
      assert ContentsOf(a[0]) == AllContents(a)[0] == AllContents(b)[0] == ContentsOf(b[0]);
      SameNetstring(a[0].name, b[0].name);
      SameNetstring(a[0].text, b[0].text);
      assert AllContents(a[1..]) == AllContents(a)[1..];
      assert AllContents(b[1..]) == AllContents(b)[1..];
      SameFramed(a[1..], b[1..]);
    }
  }

  lemma {:induction false} SameNetstring(a: seq<Unit>, b: seq<Unit>)
    requires ToScalars(a) == ToScalars(b)
    ensures Bytes(Netstring(a)) == Bytes(Netstring(b))
  {
    NetstringBytes(a);
    NetstringBytes(b);
  }

  /** Two file lists have one preimage exactly when they have the same names and texts,
      read as scalar values, in the same order. */
  lemma {:induction false} SamePreimageIffSameContents(header: seq<Unit>, a: seq<File>, b: seq<File>)
    ensures Preimage(header, a) == Preimage(header, b) <==> AllContents(a) == AllContents(b)
  {
    ReadsPreimage(header, a);
    ReadsPreimage(header, b);
    if AllContents(a) == AllContents(b) { SameFramed(a, b); }
  }

  // --- which lists the preimage identifies -----------------------------------

  /** Surrogates are paired, and U+FFFD is not held. */
  predicate Plain(s: seq<Unit>) { WellFormed(s) && REPLACEMENT !in s }

  /** No other list of files has this one's preimage. */
  ghost predicate OnlyListOf(header: seq<Unit>, files: seq<File>) {
    forall others: seq<File> :: Preimage(header, others) == Preimage(header, files) ==> others == files
  }

  /** The preimage tells a list of files from every other exactly when each name and each
      text is plain. */
  lemma {:induction false} PreimageIdentifiesExactly(header: seq<Unit>, files: seq<File>)
    ensures OnlyListOf(header, files) <==> forall i :: 0 <= i < |files| ==> Plain(files[i].name) && Plain(files[i].text)
  {
    if i :| 0 <= i < |files| && !(Plain(files[i].name) && Plain(files[i].text)) {
      var other := AnotherFile(files[i]);
      var others := files[i := other];
      assert AllContents(others) == AllContents(files);
      SamePreimageIffSameContents(header, others, files);
      assert others[i] != files[i];
    } else {
      forall others: seq<File> | Preimage(header, others) == Preimage(header, files) ensures others == files {
        SamePreimageIffSameContents(header, others, files);
        assert |others| == |AllContents(others)| == |AllContents(files)| == |files|;
        forall i | 0 <= i < |files| ensures others[i] == files[i] {
          assert ContentsOf(others[i]) == AllContents(others)[i] == ContentsOf(files[i]);
          IdentifiedExactlyWhen(files[i].name);
          IdentifiedExactlyWhen(files[i].text);
        }
      }
    }
  }

  lemma {:induction false} AnotherFile(file: File) returns (other: File)
    requires !(Plain(file.name) && Plain(file.text))
    ensures other != file && ContentsOf(other) == ContentsOf(file)
  {
    IdentifiedExactlyWhen(file.name);
    IdentifiedExactlyWhen(file.text);
    if !Plain(file.name) {
      var name: seq<Unit> :| ToScalars(name) == ToScalars(file.name) && name != file.name;
      other := file.(name := name);
    } else {
      var text: seq<Unit> :| ToScalars(text) == ToScalars(file.text) && text != file.text;
      other := file.(text := text);
    }
  }

  predicate AllWellFormed(files: seq<File>) {
    forall i :: 0 <= i < |files| ==> WellFormed(files[i].name) && WellFormed(files[i].text)
  }

  lemma {:induction false} WellFormedContents(a: seq<Unit>, b: seq<Unit>)
    requires WellFormed(a) && WellFormed(b) && ToScalars(a) == ToScalars(b)
    ensures a == b
  {
    ToThenFrom(a);
    ToThenFrom(b);
  }

  /** Lists of well-formed names and texts, as decoding files gives, have one preimage only
      when they are one list, U+FFFD in them or not. */
  lemma {:induction false} WellFormedListsAreTold(header: seq<Unit>, a: seq<File>, b: seq<File>)
    requires AllWellFormed(a) && AllWellFormed(b)
    ensures Preimage(header, a) == Preimage(header, b) <==> a == b
  {
    SamePreimageIffSameContents(header, a, b);
    if AllContents(a) == AllContents(b) {
      assert |a| == |AllContents(a)| == |AllContents(b)| == |b|;
      forall i | 0 <= i < |a| ensures a[i] == b[i] {
        assert ContentsOf(a[i]) == AllContents(a)[i] == AllContents(b)[i] == ContentsOf(b[i]);
        WellFormedContents(a[i].name, b[i].name);
        WellFormedContents(a[i].text, b[i].text);
      }
    }
  }

  /** The name of an inline set. */
  function InlineName(): seq<Unit> { ToUnits("policies") }

  lemma {:induction false} OneUnitReplaced(u: Unit)
    requires u == 0xD800 || u == 0xFFFD
    ensures ToScalars([u]) == [REPLACEMENT]
  {
    OneThen(u, []);
    assert [u] + [] == [u];
  }

  lemma {:induction false} SameTextSamePreimage(header: seq<Unit>, name: seq<Unit>, a: seq<Unit>, b: seq<Unit>)
    requires ToScalars(a) == ToScalars(b)
    ensures Preimage(header, [File(name, a)]) == Preimage(header, [File(name, b)])
  {
    assert AllContents([File(name, a)]) == AllContents([File(name, b)]);
    SamePreimageIffSameContents(header, [File(name, a)], [File(name, b)]);
  }

  /** An inline set whose text holds a lone surrogate shares its preimage with the one that
      holds U+FFFD there. */
  lemma {:induction false} ALoneSurrogateIsNotTold(header: seq<Unit>, name: seq<Unit>)
    requires name == InlineName()
    ensures var a, b := [File(name, [0xD800])], [File(name, [0xFFFD])];
            a != b && Preimage(header, a) == Preimage(header, b)
  {
    OneUnitReplaced(0xD800);
    OneUnitReplaced(0xFFFD);
    SameTextSamePreimage(header, name, [0xD800], [0xFFFD]);
    assert [File(name, [0xD800])][0].text[0] != [File(name, [0xFFFD])][0].text[0];
  }

  // --- why the texts are framed ----------------------------------------------

  function Concatenation(files: seq<File>): seq<Unit> {
    if files == [] then [] else files[0].text + Concatenation(files[1..])
  }

  /** "X\n" and "Y", "X" and "\nY": one concatenated text, two preimages. */
  lemma {:induction false} ConcatenationIsNotInjective(header: seq<Unit>, name: seq<Unit>, other: seq<Unit>)
    ensures var a := [File(name, [0x58, 0x0A]), File(other, [0x59])];
            var b := [File(name, [0x58]), File(other, [0x0A, 0x59])];
            Concatenation(a) == Concatenation(b) && Preimage(header, a) != Preimage(header, b)
  {
    var a := [File(name, [0x58, 0x0A]), File(other, [0x59])];
    var b := [File(name, [0x58]), File(other, [0x0A, 0x59])];
    TwoConcatenated(a[0], a[1], a);
    TwoConcatenated(b[0], b[1], b);
    FirstTextTold(header, a, b);
  }

  lemma {:induction false} TwoConcatenated(x: File, y: File, files: seq<File>)
    requires files == [x, y]
    ensures Concatenation(files) == x.text + y.text
  {
    assert files[1..] == [y] && [y][1..] == [];
    assert Concatenation([y]) == y.text + [] == y.text;
  }

  lemma {:induction false} FirstTextTold(header: seq<Unit>, a: seq<File>, b: seq<File>)
    requires a != [] && b != [] && a[0].text == [0x58, 0x0A] && b[0].text == [0x58]
    ensures Preimage(header, a) != Preimage(header, b)
  {
    SamePreimageIffSameContents(header, a, b);
    OneThen(0x58, [0x0A]);
    OneThen(0x0A, []);
    OneThen(0x58, []);
    assert [0x58] + [0x0A] == [0x58, 0x0A] && [0x0A] + [] == [0x0A] && [0x58] + [] == [0x58];
    assert |AllContents(a)[0].text| == 2 && |AllContents(b)[0].text| == 1;
  }
}
