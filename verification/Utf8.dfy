/** ECMAScript strings as the UTF-16 code units they are, and their UTF-8 bytes as Node's
    `Buffer` and `crypto` make them: a surrogate without its pair is written as U+FFFD. */
module Utf8 {
  import opened Text

  type Unit = u: int | 0 <= u < 0x10000
  type Byte = b: int | 0 <= b < 0x100
  type Scalar = c: int | 0 <= c < 0xD800 || 0xE000 <= c < 0x110000

  const REPLACEMENT: Scalar := 0xFFFD

  predicate IsHigh(u: int) { 0xD800 <= u < 0xDC00 }

  predicate IsLow(u: int) { 0xDC00 <= u < 0xE000 }

  predicate StartsWithPair(s: seq<Unit>) { |s| > 1 && IsHigh(s[0]) && IsLow(s[1]) }

  function PairScalar(high: Unit, low: Unit): Scalar
    requires IsHigh(high) && IsLow(low)
  {
    0x10000 + (high - 0xD800) * 0x400 + (low - 0xDC00)
  }

  /** The scalar values a string encodes as. */
  function ToScalars(s: seq<Unit>): seq<Scalar> {
    if s == [] then []
    else if StartsWithPair(s) then [PairScalar(s[0], s[1])] + ToScalars(s[2..])
    else if IsHigh(s[0]) || IsLow(s[0]) then [REPLACEMENT] + ToScalars(s[1..])
    else [s[0]] + ToScalars(s[1..])
  }

  function UnitsOf(c: Scalar): seq<Unit> {
    if c < 0x10000 then [c] else [0xD800 + (c - 0x10000) / 0x400, 0xDC00 + (c - 0x10000) % 0x400]
  }

  function FromScalars(cs: seq<Scalar>): seq<Unit> {
    if cs == [] then [] else UnitsOf(cs[0]) + FromScalars(cs[1..])
  }

  /** Every surrogate has its pair. */
  predicate WellFormed(s: seq<Unit>) {
    if s == [] then true
    else if StartsWithPair(s) then WellFormed(s[2..])
    else !IsHigh(s[0]) && !IsLow(s[0]) && WellFormed(s[1..])
  }

  lemma {:induction false} ScalarsOfOne(c: Scalar, rest: seq<Unit>)
    ensures ToScalars(UnitsOf(c) + rest) == [c] + ToScalars(rest)
  {
    var s := UnitsOf(c) + rest;
    if c < 0x10000 {
      assert s[1..] == rest;
    } else {
      assert s[2..] == rest;
    }
  }

  lemma {:induction false} FromThenTo(cs: seq<Scalar>)
    ensures ToScalars(FromScalars(cs)) == cs
  {
    if cs != [] {
      FromThenTo(cs[1..]);
      ScalarsOfOne(cs[0], FromScalars(cs[1..]));
    }
  }

  lemma {:induction false} PairUnits(high: Unit, low: Unit)
    requires IsHigh(high) && IsLow(low)
    ensures UnitsOf(PairScalar(high, low)) == [high, low]
  {
  }

  /** A string comes back from its encoding exactly when it is well-formed. */
  lemma {:induction false} ToThenFrom(s: seq<Unit>)
    ensures FromScalars(ToScalars(s)) == s <==> WellFormed(s)
  {
    if s == [] {
    } else if StartsWithPair(s) {
      ToThenFrom(s[2..]);
      PairUnits(s[0], s[1]);
      assert s == [s[0], s[1]] + s[2..];
      HeadsMatch([s[0], s[1]], FromScalars(ToScalars(s[2..])), s[2..]);
    } else {
      ToThenFrom(s[1..]);
      assert s == [s[0]] + s[1..];
      HeadsMatch([s[0]], FromScalars(ToScalars(s[1..])), s[1..]);
    }
  }

  lemma {:induction false} HeadsMatch<T>(a: seq<T>, x: seq<T>, y: seq<T>)
    ensures a + x == a + y <==> x == y
  {
    assert (a + x)[|a|..] == x && (a + y)[|a|..] == y;
  }

  lemma {:induction false} PairThen(high: Unit, low: Unit, rest: seq<Unit>)
    requires IsHigh(high) && IsLow(low)
    ensures ToScalars([high, low] + rest) == [PairScalar(high, low)] + ToScalars(rest)
  {
    assert ([high, low] + rest)[2..] == rest;
  }

  lemma {:induction false} OneThen(u: Unit, rest: seq<Unit>)
    requires !StartsWithPair([u] + rest)
    ensures ToScalars([u] + rest) == [if IsHigh(u) || IsLow(u) then REPLACEMENT else u] + ToScalars(rest)
  {
    assert ([u] + rest)[1..] == rest;
  }

  lemma {:induction false} Reassociate<T>(a: seq<T>, b: seq<T>, c: seq<T>)
    ensures a + (b + c) == a + b + c
  {
  }

  /** Strings joined where no pair is made encode to their encodings joined. */
  lemma {:induction false} ScalarsConcat(a: seq<Unit>, b: seq<Unit>, all: seq<Unit>)
    requires b == [] || !IsLow(b[0])
    requires all == a + b
    ensures ToScalars(all) == ToScalars(a) + ToScalars(b)
    decreases |a|
  {
    if a == [] {
      assert all == b;
    } else if StartsWithPair(a) {
      PairConcat(a, b, all);
    } else {
      OneConcat(a, b, all);
    }
  }

  /** What a unit that is in no pair encodes as. */
  function Alone(u: Unit): Scalar { if IsHigh(u) || IsLow(u) then REPLACEMENT else u }

  lemma {:induction false} NoPairAtTheSeam(a: seq<Unit>, b: seq<Unit>)
    requires a != [] && !StartsWithPair(a) && (b == [] || !IsLow(b[0]))
    ensures !StartsWithPair([a[0]] + (a[1..] + b)) && !StartsWithPair([a[0]] + a[1..])
  {
  }

  lemma {:induction false} AloneThen(u: Unit, rest: seq<Unit>, s: seq<Unit>)
    requires s == [u] + rest && !StartsWithPair(s)
    ensures ToScalars(s) == [Alone(u)] + ToScalars(rest)
  {
    assert s[1..] == rest;
  }

  lemma {:induction false} Glued<T>(head: seq<T>, x: seq<T>, y: seq<T>, hx: seq<T>, xy: seq<T>, all: seq<T>)
    requires hx == head + x && xy == x + y && all == head + xy
    ensures all == hx + y
  {
  }

  lemma {:induction false} OneConcat(a: seq<Unit>, b: seq<Unit>, all: seq<Unit>)
    requires b == [] || !IsLow(b[0])
    requires all == a + b && a != [] && !StartsWithPair(a)
    ensures ToScalars(all) == ToScalars(a) + ToScalars(b)
    decreases |a|, 0
  {
    var tail, rest := a[1..], all[1..];
    assert a == [a[0]] + tail && all == [a[0]] + rest && rest == tail + b;
    ScalarsConcat(tail, b, rest);
    NoPairAtTheSeam(a, b);
    AloneThen(a[0], tail, a);
    AloneThen(a[0], rest, all);
    Glued([Alone(a[0])], ToScalars(tail), ToScalars(b), ToScalars(a), ToScalars(rest), ToScalars(all));
  }

  lemma {:induction false} PairConcat(a: seq<Unit>, b: seq<Unit>, all: seq<Unit>)
    requires b == [] || !IsLow(b[0])
    requires all == a + b && StartsWithPair(a)
    ensures ToScalars(all) == ToScalars(a) + ToScalars(b)
    decreases |a|, 0
  {
    var rest := a[2..] + b;
    ScalarsConcat(a[2..], b, rest);
    assert a == [a[0], a[1]] + a[2..];
    assert all == [a[0], a[1]] + rest;
    PairThen(a[0], a[1], a[2..]);
    PairThen(a[0], a[1], rest);
    Reassociate([PairScalar(a[0], a[1])], ToScalars(a[2..]), ToScalars(b));
  }

  // --- which strings their encoding identifies -------------------------------

  /** No other string encodes as `s` does. */
  ghost predicate Identified(s: seq<Unit>) {
    forall t: seq<Unit> :: ToScalars(t) == ToScalars(s) ==> t == s
  }

  lemma {:induction false} FreeOfReplacement(s: seq<Unit>)
    requires WellFormed(s) && REPLACEMENT !in s
    ensures REPLACEMENT !in ToScalars(s)
    decreases |s|
  {
    if s == [] {
    } else if StartsWithPair(s) {
      FreeOfReplacement(s[2..]);
    } else {
      FreeOfReplacement(s[1..]);
    }
  }

  lemma {:induction false} IllFormedIsReplaced(s: seq<Unit>)
    requires !WellFormed(s)
    ensures REPLACEMENT in ToScalars(s)
    decreases |s|
  {
    if StartsWithPair(s) {
      IllFormedIsReplaced(s[2..]);
    } else if !IsHigh(s[0]) && !IsLow(s[0]) {
      IllFormedIsReplaced(s[1..]);
    }
  }

  lemma {:induction false} ReplacementIsKept(s: seq<Unit>)
    requires REPLACEMENT in s
    ensures REPLACEMENT in ToScalars(s)
    decreases |s|
  {
    assert s == [s[0]] + s[1..];
    if StartsWithPair(s) {
      assert s == [s[0], s[1]] + s[2..];
      ReplacementIsKept(s[2..]);
    } else if s[0] != REPLACEMENT {
      ReplacementIsKept(s[1..]);
    }
  }

  lemma {:induction false} UnitsNeverStartLow(cs: seq<Scalar>)
    ensures FromScalars(cs) == [] || !IsLow(FromScalars(cs)[0])
  {
  }

  /** A scalar list holding U+FFFD is the encoding of two strings: one of them has a lone
      surrogate where the other has U+FFFD. */
  lemma {:induction false} TwoStringsOf(cs: seq<Scalar>, j: nat) returns (a: seq<Unit>, b: seq<Unit>)
    requires j < |cs| && cs[j] == REPLACEMENT
    ensures a != b && ToScalars(a) == cs && ToScalars(b) == cs
  {
    var before, after := FromScalars(cs[..j]), FromScalars(cs[j + 1..]);
    UnitsNeverStartLow(cs[j + 1..]);
    assert cs == cs[..j] + ([REPLACEMENT] + cs[j + 1..]);
    a, b := before + ([0xFFFD] + after), before + ([0xD800] + after);
    ReplacedBetween(cs[..j], 0xFFFD, cs[j + 1..]);
    ReplacedBetween(cs[..j], 0xD800, cs[j + 1..]);
    assert a[|before|] != b[|before|];
  }

  lemma {:induction false} ReplacedBetween(before: seq<Scalar>, u: Unit, after: seq<Scalar>)
    requires u == 0xFFFD || u == 0xD800
    ensures ToScalars(FromScalars(before) + ([u] + FromScalars(after))) == before + ([REPLACEMENT] + after)
  {
    FromThenTo(before);
    FromThenTo(after);
    UnitsNeverStartLow(after);
    var all := FromScalars(before) + ([u] + FromScalars(after));
    ScalarsConcat(FromScalars(before), [u] + FromScalars(after), all);
    OneThen(u, FromScalars(after));
  }

  /** A string is told from every other by its encoding exactly when its surrogates are
      paired and it does not hold U+FFFD itself. */
  lemma {:induction false} IdentifiedExactlyWhen(s: seq<Unit>)
    ensures Identified(s) <==> WellFormed(s) && REPLACEMENT !in s
  {
    var cs := ToScalars(s);
    if WellFormed(s) && REPLACEMENT !in s {
      FreeOfReplacement(s);
      forall t: seq<Unit> | ToScalars(t) == cs ensures t == s {
        if !WellFormed(t) { IllFormedIsReplaced(t); }
        ToThenFrom(t);
        ToThenFrom(s);
      }
    } else {
      if REPLACEMENT in s { ReplacementIsKept(s); } else { IllFormedIsReplaced(s); }
      var j: nat :| j < |cs| && cs[j] == REPLACEMENT;
      var a, b := TwoStringsOf(cs, j);
    }
  }

  // --- bytes -----------------------------------------------------------------

  /** The last six bits of `n`, as a byte that continues a scalar. */
  function Continuation(n: nat): Byte { 0x80 + n % 0x40 }

  function EncodeScalar(c: Scalar): (bytes: seq<Byte>)
    ensures 1 <= |bytes| <= 4
  {
    var q := c / 0x40;
    if c < 0x80 then [c]
    else if c < 0x800 then [0xC0 + q, Continuation(c)]
    else if c < 0x10000 then [0xE0 + q / 0x40, Continuation(q), Continuation(c)]
    else [0xF0 + q / 0x40 / 0x40, Continuation(q / 0x40), Continuation(q), Continuation(c)]
  }

  function Encode(cs: seq<Scalar>): seq<Byte> {
    if cs == [] then [] else EncodeScalar(cs[0]) + Encode(cs[1..])
  }

  /** How many bytes a scalar takes, by its first. */
  function LengthOf(lead: Byte): nat {
    if lead < 0x80 then 1 else if lead < 0xE0 then 2 else if lead < 0xF0 then 3 else 4
  }

  /** The value of a scalar's bytes after the first, which contributes `lead`. */
  function ValueFrom(lead: int, rest: seq<Byte>): int
    decreases |rest|
  {
    if rest == [] then lead else ValueFrom(lead * 0x40 + Low(rest[0]), rest[1..])
  }

  function Low(b: int): int { b - 0x80 }

  function Lead(b: int): int {
    if b < 0x80 then b else if b < 0xE0 then b - 0xC0 else if b < 0xF0 then b - 0xE0 else b - 0xF0
  }

  /** The value the first scalar's bytes carry. */
  function ValueOf(b: seq<Byte>): int
    requires b != [] && |b| >= LengthOf(b[0])
  {
    ValueFrom(Lead(b[0]), b[1..LengthOf(b[0])])
  }

  /** The scalars of a byte string `Encode` makes. */
  function Decode(bytes: seq<Byte>): Option<seq<int>> {
    if bytes == [] then Some([])
    else if |bytes| < LengthOf(bytes[0]) then None
    else
      match Decode(bytes[LengthOf(bytes[0])..])
      case None => None
      case Some(rest) => Some([ValueOf(bytes)] + rest)
  }

  lemma {:induction false} SixBits(n: nat, rest: seq<Byte>)
    ensures ValueFrom(n / 0x40, [Continuation(n)] + rest) == ValueFrom(n, rest)
  {
    var all := [Continuation(n)] + rest;
    assert all[1..] == rest;
    assert Low(all[0]) == n % 0x40;
  }

  lemma {:induction false} ValueOfScalar(c: Scalar)
    ensures ValueFrom(Lead(EncodeScalar(c)[0]), EncodeScalar(c)[1..]) == c
    ensures LengthOf(EncodeScalar(c)[0]) == |EncodeScalar(c)|
  {
    var q := c / 0x40;
    var last := [Continuation(c)];
    assert last + [] == last;
    SixBits(c, []);
    if c < 0x800 {
    } else if c < 0x10000 {
      assert EncodeScalar(c)[1..] == [Continuation(q)] + last;
      SixBits(q, last);
    } else {
      assert EncodeScalar(c)[1..] == [Continuation(q / 0x40)] + ([Continuation(q)] + last);
      SixBits(q / 0x40, [Continuation(q)] + last);
      SixBits(q, last);
    }
  }

  /** A scalar takes the fewest bytes that hold it, one that leads and others that continue it
      (section 3 of RFC 3629). */
  lemma {:induction false} EncodesShortest(c: Scalar)
    ensures var bytes := EncodeScalar(c);
            && |bytes| == (if c < 0x80 then 1 else if c < 0x800 then 2 else if c < 0x10000 then 3 else 4)
            && (if c < 0x80 then bytes[0] == c
                else if c < 0x800 then 0xC0 <= bytes[0] < 0xE0
                else if c < 0x10000 then 0xE0 <= bytes[0] < 0xF0
                else 0xF0 <= bytes[0] < 0xF8)
            && forall i :: 1 <= i < |bytes| ==> 0x80 <= bytes[i] < 0xC0
  {
  }

  /** Pairs stand for the scalars past the first 65536, in order, from first to last. */
  lemma {:induction false} PairsInOrder(h1: Unit, l1: Unit, h2: Unit, l2: Unit)
    requires IsHigh(h1) && IsLow(l1) && IsHigh(h2) && IsLow(l2)
    ensures PairScalar(h1, l1) < PairScalar(h2, l2) <==> h1 < h2 || (h1 == h2 && l1 < l2)
    ensures PairScalar(0xD800, 0xDC00) == 0x10000 && PairScalar(0xDBFF, 0xDFFF) == 0x10FFFF
  {
  }

  lemma {:induction false} ScalarDecodes(c: Scalar, rest: seq<Byte>, bytes: seq<Byte>)
    requires bytes == EncodeScalar(c) + rest
    ensures LengthOf(bytes[0]) == |EncodeScalar(c)| && ValueOf(bytes) == c
    ensures bytes[LengthOf(bytes[0])..] == rest
  {
    ValueOfScalar(c);
    assert bytes[1..|EncodeScalar(c)|] == EncodeScalar(c)[1..];
  }

  lemma {:induction false} DecodeEncode(cs: seq<Scalar>)
    ensures Decode(Encode(cs)) == Some(cs)
  {
    if cs != [] {
      DecodeEncode(cs[1..]);
      ScalarDecodes(cs[0], Encode(cs[1..]), Encode(cs));
      var rest: seq<int> := cs[1..];
      assert [ValueOf(Encode(cs))] + rest == cs;
    }
  }

  lemma {:induction false} EncodeCons(c: Scalar, rest: seq<Scalar>, all: seq<Scalar>)
    requires all == [c] + rest
    ensures Encode(all) == EncodeScalar(c) + Encode(rest)
  {
    assert all[1..] == rest;
  }

  lemma {:induction false} EncodeConcat(a: seq<Scalar>, b: seq<Scalar>, all: seq<Scalar>)
    requires all == a + b
    ensures Encode(all) == Encode(a) + Encode(b)
    decreases |a|
  {
    if a == [] {
      assert all == b;
    } else {
      var rest := a[1..] + b;
      EncodeConcat(a[1..], b, rest);
      assert all == [a[0]] + rest;
      EncodeCons(a[0], rest, all);
      EncodeCons(a[0], a[1..], a);
      Reassociate(EncodeScalar(a[0]), Encode(a[1..]), Encode(b));
    }
  }

  /** `Buffer.from(s, "utf8")`. */
  function Bytes(s: seq<Unit>): seq<Byte> { Encode(ToScalars(s)) }

  lemma {:induction false} BytesConcat(a: seq<Unit>, b: seq<Unit>)
    requires b == [] || !IsLow(b[0])
    ensures Bytes(a + b) == Bytes(a) + Bytes(b)
  {
    ScalarsConcat(a, b, a + b);
    EncodeConcat(ToScalars(a), ToScalars(b), ToScalars(a + b));
  }
}
