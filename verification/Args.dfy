/** The scaffolder's `parseArgs`: an index loop that skips the value after `--dir`. */
module Args {
  import opened Text

  datatype ParsedArgs = ParsedArgs(projectName: string, dir: Option<string>, lockfile: bool)

  datatype Error = DirTwice | DirRequiresValue | UnknownFlag(flag: string) | MissingName | TooManyPositionals

  datatype Result<+T> = Ok(value: T) | Err(error: Error)

  const DIR := "--dir"
  const DIR_EQUALS := "--dir="
  const NO_LOCKFILE := "--no-lockfile"

  // --- what an argument list says --------------------------------------------

  datatype Item =
    | DirPair(pair: string)
    | DirEquals(given: string)
    | BareDir
    | NoLockfile
    | Unknown(flag: string)
    | Positional(name: string)

  predicate Dashed(a: string) { a != "" && a[0] == '-' }

  predicate HasValue(a: string) { DIR_EQUALS <= a }

  /** An argument standing by itself. */
  function ItemOf(a: string): Item {
    if HasValue(a) then DirEquals(a[|DIR_EQUALS|..])
    else if a == NO_LOCKFILE then NoLockfile
    else if Dashed(a) then Unknown(a)
    else Positional(a)
  }

  /** The items from left to right; `--dir` takes the next argument, whatever it is. */
  function Items(args: seq<string>): seq<Item> {
    if args == [] then []
    else if args[0] != DIR then [ItemOf(args[0])] + Items(args[1..])
    else if |args| == 1 then [BareDir]
    else [DirPair(args[1])] + Items(args[2..])
  }

  function ArgsOf(item: Item): seq<string> {
    match item
    case DirPair(value) => [DIR, value]
    case DirEquals(value) => [DIR_EQUALS + value]
    case BareDir => [DIR]
    case NoLockfile => [NO_LOCKFILE]
    case Unknown(flag) => [flag]
    case Positional(name) => [name]
  }

  function Written(items: seq<Item>): seq<string> {
    if items == [] then [] else ArgsOf(items[0]) + Written(items[1..])
  }

  predicate IsItem(item: Item) {
    match item
    case Unknown(flag) => Dashed(flag) && flag != DIR && flag != NO_LOCKFILE && !HasValue(flag)
    case Positional(name) => !Dashed(name)
    case _ => true
  }

  /** Items an argument list can say: only the last can be a `--dir` without its value. */
  predicate Sayable(items: seq<Item>) {
    && (forall i :: 0 <= i < |items| ==> IsItem(items[i]))
    && (forall i :: 0 <= i < |items| - 1 ==> !items[i].BareDir?)
  }

  lemma {:induction false} ItemOfIsWritten(a: string)
    requires a != DIR
    ensures ArgsOf(ItemOf(a)) == [a] && IsItem(ItemOf(a)) && !ItemOf(a).BareDir? && !ItemOf(a).DirPair?
  {
    if HasValue(a) { assert DIR_EQUALS + a[|DIR_EQUALS|..] == a; }
  }

  /** Every argument list says one list of items, which writes it. */
  lemma {:induction false} ItemsAreWritten(args: seq<string>)
    ensures Written(Items(args)) == args && Sayable(Items(args))
    decreases |args|
  {
    if args == [] {
    } else if args[0] != DIR {
      ItemsAreWritten(args[1..]);
      ItemOfIsWritten(args[0]);
      WrittenCons(ItemOf(args[0]), Items(args[1..]));
      assert args == [args[0]] + args[1..];
    } else if |args| == 1 {
      WrittenCons(BareDir, []);
      assert args == [DIR];
    } else {
      ItemsAreWritten(args[2..]);
      WrittenCons(DirPair(args[1]), Items(args[2..]));
      assert args == [DIR, args[1]] + args[2..];
    }
  }

  lemma {:induction false} WrittenCons(item: Item, rest: seq<Item>)
    ensures Written([item] + rest) == ArgsOf(item) + Written(rest)
  {
    assert ([item] + rest)[1..] == rest;
  }

  lemma {:induction false} DashedFlags(a: string)
    ensures (HasValue(a) || a == NO_LOCKFILE || a == DIR) ==> Dashed(a)
    ensures HasValue(a) ==> a != DIR && a != NO_LOCKFILE
  {
    assert DIR_EQUALS[0] == '-' && DIR_EQUALS[2] == 'd' && NO_LOCKFILE[2] == 'n';
    if HasValue(a) { assert a[0] == DIR_EQUALS[0] && a[2] == DIR_EQUALS[2] && |a| >= 6; }
  }

  lemma {:induction false} ItemOfWritten(item: Item)
    requires IsItem(item) && !item.BareDir? && !item.DirPair?
    ensures ArgsOf(item)[0] != DIR && ItemOf(ArgsOf(item)[0]) == item
  {
    var a := ArgsOf(item)[0];
    DashedFlags(a);
    if item.DirEquals? { assert a[|DIR_EQUALS|..] == item.given; }
  }

  lemma {:induction false} ItemsCons(item: Item, rest: seq<string>)
    requires IsItem(item) && !item.BareDir?
    ensures Items(ArgsOf(item) + rest) == [item] + Items(rest)
  {
    var args := ArgsOf(item) + rest;
    if item.DirPair? {
      assert args[2..] == rest;
    } else {
      ItemOfWritten(item);
      assert args[1..] == rest;
    }
  }

  /** And no other: writing items and reading them again gives the same items. */
  lemma {:induction false} WrittenAreItems(items: seq<Item>)
    requires Sayable(items)
    ensures Items(Written(items)) == items
  {
    if items == [] {
    } else if items[0].BareDir? {
      assert |items| == 1 && items == [BareDir];
      assert Written(items) == [DIR] + [];
    } else {
      WrittenAreItems(items[1..]);
      ItemsCons(items[0], Written(items[1..]));
    }
  }

  // --- the loop --------------------------------------------------------------

  datatype Progress = Progress(positionals: seq<string>, dir: Option<string>, dirSeen: bool, lockfile: bool)

  function TakeDir(p: Progress, value: string): Result<Progress> {
    if p.dirSeen then Err(DirTwice) else Ok(p.(dir := Some(value), dirSeen := true))
  }

  function Take(p: Progress, item: Item): Result<Progress> {
    match item
    case DirPair(value) => TakeDir(p, value)
    case DirEquals(value) => TakeDir(p, value)
    case BareDir => if p.dirSeen then Err(DirTwice) else Err(DirRequiresValue)
    case NoLockfile => Ok(p.(lockfile := false))
    case Unknown(flag) => Err(UnknownFlag(flag))
    case Positional(name) => Ok(p.(positionals := p.positionals + [name]))
  }

  function TakeAll(p: Progress, items: seq<Item>): Result<Progress>
    decreases |items|
  {
    if items == [] then Ok(p)
    else
      match Take(p, items[0])
      case Err(e) => Err(e)
      case Ok(next) => TakeAll(next, items[1..])
  }

  function Conclude(r: Result<Progress>): Result<ParsedArgs> {
    match r
    case Err(e) => Err(e)
    case Ok(p) =>
      if p.positionals == [] then Err(MissingName)
      else if |p.positionals| > 1 then Err(TooManyPositionals)
      else Ok(ParsedArgs(p.positionals[0], p.dir, p.lockfile))
  }

  const START := Progress([], None, false, true)

  function ParseItems(items: seq<Item>): Result<ParsedArgs> { Conclude(TakeAll(START, items)) }

  /** What the arguments from `i` on come to. */
  ghost function TakeFrom(p: Progress, args: seq<string>, i: nat): Result<Progress>
    requires i <= |args|
  {
    TakeAll(p, Items(args[i..]))
  }

  ghost function Then(r: Result<Progress>, args: seq<string>, i: nat): Result<Progress>
    requires i <= |args|
  {
    if r.Ok? then TakeFrom(r.value, args, i) else r
  }

  lemma {:induction false} TakeNext(p: Progress, item: Item, rest: seq<Item>)
    ensures TakeAll(p, [item] + rest) == (if Take(p, item).Ok? then TakeAll(Take(p, item).value, rest) else Take(p, item))
  {
    assert ([item] + rest)[1..] == rest;
  }

  /** The item at an index is taken, and the loop goes on after it. */
  lemma {:induction false} LoopStep(p: Progress, args: seq<string>, i: nat)
    requires i < |args|
    ensures TakeFrom(p, args, i) ==
            if args[i] != DIR then Then(Take(p, ItemOf(args[i])), args, i + 1)
            else if i + 1 == |args| then Take(p, BareDir)
            else Then(Take(p, DirPair(args[i + 1])), args, i + 2)
  {
    var rest := args[i..];
    assert rest[1..] == args[i + 1..];
    if args[i] != DIR {
      TakeNext(p, ItemOf(args[i]), Items(args[i + 1..]));
    } else if i + 1 < |args| {
      assert rest[2..] == args[i + 2..];
      TakeNext(p, DirPair(args[i + 1]), Items(args[i + 2..]));
    } else {
      TakeNext(p, BareDir, []);
      assert [BareDir] + [] == [BareDir];
    }
  }

  method ParseArgs(args: seq<string>) returns (r: Result<ParsedArgs>)
    ensures r == ParseItems(Items(args))
  {
    var positionals: seq<string> := [];
    var dir: Option<string>, dirSeen, lockfile := None, false, true;
    var i := 0;
    assert args[0..] == args;
    while i < |args|
      invariant 0 <= i <= |args|
      invariant TakeAll(START, Items(args)) == TakeFrom(Progress(positionals, dir, dirSeen, lockfile), args, i)
      decreases |args| - i
    {
      var a := args[i];
      LoopStep(Progress(positionals, dir, dirSeen, lockfile), args, i);
      if a == DIR {
        if dirSeen { return Err(DirTwice); }
        if i + 1 >= |args| { return Err(DirRequiresValue); }
        dir, dirSeen := Some(args[i + 1]), true;
        i := i + 1;
      } else if HasValue(a) {
        if dirSeen { return Err(DirTwice); }
        dir, dirSeen := Some(a[|DIR_EQUALS|..]), true;
      } else if a == NO_LOCKFILE {
        lockfile := false;
      } else if Dashed(a) {
        return Err(UnknownFlag(a));
      } else {
        positionals := positionals + [a];
      }
      i := i + 1;
    }
    if |positionals| == 0 { return Err(MissingName); }
    if |positionals| > 1 { return Err(TooManyPositionals); }
    return Ok(ParsedArgs(positionals[0], dir, lockfile));
  }

  // --- when it succeeds ------------------------------------------------------

  function NameIn(item: Item): seq<string> {
    if item.Positional? then [item.name] else []
  }

  function DirIn(item: Item): seq<string> {
    match item
    case DirPair(value) => [value]
    case DirEquals(value) => [value]
    case _ => []
  }

  function NamesOf(items: seq<Item>): seq<string> {
    if items == [] then [] else NameIn(items[0]) + NamesOf(items[1..])
  }

  function DirsOf(items: seq<Item>): seq<string> {
    if items == [] then [] else DirIn(items[0]) + DirsOf(items[1..])
  }

  /** The items that are refused by themselves. */
  predicate Refused(item: Item) { item.BareDir? || item.Unknown? }

  ghost predicate NoneRefused(items: seq<Item>) { forall item :: item in items ==> !Refused(item) }

  /** The items say this record. */
  ghost predicate Says(items: seq<Item>, r: ParsedArgs) {
    && NoneRefused(items)
    && NamesOf(items) == [r.projectName]
    && (if r.dir.None? then DirsOf(items) == [] else DirsOf(items) == [r.dir.value])
    && (r.lockfile <==> NoLockfile !in items)
  }

  lemma {:induction false} InCons<T>(x: T, rest: seq<T>, y: T)
    ensures y in [x] + rest <==> y == x || y in rest
  {
  }

  lemma {:induction false} NoneRefusedCons(item: Item, rest: seq<Item>)
    ensures NoneRefused([item] + rest) <==> !Refused(item) && NoneRefused(rest)
  {
    if NoneRefused([item] + rest) {
      InCons(item, rest, item);
      forall other | other in rest ensures !Refused(other) { InCons(item, rest, other); }
    } else {
      var other :| other in [item] + rest && Refused(other);
      InCons(item, rest, other);
    }
  }

  lemma {:induction false} TakesWhenSaid(p: Progress, items: seq<Item>)
    requires p.dir.Some? <==> p.dirSeen
    ensures TakeAll(p, items).Ok? <==> NoneRefused(items) && |DirsOf(items)| <= (if p.dirSeen then 0 else 1)
    decreases |items|
  {
    if items != [] {
      assert items == [items[0]] + items[1..];
      NoneRefusedCons(items[0], items[1..]);
      ListsOfOne(items[0]);
      ListsConcat([items[0]], items[1..]);
      var next := Take(p, items[0]);
      if next.Ok? { TakesWhenSaid(next.value, items[1..]); }
    }
  }

  /** The progress that taking all of the items leaves, when none is refused. */
  ghost function After(p: Progress, items: seq<Item>): Progress {
    Progress(p.positionals + NamesOf(items),
             if DirsOf(items) == [] then p.dir else Some(DirsOf(items)[0]),
             p.dirSeen || DirsOf(items) != [],
             p.lockfile && NoLockfile !in items)
  }

  lemma {:induction false} ListsOfOne(item: Item)
    ensures NamesOf([item]) == NameIn(item) && DirsOf([item]) == DirIn(item)
  {
    assert [item][1..] == [];
    assert NameIn(item) + [] == NameIn(item) && DirIn(item) + [] == DirIn(item);
  }

  lemma {:induction false} AfterCons(p: Progress, item: Item, rest: seq<Item>)
    requires Take(p, item).Ok?
    requires Take(p, item).value.dirSeen ==> DirsOf(rest) == []
    ensures After(p, [item] + rest) == After(Take(p, item).value, rest)
  {
    InCons(item, rest, NoLockfile);
    ListsConcat([item], rest);
    ListsOfOne(item);
    assert p.positionals + (NamesOf([item]) + NamesOf(rest)) == (p.positionals + NamesOf([item])) + NamesOf(rest);
    assert p.positionals + [] == p.positionals;
    assert [] + DirsOf(rest) == DirsOf(rest);
  }

  lemma {:induction false} TakesAsSaid(p: Progress, items: seq<Item>)
    requires (p.dir.Some? <==> p.dirSeen) && TakeAll(p, items).Ok?
    ensures TakeAll(p, items).value == After(p, items)
    decreases |items|
  {
    if items == [] {
      assert p.positionals + [] == p.positionals;
    } else {
      var next := Take(p, items[0]).value;
      TakesAsSaid(next, items[1..]);
      TakesWhenSaid(next, items[1..]);
      AfterCons(p, items[0], items[1..]);
      assert items == [items[0]] + items[1..];
    }
  }

  /** A list of arguments is accepted, as this record, exactly when it holds one project
      name, one directory at most, no flag without its value, and no other flag. */
  lemma {:induction false} AcceptsExactly(items: seq<Item>, r: ParsedArgs)
    ensures ParseItems(items) == Ok(r) <==> Says(items, r)
  {
    TakesWhenSaid(START, items);
    if TakeAll(START, items).Ok? {
      TakesAsSaid(START, items);
      assert [] + NamesOf(items) == NamesOf(items);
      ConcludesSaying(NamesOf(items), DirsOf(items), NoLockfile !in items, After(START, items), r);
    }
  }

  lemma {:induction false} ConcludesSaying(names: seq<string>, dirs: seq<string>, lockfile: bool, p: Progress,
                                           r: ParsedArgs)
    requires |dirs| <= 1
    requires p == Progress(names, if dirs == [] then None else Some(dirs[0]), dirs != [], lockfile)
    ensures Conclude(Ok(p)) == Ok(r) <==>
            && names == [r.projectName]
            && (if r.dir.None? then dirs == [] else dirs == [r.dir.value])
            && r.lockfile == lockfile
  {
    OneOrNot(names);
    OneOrNot(dirs);
  }

  lemma {:induction false} OneOrNot(parts: seq<string>)
    ensures |parts| == 1 ==> parts == [parts[0]]
  {
  }

  /** And refused by the first of these that applies, in the order of the arguments. */
  lemma {:induction false} FirstRefusalIsReported(p: Progress, items: seq<Item>) returns (k: nat)
    requires TakeAll(p, items).Err? && (p.dir.Some? <==> p.dirSeen)
    ensures k < |items| && TakeAll(p, items[..k]).Ok?
    ensures Take(TakeAll(p, items[..k]).value, items[k]) == Err(TakeAll(p, items).error)
    decreases |items|
  {
    var next := Take(p, items[0]);
    if next.Err? {
      k := 0;
    } else {
      var rest := FirstRefusalIsReported(next.value, items[1..]);
      k := rest + 1;
      assert items[..k][1..] == items[1..][..rest];
    }
  }

  predicate IsDir(item: Item) { item.DirPair? || item.DirEquals? || item.BareDir? }

  /** What is wrong with an item, after items that say `dirs` directories. */
  ghost predicate Explains(error: Error, item: Item, dirs: nat) {
    match error
    case DirTwice => IsDir(item) && dirs == 1
    case DirRequiresValue => item.BareDir? && dirs == 0
    case UnknownFlag(flag) => item == Unknown(flag)
    case _ => false
  }

  /** Every error explained: by the first item that cannot follow those before it — a
      second directory, a `--dir` with nothing after it, an unknown flag — or, when there
      is none, by how many names the items say. */
  lemma {:induction false} ErrorsAreExplained(items: seq<Item>) returns (k: nat)
    requires ParseItems(items).Err?
    ensures k <= |items| && NoneRefused(items[..k]) && |DirsOf(items[..k])| <= 1
    ensures k < |items| ==> Explains(ParseItems(items).error, items[k], |DirsOf(items[..k])|)
    ensures k == |items| ==>
              || (ParseItems(items).error == MissingName && NamesOf(items) == [])
              || (ParseItems(items).error == TooManyPositionals && |NamesOf(items)| > 1)
  {
    if TakeAll(START, items).Err? {
      k := FirstRefusalIsReported(START, items);
      TakesWhenSaid(START, items[..k]);
      TakesAsSaid(START, items[..k]);
    } else {
      k := |items|;
      assert items[..k] == items;
      TakesWhenSaid(START, items);
      TakesAsSaid(START, items);
      assert [] + NamesOf(items) == NamesOf(items);
    }
  }

  // --- order -----------------------------------------------------------------

  lemma {:induction false} ListsConcat(a: seq<Item>, b: seq<Item>)
    ensures NamesOf(a + b) == NamesOf(a) + NamesOf(b) && DirsOf(a + b) == DirsOf(a) + DirsOf(b)
  {
    if a == [] {
      assert a + b == b;
    } else {
      var rest := a[1..] + b;
      ListsConcat(a[1..], b);
      ListsCons(a[0], rest, a + b);
      Reassociated(NameIn(a[0]), NamesOf(a[1..]), NamesOf(b));
      Reassociated(DirIn(a[0]), DirsOf(a[1..]), DirsOf(b));
    }
  }

  lemma {:induction false} ListsCons(item: Item, rest: seq<Item>, all: seq<Item>)
    requires all == [item] + rest
    ensures NamesOf(all) == NameIn(item) + NamesOf(rest) && DirsOf(all) == DirIn(item) + DirsOf(rest)
  {
    assert all[1..] == rest;
  }

  lemma {:induction false} Reassociated<T>(a: seq<T>, b: seq<T>, c: seq<T>)
    ensures (a + b) + c == a + (b + c)
  {
  }

  lemma {:induction false} MiddleOut<T>(a: seq<T>, x: seq<T>, c: seq<T>)
    ensures multiset(a + (x + c)) == multiset(x) + multiset(a + c)
  {
  }

  lemma {:induction false} TakenOut(items: seq<Item>, k: nat, rest: seq<Item>)
    requires k < |items| && rest == items[..k] + items[k + 1..]
    ensures multiset(items) == multiset{items[k]} + multiset(rest)
    ensures multiset(NamesOf(items)) == multiset(NamesOf([items[k]])) + multiset(NamesOf(rest))
    ensures multiset(DirsOf(items)) == multiset(DirsOf([items[k]])) + multiset(DirsOf(rest))
  {
    var a, x, c := items[..k], [items[k]], items[k + 1..];
    assert items == a + (x + c);
    ListsConcat(a, x + c);
    ListsConcat(x, c);
    ListsConcat(a, c);
    MiddleOut(a, x, c);
    MiddleOut(NamesOf(a), NamesOf(x), NamesOf(c));
    MiddleOut(DirsOf(a), DirsOf(x), DirsOf(c));
  }

  lemma {:induction false} Cancel<T>(x: T, a: multiset<T>, b: multiset<T>)
    requires multiset{x} + a == multiset{x} + b
    ensures a == b
  {
    assert (multiset{x} + a) - multiset{x} == a && (multiset{x} + b) - multiset{x} == b;
  }

  lemma {:induction false} Position(item: Item, b: seq<Item>) returns (k: nat)
    requires item in multiset(b)
    ensures k < |b| && b[k] == item
  {
    assert item in b;
    k :| 0 <= k < |b| && b[k] == item;
  }

  lemma {:induction false} PermutedLists(a: seq<Item>, b: seq<Item>)
    requires multiset(a) == multiset(b)
    ensures multiset(NamesOf(a)) == multiset(NamesOf(b)) && multiset(DirsOf(a)) == multiset(DirsOf(b))
    decreases |a|
  {
    if a == [] {
      assert |b| == |multiset(b)| == 0;
    } else {
      assert a[0] in multiset(a);
      var k := Position(a[0], b);
      var rest, others := a[1..], b[..k] + b[k + 1..];
      assert rest == a[..0] + a[1..];
      TakenOut(a, 0, rest);
      TakenOut(b, k, others);
      Cancel(a[0], multiset(rest), multiset(others));
      PermutedLists(rest, others);
    }
  }

  lemma {:induction false} OneElement(a: seq<string>, s: string)
    requires multiset(a) == multiset([s])
    ensures a == [s]
  {
    assert |a| == |multiset(a)| == 1;
    assert a[0] in multiset(a);
  }

  /** Items in another order are accepted as the same record, or refused too. */
  lemma {:induction false} OrderDoesNotMatter(a: seq<Item>, b: seq<Item>, r: ParsedArgs)
    requires multiset(a) == multiset(b)
    ensures ParseItems(a) == Ok(r) <==> ParseItems(b) == Ok(r)
  {
    AcceptsExactly(a, r);
    AcceptsExactly(b, r);
    if Says(a, r) { SaysTheSame(a, b, r); }
    if Says(b, r) { SaysTheSame(b, a, r); }
  }

  lemma {:induction false} SaysTheSame(a: seq<Item>, b: seq<Item>, r: ParsedArgs)
    requires multiset(a) == multiset(b) && Says(a, r)
    ensures Says(b, r)
  {
    PermutedLists(a, b);
    assert forall item :: item in b <==> item in multiset(b);
    assert forall item :: item in a <==> item in multiset(a);
    OneElement(NamesOf(b), r.projectName);
    if r.dir.Some? {
      OneElement(DirsOf(b), r.dir.value);
    } else {
      assert |DirsOf(b)| == |multiset(DirsOf(b))| == 0;
    }
  }

  /** The flags, as they are written. */
  lemma {:induction false} FlagsAreRead(dir: string, equals: string, no: string, value: string)
    requires dir == "--dir" && equals == "--dir=" && no == "--no-lockfile"
    ensures Items([dir, value]) == [DirPair(value)] && Items([dir]) == [BareDir]
    ensures Items([equals + value]) == [DirEquals(value)] && Items([no]) == [NoLockfile]
  {
    assert [dir, value][2..] == [] && [equals + value][1..] == [] && [no][1..] == [];
    assert |equals + value| > 5 && (equals + value)[5] == '=' && (equals + value)[6..] == value;
    assert equals + value != dir && equals <= equals + value;
    assert no[2] == 'n' && !(equals <= no);
  }

  // --- a record, written -----------------------------------------------------

  function ItemsFor(r: ParsedArgs): seq<Item> {
    [Positional(r.projectName)]
    + (if r.dir.Some? then [DirPair(r.dir.value)] else [])
    + (if r.lockfile then [] else [NoLockfile])
  }

  lemma {:induction false} NamesAreNotDashed(items: seq<Item>)
    requires Sayable(items)
    ensures forall i :: 0 <= i < |NamesOf(items)| ==> !Dashed(NamesOf(items)[i])
  {
    if items != [] {
      assert IsItem(items[0]);
      NamesAreNotDashed(items[1..]);
    }
  }

  lemma {:induction false} ItemsForSay(r: ParsedArgs)
    ensures Says(ItemsFor(r), r)
  {
    var dirs := if r.dir.Some? then [DirPair(r.dir.value)] else [];
    var flags := if r.lockfile then [] else [NoLockfile];
    ListsConcat([Positional(r.projectName)] + dirs, flags);
    ListsConcat([Positional(r.projectName)], dirs);
  }

  /** A record written as arguments is read back as itself exactly when its project name
      does not begin with a dash. */
  lemma {:induction false} WrittenRecordIsReadBack(r: ParsedArgs)
    ensures ParseItems(Items(Written(ItemsFor(r)))) == Ok(r) <==> r.projectName == "" || r.projectName[0] != '-'
  {
    var args := Written(ItemsFor(r));
    if Dashed(r.projectName) {
      AcceptsExactly(Items(args), r);
      ItemsAreWritten(args);
      NamesAreNotDashed(Items(args));
    } else {
      WrittenAreItems(ItemsFor(r));
      ItemsForSay(r);
      AcceptsExactly(ItemsFor(r), r);
    }
  }
}
