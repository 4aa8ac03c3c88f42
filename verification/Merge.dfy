/** The merge of the collectors' attribute maps: arrays of one key concatenate, scalars
    of one key must agree. */
module Merge {
  import opened Text

  /** `Scalar` stands for any value that is not an array, equal when `Object.is` says so. */
  datatype Value = Scalar(id: int) | Array(items: seq<int>)

  datatype Entry = Entry(key: string, value: Value)

  datatype Merged = Attributes(attributes: map<string, Value>) | Conflict(key: string)

  /** The values written to one key, in collector order. */
  function Values(writes: seq<Entry>, key: string): seq<Value> {
    if writes == [] then []
    else
      var n := |writes| - 1;
      Values(writes[..n], key) + (if writes[n].key == key then [writes[n].value] else [])
  }

  function Flatten(maps: seq<seq<Entry>>): seq<Entry> {
    if maps == [] then [] else Flatten(maps[..|maps| - 1]) + maps[|maps| - 1]
  }

  /** What a key written these values holds: the last scalar, or the arrays written since
      it, concatenated. */
  function Final(values: seq<Value>): Option<Value> {
    if values == [] then None
    else
      var n := |values| - 1;
      match values[n]
      case Scalar(_) => Some(values[n])
      case Array(items) =>
        match Final(values[..n])
        case Some(Array(before)) => Some(Array(before + items))
        case _ => Some(values[n])
  }

  function LastScalar(values: seq<Value>): Option<int> {
    if values == [] then None
    else
      var n := |values| - 1;
      if values[n].Scalar? then Some(values[n].id) else LastScalar(values[..n])
  }

  predicate Agree(values: seq<Value>) {
    forall i, j :: 0 <= i < j < |values| && values[i].Scalar? && values[j].Scalar? ==> values[i] == values[j]
  }

  ghost predicate Consistent(writes: seq<Entry>) {
    forall key :: Agree(Values(writes, key))
  }

  // --- the two maps the loop keeps -------------------------------------------

  function Concat(parts: seq<seq<int>>): seq<int> {
    if parts == [] then [] else Concat(parts[..|parts| - 1]) + parts[|parts| - 1]
  }

  function Lookup<V>(m: map<string, V>, key: string): Option<V> {
    if key in m then Some(m[key]) else None
  }

  /** One key: `scalar` is the last scalar written to it, `parts` the arrays since. */
  ghost predicate HoldsAt(scalar: Option<int>, parts: Option<seq<seq<int>>>, values: seq<Value>) {
    && Agree(values)
    && scalar == LastScalar(values)
    && (parts.Some? <==> Final(values).Some? && Final(values).value.Array?)
    && (parts.Some? ==> Final(values) == Some(Array(Concat(parts.value))))
  }

  ghost predicate Holds(merged: map<string, int>, fragments: map<string, seq<seq<int>>>, writes: seq<Entry>) {
    forall key :: HoldsAt(Lookup(merged, key), Lookup(fragments, key), Values(writes, key))
  }

  lemma {:induction false} ValuesSnoc(writes: seq<Entry>, e: Entry, key: string)
    ensures Values(writes + [e], key) ==
            (if e.key == key then Values(writes, key) + [e.value] else Values(writes, key))
  {
    assert (writes + [e])[..|writes|] == writes;
    assert Values(writes, key) + [] == Values(writes, key);
  }

  lemma {:induction false} FinalSnoc(values: seq<Value>, v: Value)
    ensures Final(values + [v]) ==
            (if v.Scalar? then Some(v)
             else match Final(values)
                  case Some(Array(before)) => Some(Array(before + v.items))
                  case _ => Some(v))
    ensures LastScalar(values + [v]) == if v.Scalar? then Some(v.id) else LastScalar(values)
  {
    assert (values + [v])[..|values|] == values;
  }

  lemma {:induction false} LastScalarIsOne(values: seq<Value>) returns (i: nat)
    requires LastScalar(values).Some?
    ensures i < |values| && values[i] == Scalar(LastScalar(values).value)
  {
    var n := |values| - 1;
    if values[n].Scalar? { i := n; } else { i := LastScalarIsOne(values[..n]); }
  }

  lemma {:induction false} SomeScalar(values: seq<Value>, i: nat)
    requires i < |values| && values[i].Scalar?
    ensures LastScalar(values).Some?
  {
    if !values[|values| - 1].Scalar? { SomeScalar(values[..|values| - 1], i); }
  }

  /** A further value agrees with what is there exactly when it is an array, the first
      scalar, or the last scalar again. */
  lemma {:induction false} AgreeSnoc(values: seq<Value>, v: Value)
    requires Agree(values)
    ensures Agree(values + [v]) <==>
            v.Array? || LastScalar(values).None? || LastScalar(values).value == v.id
  {
    var all := values + [v];
    if v.Scalar? && LastScalar(values).Some? {
      var i := LastScalarIsOne(values);
      assert all[i] == values[i] && all[|values|] == v;
      if LastScalar(values).value == v.id {
        forall k | 0 <= k < |values| && values[k].Scalar? ensures values[k] == v {
          assert k < i ==> values[k] == values[i];
        }
      }
    } else if v.Scalar? {
      forall k | 0 <= k < |values| ensures !values[k].Scalar? {
        if values[k].Scalar? { SomeScalar(values, k); }
      }
    }
  }

  lemma {:induction false} AgreePrefix(writes: seq<Entry>, more: seq<Entry>, key: string)
    requires Agree(Values(writes + more, key))
    ensures Agree(Values(writes, key))
    decreases |more|
  {
    if more == [] {
      assert writes + more == writes;
    } else {
      var n := |more| - 1;
      assert writes + more == (writes + more[..n]) + [more[n]];
      ValuesSnoc(writes + more[..n], more[n], key);
      var shorter, longer := Values(writes + more[..n], key), Values(writes + more, key);
      assert forall i :: 0 <= i < |shorter| ==> shorter[i] == longer[i];
      AgreePrefix(writes, more[..n], key);
    }
  }

  lemma {:induction false} HoldsAtScalar(scalar: Option<int>, parts: Option<seq<seq<int>>>, values: seq<Value>, id: int)
    requires HoldsAt(scalar, parts, values) && (scalar.None? || scalar.value == id)
    ensures HoldsAt(Some(id), None, values + [Scalar(id)])
  {
    AgreeSnoc(values, Scalar(id));
    FinalSnoc(values, Scalar(id));
  }

  lemma {:induction false} HoldsAtArray(scalar: Option<int>, parts: Option<seq<seq<int>>>, values: seq<Value>,
                                        items: seq<int>)
    requires HoldsAt(scalar, parts, values)
    ensures HoldsAt(scalar, Some(parts.GetOr([]) + [items]), values + [Array(items)])
  {
    var before := parts.GetOr([]);
    AgreeSnoc(values, Array(items));
    FinalSnoc(values, Array(items));
    assert (before + [items])[..|before|] == before;
    assert [] + items == items;
  }

  lemma {:induction false} HoldsScalar(merged: map<string, int>, fragments: map<string, seq<seq<int>>>,
                                       writes: seq<Entry>, e: Entry, all: seq<Entry>)
    requires Holds(merged, fragments, writes) && all == writes + [e] && e.value.Scalar?
    requires e.key in merged ==> merged[e.key] == e.value.id
    ensures Holds(merged[e.key := e.value.id], fragments - {e.key}, all)
  {
    forall key ensures HoldsAt(Lookup(merged[e.key := e.value.id], key), Lookup(fragments - {e.key}, key), Values(all, key)) {
      assert HoldsAt(Lookup(merged, key), Lookup(fragments, key), Values(writes, key));
      ValuesSnoc(writes, e, key);
      if e.key == key { HoldsAtScalar(Lookup(merged, key), Lookup(fragments, key), Values(writes, key), e.value.id); }
    }
  }

  lemma {:induction false} HoldsArray(merged: map<string, int>, fragments: map<string, seq<seq<int>>>,
                                      writes: seq<Entry>, e: Entry, all: seq<Entry>)
    requires Holds(merged, fragments, writes) && all == writes + [e] && e.value.Array?
    ensures Holds(merged, fragments[e.key := Lookup(fragments, e.key).GetOr([]) + [e.value.items]], all)
  {
    var grown := fragments[e.key := Lookup(fragments, e.key).GetOr([]) + [e.value.items]];
    forall key ensures HoldsAt(Lookup(merged, key), Lookup(grown, key), Values(all, key)) {
      assert HoldsAt(Lookup(merged, key), Lookup(fragments, key), Values(writes, key));
      ValuesSnoc(writes, e, key);
      if e.key == key { HoldsAtArray(Lookup(merged, key), Lookup(fragments, key), Values(writes, key), e.value.items); }
    }
  }

  /** One map's entries, written over what the maps before it left. */
  method MergeMap(entries: seq<Entry>, merged0: map<string, int>, fragments0: map<string, seq<seq<int>>>, ghost before: seq<Entry>)
    returns (conflict: Option<string>, merged: map<string, int>, fragments: map<string, seq<seq<int>>>, ghost k: nat)
    requires Holds(merged0, fragments0, before)
    ensures conflict.None? ==> Holds(merged, fragments, before + entries)
    ensures conflict.Some? ==>
              && k < |entries| && entries[k].key == conflict.value && entries[k].value.Scalar?
              && Agree(Values(before + entries[..k], conflict.value))
              && LastScalar(Values(before + entries[..k], conflict.value)).Some?
              && LastScalar(Values(before + entries[..k], conflict.value)).value != entries[k].value.id
  {
    merged, fragments, k := merged0, fragments0, 0;
    assert before + entries[..0] == before;
    for i := 0 to |entries|
      invariant Holds(merged, fragments, before + entries[..i])
    {
      var entry := entries[i];
      ghost var writes, all := before + entries[..i], before + entries[..i + 1];
      assert all == writes + [entry];
      match entry.value {
        case Array(items) =>
          HoldsArray(merged, fragments, writes, entry, all);
          fragments := fragments[entry.key := Lookup(fragments, entry.key).GetOr([]) + [items]];
        case Scalar(id) =>
          if entry.key in merged && merged[entry.key] != id {
            assert HoldsAt(Lookup(merged, entry.key), Lookup(fragments, entry.key), Values(writes, entry.key));
            conflict, k := Some(entry.key), i;
            return;
          }
          HoldsScalar(merged, fragments, writes, entry, all);
          fragments := fragments - {entry.key};
          merged := merged[entry.key := id];
      }
    }
    assert entries[..|entries|] == entries;
    conflict := None;
  }

  /** Merging fails exactly when some key was written two different scalars, naming such
      a key; otherwise every key written holds its `Final` value, and no other key does. */
  method MergeMaps(maps: seq<seq<Entry>>) returns (r: Merged)
    ensures r.Conflict? <==> !Consistent(Flatten(maps))
    ensures r.Conflict? ==> !Agree(Values(Flatten(maps), r.key))
    ensures r.Attributes? ==>
              forall key :: if key in r.attributes then Final(Values(Flatten(maps), key)) == Some(r.attributes[key])
                            else Values(Flatten(maps), key) == []
  {
    var merged: map<string, int> := map[];
    var fragments: map<string, seq<seq<int>>> := map[];
    for m := 0 to |maps|
      invariant Holds(merged, fragments, Flatten(maps[..m]))
    {
      assert maps[..m + 1][..m] == maps[..m];
      var conflict;
      ghost var k;
      conflict, merged, fragments, k := MergeMap(maps[m], merged, fragments, Flatten(maps[..m]));
      if conflict.Some? {
        ConflictStays(maps, m, k);
        return Conflict(conflict.value);
      }
    }
    assert maps[..|maps|] == maps;
    HeldIsFinal(merged, fragments, Flatten(maps));
    return Attributes((map key | key in merged :: Scalar(merged[key])) +
                      (map key | key in fragments :: Array(Concat(fragments[key]))));
  }

  lemma {:induction false} FlattenConcat(a: seq<seq<Entry>>, b: seq<seq<Entry>>)
    ensures Flatten(a + b) == Flatten(a) + Flatten(b)
    decreases |b|
  {
    if b == [] {
      assert a + b == a;
    } else {
      var n := |b| - 1;
      assert (a + b)[..|a| + n] == a + b[..n];
      FlattenConcat(a, b[..n]);
    }
  }

  lemma {:induction false} ConflictStays(maps: seq<seq<Entry>>, m: nat, k: nat)
    requires m < |maps| && k < |maps[m]|
    requires var entry, values := maps[m][k], Values(Flatten(maps[..m]) + maps[m][..k], maps[m][k].key);
             && entry.value.Scalar? && Agree(values)
             && LastScalar(values).Some? && LastScalar(values).value != entry.value.id
    ensures !Agree(Values(Flatten(maps), maps[m][k].key))
  {
    var entry, writes := maps[m][k], Flatten(maps[..m]) + maps[m][..k];
    var more := maps[m][k + 1..] + Flatten(maps[m + 1..]);
    ValuesSnoc(writes, entry, entry.key);
    AgreeSnoc(Values(writes, entry.key), entry.value);
    assert Flatten(maps) == writes + [entry] + more by { RestOf(maps, m, k); }
    if Agree(Values(Flatten(maps), entry.key)) { AgreePrefix(writes + [entry], more, entry.key); }
  }

  lemma {:induction false} RestOf(maps: seq<seq<Entry>>, m: nat, k: nat)
    requires m < |maps| && k < |maps[m]|
    ensures Flatten(maps) ==
            Flatten(maps[..m]) + maps[m][..k] + [maps[m][k]] + (maps[m][k + 1..] + Flatten(maps[m + 1..]))
  {
    FlattenConcat(maps[..m + 1], maps[m + 1..]);
    assert maps == maps[..m + 1] + maps[m + 1..];
    assert maps[..m + 1][..m] == maps[..m];
    assert maps[m] == maps[m][..k] + [maps[m][k]] + maps[m][k + 1..];
  }

  /** What the two maps hold at the end is the final value of every key. */
  lemma {:induction false} HeldIsFinal(merged: map<string, int>, fragments: map<string, seq<seq<int>>>,
                                       writes: seq<Entry>)
    requires Holds(merged, fragments, writes)
    ensures Consistent(writes)
    ensures forall key :: key in fragments ==> Final(Values(writes, key)) == Some(Array(Concat(fragments[key])))
    ensures forall key :: key !in fragments && key in merged ==> Final(Values(writes, key)) == Some(Scalar(merged[key]))
    ensures forall key :: key !in fragments && key !in merged ==> Values(writes, key) == []
  {
    forall key
      ensures Agree(Values(writes, key))
      ensures key in fragments ==> Final(Values(writes, key)) == Some(Array(Concat(fragments[key])))
      ensures key !in fragments && key in merged ==> Final(Values(writes, key)) == Some(Scalar(merged[key]))
      ensures key !in fragments && key !in merged ==> Values(writes, key) == []
    {
      assert HoldsAt(Lookup(merged, key), Lookup(fragments, key), Values(writes, key));
    }
  }

  // --- what the two kinds of key come to --------------------------------------

  function Items(values: seq<Value>): seq<int>
    requires forall i :: 0 <= i < |values| ==> values[i].Array?
  {
    if values == [] then [] else Items(values[..|values| - 1]) + values[|values| - 1].items
  }

  /** A key only arrays were written to holds them all, concatenated in collector order. */
  lemma {:induction false} ArraysUnite(values: seq<Value>)
    requires values != [] && forall i :: 0 <= i < |values| ==> values[i].Array?
    ensures Final(values) == Some(Array(Items(values)))
  {
    var n := |values| - 1;
    if n > 0 {
      ArraysUnite(values[..n]);
    } else {
      assert values[..n] == [];
      assert Items([]) + values[0].items == values[0].items;
    }
  }

  /** A key only scalars were written to, all the same, holds that one. */
  lemma {:induction false} ScalarsStand(values: seq<Value>, i: nat)
    requires Agree(values) && i < |values| && forall k :: 0 <= k < |values| ==> values[k].Scalar?
    ensures Final(values) == Some(values[i])
  {
    var n := |values| - 1;
    assert i < n ==> values[i] == values[n];
  }
}
