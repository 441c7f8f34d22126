/** Every key of a flattened tree is a path through that tree, and holds what the tree has there. */
module Paths {
  import opened Text
  import opened Outcomes
  import opened OrderedDict
  import opened Flatten
  import opened FlattenLaws

  function Lookup<V>(d: Dict<string, V>, k: string): Option<V> {
    if Has(d, k) then Some(Get(d, k)) else None
  }

  // ---------- reading the tree along a dotted key ----------

  /** What a tree has at a dotted key: a name leads to an attribute, a printed index to an item of a list. */
  function ValueAt(v: Value, k: string, draw: Draw): Option<Value>
    requires Convertible(v)
    decreases v, 1
  {
    match v
    case Str(_) => if k == ToDecimal(draw("")) then Some(v) else None
    case Object(fields) => FieldsAt(fields, k, draw)
  }

  function FieldsAt(fields: seq<Field>, k: string, draw: Draw): Option<Value>
    requires ConvertibleFields(fields)
    decreases fields, 1
  {
    if fields == [] then None
    else if fields[0].name == Head(k) then FieldAt(fields[0], k, draw)
    else FieldsAt(fields[1..], k, draw)
  }

  /** Below a list there are its length, if it is not empty, and its items; below a dictionary value its entries. */
  function FieldAt(f: Field, k: string, draw: Draw): Option<Value>
    requires f.value.List? ==> ConvertibleItems(f.value.items)
    decreases f, 1
  {
    match f.value
    case List(items) =>
      var below := Tail(k);
      if below.None? then None
      else if below.value == "#" then if items == [] then None else Some(Int(|items|))
      else ItemsAt(items, 0, below.value, Below(draw, f.name + "."))
    case Object(inner) => if Tail(k).None? then None else EntryAt(inner, Tail(k).value)
    case value => if k == f.name then Some(value) else None
  }

  function ItemsAt(items: seq<Value>, i: nat, k: string, draw: Draw): Option<Value>
    requires ConvertibleItems(items)
    decreases items, 1
  {
    if items == [] || Tail(k).None? then None
    else if Head(k) == ToDecimal(i) then ValueAt(items[0], Tail(k).value, Below(draw, ToDecimal(i) + "."))
    else ItemsAt(items[1..], i + 1, k, draw)
  }

  /** The entry of that name; the length stands under `%` unless an entry does. */
  function EntryAt(inner: seq<Field>, k: string): Option<Value> {
    var named := Named(inner, k);
    if named.None? && k == "%" then Some(Int(|inner|)) else named
  }

  function Named(inner: seq<Field>, k: string): Option<Value> {
    if inner == [] then None else if inner[0].name == k then Some(inner[0].value) else Named(inner[1..], k)
  }

  /** What stands behind the first dot. */
  function Tail(k: string): Option<string> {
    match SplitFirst(k, '.')
    case None => None
    case Some((_, below)) => Some(below)
  }

  // ---------- looking up in collected assignments ----------

  lemma {:induction false} LookupAppend(a: Flat, b: Flat, k: string)
    ensures Lookup(a + b, k) == if Has(a, k) then Lookup(a, k) else Lookup(b, k)
  {
    var all := a + b;
    if Has(a, k) {
      IndexIs(all, k, IndexOf(a, k));
    } else {
      assert forall i :: 0 <= i < |a| ==> all[i] == a[i];
      IndexIs(all, k, |a| + IndexOf(b, k));
    }
  }

  lemma {:induction false} LookupBlocks(a: Flat, b: Flat, head: string, k: string)
    requires AllHead(a, head) && NoHead(b, head)
    ensures Lookup(PutAll([], a + b), k)
         == if Head(k) == head then Lookup(PutAll([], a), k) else Lookup(PutAll([], b), k)
  {
    hide Head, PutAll;
    CollectBlocks(a, b, head);
    HeadsOfCollected(a, head);
    HeadsOfCollected(b, head);
    LookupAppend(PutAll([], a), PutAll([], b), k);
  }

  lemma {:induction false} LookupNoHead(writes: Flat, k: string)
    requires NoHead(writes, Head(k))
    ensures Lookup(PutAll([], writes), k) == None
  {
    hide PutAll;
    HeadsOfCollected(writes, Head(k));
  }

  lemma {:induction false} LookupPrefixed(q: string, d: Flat, k: string)
    ensures Lookup(Prefixed(q, d), q + k) == Lookup(d, k)
  {
    var pd, i := Prefixed(q, d), IndexOf(d, k);
    forall j | 0 <= j < i ensures pd[j].key != q + k {
      assert pd[j].key[|q|..] == d[j].key && (q + k)[|q|..] == k;
    }
    IndexIs(pd, q + k, i);
  }

  /** Below a name, a key is found exactly behind its dot. */
  lemma {:induction false} LookupBelow(name: string, writes: Flat, k: string)
    requires '.' !in name && Head(k) == name
    ensures Lookup(PutAll([], Prefixed(name + ".", writes)), k)
         == if Tail(k).None? then None else Lookup(PutAll([], writes), Tail(k).value)
  {
    var q := name + ".";
    var d := PutAll([], writes);
    CollectPrefixed(q, [], writes);
    if Tail(k).None? {
      forall i | 0 <= i < |d| ensures Prefixed(q, d)[i].key != k {
        assert (q + d[i].key)[|name|] == '.';
      }
    } else {
      assert k == q + Tail(k).value;
      LookupPrefixed(q, d, Tail(k).value);
    }
  }

  lemma {:induction false} LookupOne(k: string, v: Value, x: string)
    ensures Lookup(PutAll([], [Entry(k, v)]), x) == if x == k then Some(v) else None
  {
    PutAllOne<string, Value>([], k, v);
    assert Put([], k, v) == [Entry(k, v)];
  }

  // ---------- the tree and its flattening agree ----------

  lemma {:induction false} LookupValue(v: Value, k: string, draw: Draw)
    requires Convertible(v) && WellNamed(v)
    ensures Lookup(Convert(v, "", draw), k) == ValueAt(v, k, draw)
    decreases v, 1
  {
    match v
    case Str(_) =>
      assert "" + ToDecimal(draw("")) == ToDecimal(draw(""));
      LookupOne(ToDecimal(draw("")), v, k);
    case Object(fields) => LookupFields(fields, k, draw);
  }

  lemma {:induction false} LookupFields(fields: seq<Field>, k: string, draw: Draw)
    requires ConvertibleFields(fields) && WellNamedFields(fields) && PlainNames(fields)
    ensures Lookup(PutAll([], FieldsWrites(fields, "", draw)), k) == FieldsAt(fields, k, draw)
    decreases fields, 1
  {
    hide FieldWrites, FieldAt, PutAll, Head;
    if fields == [] {
      LookupNothing(k);
    } else {
      FieldHeads(fields[0], draw);
      FieldsNoHead(fields[1..], fields[0].name, draw);
      LookupBlocks(FieldWrites(fields[0], "", draw), FieldsWrites(fields[1..], "", draw), fields[0].name, k);
      if Head(k) == fields[0].name {
        LookupField(fields[0], k, draw);
      } else {
        LookupFields(fields[1..], k, draw);
      }
    }
  }

  lemma {:induction false} LookupNothing(k: string)
    ensures Lookup(PutAll<string, Value>([], []), k) == None
  {
  }

  lemma {:induction false} LookupField(f: Field, k: string, draw: Draw)
    requires f.value.List? ==> ConvertibleItems(f.value.items)
    requires WellNamedField(f) && '.' !in f.name && Head(k) == f.name
    ensures Lookup(PutAll([], FieldWrites(f, "", draw)), k) == FieldAt(f, k, draw)
    decreases f, 1
  {
    hide PutAll, ItemsWrites, EntriesWrites, ItemsAt, EntryAt;
    if f.value.List? || f.value.Object? {
      var d := Below(draw, f.name + ".");
      FieldIsPrefixed(f, draw);
      LookupBelow(f.name, BelowField(f, d), k);
      if Tail(k).Some? {
        match f.value
        case List(items) => LookupList(items, Tail(k).value, d);
        case Object(inner) => LookupDict(inner, Tail(k).value);
      }
    } else {
      assert "" + f.name == f.name;
      LookupOne(f.name, f.value, k);
    }
  }

  lemma {:induction false} LookupList(items: seq<Value>, k: string, draw: Draw)
    requires ConvertibleItems(items) && WellNamedItems(items)
    ensures var count := if items == [] then [] else [Entry("#", Int(|items|))];
      Lookup(PutAll([], count + ItemsWrites(items, 0, "", draw)), k)
      == if k == "#" then if items == [] then None else Some(Int(|items|)) else ItemsAt(items, 0, k, draw)
    decreases items, 2
  {
    hide PutAll, ItemsWrites, ItemsAt;
    var count := if items == [] then [] else [Entry("#", Int(|items|))];
    CountIsApart(items, draw);
    LookupBlocks(count, ItemsWrites(items, 0, "", draw), "#", k);
    LookupNothing(k);
    LookupOne("#", Int(|items|), k);
    LookupItems(items, 0, k, draw);
    if Head(k) == "#" {
      LookupNoHead(ItemsWrites(items, 0, "", draw), k);
    }
    assert Head("#") == "#";
  }

  lemma {:induction false} LookupItems(items: seq<Value>, i: nat, k: string, draw: Draw)
    requires ConvertibleItems(items) && WellNamedItems(items)
    ensures Lookup(PutAll([], ItemsWrites(items, i, "", draw)), k) == ItemsAt(items, i, k, draw)
    decreases items, 1
  {
    hide PutAll, Head, Tail, Writes, ValueAt;
    if items == [] {
      LookupNothing(k);
    } else {
      var q := ToDecimal(i) + ".";
      ItemHeads(items[0], i, draw);
      LaterItemsApart(items[1..], i, draw);
      LookupBlocks(Writes(items[0], q, draw), ItemsWrites(items[1..], i + 1, "", draw), ToDecimal(i), k);
      if Head(k) == ToDecimal(i) {
        DigitsOnly(ToDecimal(i), '.');
        LookupBelow(ToDecimal(i), Writes(items[0], "", Below(draw, q)), k);
        if Tail(k).Some? {
          LookupValue(items[0], Tail(k).value, Below(draw, q));
        }
      } else {
        LookupItems(items[1..], i + 1, k, draw);
      }
      if Tail(k).None? {
        NothingWithoutTail(items[1..], i + 1, k, draw);
      }
    }
  }

  lemma {:induction false} NothingWithoutTail(items: seq<Value>, i: nat, k: string, draw: Draw)
    requires ConvertibleItems(items) && Tail(k).None?
    ensures ItemsAt(items, i, k, draw) == None
  {
  }

  lemma {:induction false} LookupDict(inner: seq<Field>, k: string)
    requires DistinctNames(inner)
    ensures Lookup(PutAll([], [Entry("%", Int(|inner|))] + EntriesWrites(inner, "")), k) == EntryAt(inner, k)
  {
    hide PutAll, EntriesWrites;
    var marker, entries := [Entry("%", Int(|inner|))], EntriesWrites(inner, "");
    EntriesAre(inner);
    PutAllAppend([], marker, entries);
    PutAllOne<string, Value>([], "%", Int(|inner|));
    assert Put([], "%", Int(|inner|)) == marker;
    LookupOverwritten(marker, inner, entries, k);
  }

  lemma {:induction false} LookupOverwritten(d: Flat, inner: seq<Field>, entries: Flat, k: string)
    requires DistinctNames(inner) && |entries| == |inner|
    requires forall i :: 0 <= i < |inner| ==> entries[i] == Entry(inner[i].name, inner[i].value)
    ensures Lookup(PutAll(d, entries), k) == if Named(inner, k).None? then Lookup(d, k) else Named(inner, k)
    decreases |inner|
  {
    if inner != [] {
      var name, value := inner[0].name, inner[0].value;
      LookupOverwritten(Put(d, name, value), inner[1..], entries[1..], k);
      LookupPut(d, name, value, k);
      if name == k {
        NotNamed(inner[1..], k);
      }
    }
  }

  lemma {:induction false} NotNamed(inner: seq<Field>, k: string)
    requires forall i :: 0 <= i < |inner| ==> inner[i].name != k
    ensures Named(inner, k) == None
  {
    if inner != [] {
      NotNamed(inner[1..], k);
    }
  }

  lemma {:induction false} LookupPut(d: Flat, name: string, value: Value, k: string)
    ensures Lookup(Put(d, name, value), k) == if k == name then Some(value) else Lookup(d, k)
  {
    var d', i := Put(d, name, value), IndexOf(d, k);
    if k == name {
      IndexIs(d', k, i);
    } else if i < |d| {
      IndexIs(d', k, i);
    } else {
      IndexIs(d', k, |d'|);
    }
  }

  /**
   The flattening of a well-named tree under any prefix is that tree, read along dotted keys: every leaf and every
   length stands under the one key that is its path, and no other key is there, whatever numbers are drawn.
   */
  lemma {:induction false} FlatKeysArePaths(v: Value, prefix: string, k: string, draw: Draw)
    requires Convertible(v) && WellNamed(v)
    ensures Lookup(Convert(v, prefix, draw), prefix + k) == ValueAt(v, k, Below(draw, prefix))
    ensures forall i :: 0 <= i < |Convert(v, prefix, draw)| ==> prefix <= Convert(v, prefix, draw)[i].key
  {
    hide Convert, ValueAt, WellNamed;
    ConvertUnderPrefix(v, prefix, draw);
    LookupPrefixed(prefix, Convert(v, "", Below(draw, prefix)), k);
    LookupValue(v, k, Below(draw, prefix));
  }
}
