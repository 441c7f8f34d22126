/** Flattening under a prefix, block by block, and without loss. */
module FlattenLaws {
  import opened Text
  import opened OrderedDict
  import opened Flatten

  // ---------- prefixes ----------

  function Prefixed(q: string, d: Flat): (r: Flat)
    ensures |r| == |d| && forall i :: 0 <= i < |d| ==> r[i] == Entry(q + d[i].key, d[i].value)
  {
    if d == [] then [] else [Entry(q + d[0].key, d[0].value)] + Prefixed(q, d[1..])
  }

  /** The draws as seen from below a prefix. */
  function Below(draw: Draw, q: string): Draw {
    (x: string) => draw(q + x)
  }

  lemma {:induction false} PrefixedAppend(q: string, a: Flat, b: Flat)
    ensures Prefixed(q, a + b) == Prefixed(q, a) + Prefixed(q, b)
  {
    forall i | 0 <= i < |a + b| ensures Prefixed(q, a + b)[i] == (Prefixed(q, a) + Prefixed(q, b))[i] {
      assert (a + b)[i] == if i < |a| then a[i] else b[i - |a|];
    }
  }

  /** Flattening under a prefix is flattening below it and prefixing every key. */
  lemma {:induction false} WritesUnderPrefix(v: Value, q: string, p: string, draw: Draw)
    requires Convertible(v)
    ensures Writes(v, q + p, draw) == Prefixed(q, Writes(v, p, Below(draw, q)))
    decreases v, 1
  {
    match v
    case Str(_) => assert q + p + ToDecimal(draw(q + p)) == q + (p + ToDecimal(draw(q + p)));
    case Object(fields) => FieldsUnderPrefix(fields, q, p, draw);
  }

  lemma {:induction false} FieldsUnderPrefix(fields: seq<Field>, q: string, p: string, draw: Draw)
    requires ConvertibleFields(fields)
    ensures FieldsWrites(fields, q + p, draw) == Prefixed(q, FieldsWrites(fields, p, Below(draw, q)))
    decreases fields, 1
  {
    if fields != [] {
      FieldUnderPrefix(fields[0], q, p, draw);
      FieldsUnderPrefix(fields[1..], q, p, draw);
      PrefixedAppend(q, FieldWrites(fields[0], p, Below(draw, q)), FieldsWrites(fields[1..], p, Below(draw, q)));
    }
  }

  lemma {:induction false} FieldUnderPrefix(f: Field, q: string, p: string, draw: Draw)
    requires f.value.List? ==> ConvertibleItems(f.value.items)
    ensures FieldWrites(f, q + p, draw) == Prefixed(q, FieldWrites(f, p, Below(draw, q)))
    decreases f, 1
  {
    var n := f.name;
    assert q + p + n + ".#" == q + (p + n + ".#") && q + p + n + ".%" == q + (p + n + ".%");
    assert q + p + n + "." == q + (p + n + ".") && q + p + n == q + (p + n);
    match f.value
    case List(items) =>
      ItemsUnderPrefix(items, 0, q, p + n + ".", draw);
      var count := if items == [] then [] else [Entry(p + n + ".#", Int(|items|))];
      PrefixedAppend(q, count, ItemsWrites(items, 0, p + n + ".", Below(draw, q)));
    case Object(inner) =>
      EntriesUnderPrefix(inner, q, p + n + ".");
      PrefixedAppend(q, [Entry(p + n + ".%", Int(|inner|))], EntriesWrites(inner, p + n + "."));
    case _ =>
  }

  lemma {:induction false} ItemsUnderPrefix(items: seq<Value>, i: nat, q: string, p: string, draw: Draw)
    requires ConvertibleItems(items)
    ensures ItemsWrites(items, i, q + p, draw) == Prefixed(q, ItemsWrites(items, i, p, Below(draw, q)))
    decreases items, 1
  {
    if items != [] {
      var here := p + ToDecimal(i) + ".";
      assert q + p + ToDecimal(i) + "." == q + here;
      WritesUnderPrefix(items[0], q, here, draw);
      ItemsUnderPrefix(items[1..], i + 1, q, p, draw);
      PrefixedAppend(q, Writes(items[0], here, Below(draw, q)), ItemsWrites(items[1..], i + 1, p, Below(draw, q)));
    }
  }

  lemma {:induction false} EntriesUnderPrefix(inner: seq<Field>, q: string, p: string)
    ensures EntriesWrites(inner, q + p) == Prefixed(q, EntriesWrites(inner, p))
  {
    if inner != [] {
      EntriesUnderPrefix(inner[1..], q, p);
      assert q + p + inner[0].name == q + (p + inner[0].name);
      PrefixedAppend(q, [Entry(p + inner[0].name, inner[0].value)], EntriesWrites(inner[1..], p));
    }
  }

  /** Collecting assignments commutes with prefixing their keys. */
  lemma {:induction false} PutPrefixed(q: string, d: Flat, k: string, v: Value)
    ensures Put(Prefixed(q, d), q + k, v) == Prefixed(q, Put(d, k, v))
  {
    var i := IndexOf(d, k);
    var pd := Prefixed(q, d);
    forall j | 0 <= j < i ensures pd[j].key != q + k {
      assert pd[j].key[|q|..] == d[j].key && (q + k)[|q|..] == k;
    }
    IndexIs(pd, q + k, i);
    PrefixedAgree(q, d, Put(d, k, v), i, Entry(k, v));
    assert Put(pd, q + k, v) == if i < |d| then pd[i := Entry(q + k, v)] else pd + [Entry(q + k, v)];
  }

  lemma {:induction false} PrefixedAgree(q: string, d: Flat, d': Flat, i: nat, e: Entry<string, Value>)
    requires i <= |d| && d' == if i < |d| then d[i := e] else d + [e]
    ensures var pd, pe := Prefixed(q, d), Entry(q + e.key, e.value);
      Prefixed(q, d') == if i < |d| then pd[i := pe] else pd + [pe]
  {
    assert forall j :: 0 <= j < |d'| ==> d'[j] == if j == i then e else d[j];
  }

  lemma {:induction false} CollectPrefixed(q: string, d: Flat, writes: Flat)
    ensures PutAll(Prefixed(q, d), Prefixed(q, writes)) == Prefixed(q, PutAll(d, writes))
    decreases |writes|
  {
    if writes != [] {
      PutPrefixed(q, d, writes[0].key, writes[0].value);
      assert Prefixed(q, writes)[1..] == Prefixed(q, writes[1..]);
      CollectPrefixed(q, Put(d, writes[0].key, writes[0].value), writes[1..]);
    }
  }

  /** The flattening of a subtree is its own flattening with every key prefixed. */
  lemma {:induction false} ConvertUnderPrefix(v: Value, q: string, draw: Draw)
    requires Convertible(v)
    ensures Convert(v, q, draw) == Prefixed(q, Convert(v, "", Below(draw, q)))
  {
    WritesUnderPrefix(v, q, "", draw);
    assert q + "" == q;
    CollectPrefixed(q, [], Writes(v, "", Below(draw, q)));
  }

  // ---------- the first name of a dotted key ----------

  function Head(k: string): string {
    match SplitFirst(k, '.')
    case None => k
    case Some((head, _)) => head
  }

  ghost predicate AllHead(d: Flat, head: string) {
    forall i :: 0 <= i < |d| ==> Head(d[i].key) == head
  }

  ghost predicate NoHead(d: Flat, head: string) {
    forall i :: 0 <= i < |d| ==> Head(d[i].key) != head
  }

  lemma {:induction false} PrefixedHeads(name: string, d: Flat)
    requires '.' !in name
    ensures AllHead(Prefixed(name + ".", d), name)
  {
    forall i | 0 <= i < |d| ensures Head(Prefixed(name + ".", d)[i].key) == name {
      SplitFirstAt(name, '.', d[i].key);
      assert name + "." + d[i].key == name + ['.'] + d[i].key;
    }
  }

  /** What a field writes, as its own name followed by what is below it. */
  function BelowField(f: Field, draw: Draw): Flat
    requires f.value.List? ==> ConvertibleItems(f.value.items)
  {
    match f.value
    case List(items) => (if items == [] then [] else [Entry("#", Int(|items|))]) + ItemsWrites(items, 0, "", draw)
    case Object(inner) => [Entry("%", Int(|inner|))] + EntriesWrites(inner, "")
    case _ => []
  }

  lemma {:induction false} FieldIsPrefixed(f: Field, draw: Draw)
    requires f.value.List? ==> ConvertibleItems(f.value.items)
    requires f.value.List? || f.value.Object?
    ensures FieldWrites(f, "", draw) == Prefixed(f.name + ".", BelowField(f, Below(draw, f.name + ".")))
  {
    var q := f.name + ".";
    assert q + "" == q && "" + f.name + "." == q;
    assert "" + f.name + ".#" == q + "#" && "" + f.name + ".%" == q + "%";
    match f.value
    case List(items) =>
      ItemsUnderPrefix(items, 0, q, "", draw);
      var count := if items == [] then [] else [Entry("#", Int(|items|))];
      PrefixedAppend(q, count, ItemsWrites(items, 0, "", Below(draw, q)));
    case Object(inner) =>
      EntriesUnderPrefix(inner, q, "");
      PrefixedAppend(q, [Entry("%", Int(|inner|))], EntriesWrites(inner, ""));
  }

  lemma {:induction false} FieldHeads(f: Field, draw: Draw)
    requires f.value.List? ==> ConvertibleItems(f.value.items)
    requires '.' !in f.name
    ensures AllHead(FieldWrites(f, "", draw), f.name)
  {
    if f.value.List? || f.value.Object? {
      FieldIsPrefixed(f, draw);
      PrefixedHeads(f.name, BelowField(f, Below(draw, f.name + ".")));
    } else {
      assert "" + f.name == f.name;
    }
  }

  /** Field names are pairwise distinct and contain no dot. */
  ghost predicate PlainNames(fields: seq<Field>) {
    (forall i :: 0 <= i < |fields| ==> '.' !in fields[i].name) && DistinctNames(fields)
  }

  ghost predicate DistinctNames(fields: seq<Field>) {
    forall i, j :: 0 <= i < j < |fields| ==> fields[i].name != fields[j].name
  }

  lemma {:induction false} FieldsNoHead(fields: seq<Field>, name: string, draw: Draw)
    requires ConvertibleFields(fields) && PlainNames(fields)
    requires forall i :: 0 <= i < |fields| ==> fields[i].name != name
    ensures NoHead(FieldsWrites(fields, "", draw), name)
  {
    if fields != [] {
      FieldHeads(fields[0], draw);
      FieldsNoHead(fields[1..], name, draw);
    }
  }

  lemma {:induction false} ItemsNoHead(items: seq<Value>, i: nat, draw: Draw, head: string)
    requires ConvertibleItems(items)
    requires forall j: nat :: i <= j ==> ToDecimal(j) != head
    ensures NoHead(ItemsWrites(items, i, "", draw), head)
  {
    if items != [] {
      ItemHeads(items[0], i, draw);
      ItemsNoHead(items[1..], i + 1, draw, head);
    }
  }

  /** The item at index `i` writes below its printed index. */
  lemma {:induction false} ItemHeads(item: Value, i: nat, draw: Draw)
    requires Convertible(item)
    ensures var q := ToDecimal(i) + ".";
      "" + ToDecimal(i) + "." == q && Writes(item, q, draw) == Prefixed(q, Writes(item, "", Below(draw, q)))
      && AllHead(Writes(item, q, draw), ToDecimal(i))
  {
    var q := ToDecimal(i) + ".";
    assert "" + ToDecimal(i) + "." == q && q + "" == q;
    WritesUnderPrefix(item, q, "", draw);
    DigitsOnly(ToDecimal(i), '.');
    PrefixedHeads(ToDecimal(i), Writes(item, "", Below(draw, q)));
  }

  lemma {:induction false} HeadsOfCollected(writes: Flat, head: string)
    ensures AllHead(writes, head) ==> AllHead(PutAll([], writes), head)
    ensures NoHead(writes, head) ==> NoHead(PutAll([], writes), head)
  {
    var d := PutAll([], writes);
    forall i | 0 <= i < |d| ensures exists j :: 0 <= j < |writes| && writes[j].key == d[i].key {
      PutAllKeyIn([], writes, d[i].key);
      assert Keys(d)[i] in Keys(d);
      var j :| 0 <= j < |writes| && Keys(writes)[j] == d[i].key;
      assert writes[j].key == d[i].key;
    }
  }

  /** Assignments below different names are collected independently. */
  lemma {:induction false} CollectBlocks(a: Flat, b: Flat, head: string)
    requires AllHead(a, head) && NoHead(b, head)
    ensures PutAll([], a + b) == PutAll([], a) + PutAll([], b)
  {
    HeadsOfCollected(a, head);
    HeadsOfCollected(b, head);
    PutAllUnique([], a);
    PutAllUnique([], b);
    PutAllAppend([], a, b);
    PutAllOfPutAll(PutAll([], a), b);
    PutAllFresh(PutAll([], a), PutAll([], b));
  }

  // ---------- nothing is lost ----------

  lemma {:induction false} CollectedAtMost(d: Flat, writes: Flat)
    ensures |PutAll(d, writes)| <= |d| + |writes|
    decreases |writes|
  {
    if writes != [] {
      CollectedAtMost(Put(d, writes[0].key, writes[0].value), writes[1..]);
    }
  }

  lemma {:induction false} CollectedLess(d: Flat, writes: Flat)
    requires Unique(d) && !Unique(d + writes)
    ensures |PutAll(d, writes)| < |d| + |writes|
    decreases |writes|
  {
    assert d + [] == d;
    var k, v := writes[0].key, writes[0].value;
    var d' := Put(d, k, v);
    if Has(d, k) {
      CollectedAtMost(d', writes[1..]);
    } else {
      PutKeys(d, k, v);
      assert d + writes == d' + writes[1..];
      CollectedLess(d', writes[1..]);
    }
  }

  /** Collecting keeps every assignment exactly when no key is assigned twice. */
  lemma {:induction false} CollectedSize(writes: Flat)
    ensures |PutAll([], writes)| == |writes| <==> Unique(writes)
  {
    assert [] + writes == writes;
    if Unique(writes) {
      PutAllFresh([], writes);
    } else {
      CollectedLess([], writes);
    }
  }

  /** The values at the leaves: scalar attributes, strings in lists, and the entries of dictionary values. */
  function Leaves(v: Value): multiset<Value>
    requires Convertible(v)
    decreases v, 1
  {
    match v
    case Str(_) => multiset{v}
    case Object(fields) => FieldsLeaves(fields)
  }

  function FieldsLeaves(fields: seq<Field>): multiset<Value>
    requires ConvertibleFields(fields)
    decreases fields, 1
  {
    if fields == [] then multiset{} else FieldLeaves(fields[0]) + FieldsLeaves(fields[1..])
  }

  function FieldLeaves(f: Field): multiset<Value>
    requires f.value.List? ==> ConvertibleItems(f.value.items)
    decreases f, 1
  {
    match f.value
    case List(items) => ItemsLeaves(items)
    case Object(inner) => multiset(InnerValues(inner))
    case value => multiset{value}
  }

  function ItemsLeaves(items: seq<Value>): multiset<Value>
    requires ConvertibleItems(items)
    decreases items, 1
  {
    if items == [] then multiset{} else Leaves(items[0]) + ItemsLeaves(items[1..])
  }

  function InnerValues(inner: seq<Field>): seq<Value> {
    if inner == [] then [] else [inner[0].value] + InnerValues(inner[1..])
  }

  /** One length for every non-empty list and one for every dictionary value. */
  function Lengths(v: Value): multiset<Value>
    requires Convertible(v)
    decreases v, 1
  {
    match v
    case Str(_) => multiset{}
    case Object(fields) => FieldsLengths(fields)
  }

  function FieldsLengths(fields: seq<Field>): multiset<Value>
    requires ConvertibleFields(fields)
    decreases fields, 1
  {
    if fields == [] then multiset{} else FieldLengths(fields[0]) + FieldsLengths(fields[1..])
  }

  function FieldLengths(f: Field): multiset<Value>
    requires f.value.List? ==> ConvertibleItems(f.value.items)
    decreases f, 1
  {
    match f.value
    case List(items) => if items == [] then multiset{} else multiset{Int(|items|)} + ItemsLengths(items)
    case Object(inner) => multiset{Int(|inner|)}
    case _ => multiset{}
  }

  function ItemsLengths(items: seq<Value>): multiset<Value>
    requires ConvertibleItems(items)
    decreases items, 1
  {
    if items == [] then multiset{} else Lengths(items[0]) + ItemsLengths(items[1..])
  }

  function Bag(d: Flat): multiset<Value> {
    multiset(Values(d))
  }

  lemma {:induction false} BagAppend(a: Flat, b: Flat)
    ensures Bag(a + b) == Bag(a) + Bag(b)
  {
    var vs := Values(a + b);
    forall i | 0 <= i < |vs| ensures vs[i] == (Values(a) + Values(b))[i] {
    }
    assert vs == Values(a) + Values(b);
  }

  lemma {:induction false} BagOne(k: string, v: Value)
    ensures Bag([Entry(k, v)]) == multiset{v}
  {
    var d := [Entry(k, v)];
    assert Values(d) == [v];
  }

  lemma {:induction false} WritesBag(v: Value, p: string, draw: Draw)
    requires Convertible(v)
    ensures Bag(Writes(v, p, draw)) == Leaves(v) + Lengths(v)
    decreases v, 1
  {
    match v
    case Str(_) => BagOne(p + ToDecimal(draw(p)), v);
    case Object(fields) => FieldsBag(fields, p, draw);
  }

  lemma {:induction false} FieldsBag(fields: seq<Field>, p: string, draw: Draw)
    requires ConvertibleFields(fields)
    ensures Bag(FieldsWrites(fields, p, draw)) == FieldsLeaves(fields) + FieldsLengths(fields)
    decreases fields, 1
  {
    if fields != [] {
      FieldBag(fields[0], p, draw);
      FieldsBag(fields[1..], p, draw);
      BagAppend(FieldWrites(fields[0], p, draw), FieldsWrites(fields[1..], p, draw));
    }
  }

  lemma {:induction false} FieldBag(f: Field, p: string, draw: Draw)
    requires f.value.List? ==> ConvertibleItems(f.value.items)
    ensures Bag(FieldWrites(f, p, draw)) == FieldLeaves(f) + FieldLengths(f)
    decreases f, 1
  {
    hide Bag, ItemsWrites, EntriesWrites, InnerValues, ItemsLeaves, ItemsLengths;
    match f.value
    case List(items) => ListBag(items, p + f.name, draw);
    case Object(inner) => ObjectBag(inner, p + f.name);
    case value => BagOne(p + f.name, value);
  }

  lemma {:induction false} ListBag(items: seq<Value>, p: string, draw: Draw)
    requires ConvertibleItems(items)
    ensures Bag((if items == [] then [] else [Entry(p + ".#", Int(|items|))]) + ItemsWrites(items, 0, p + ".", draw))
         == ItemsLeaves(items) + if items == [] then multiset{} else multiset{Int(|items|)} + ItemsLengths(items)
    decreases items, 2
  {
    ItemsBag(items, 0, p + ".", draw);
    MarkedBag(p + ".#", |items|, ItemsWrites(items, 0, p + ".", draw));
  }

  lemma {:induction false} ObjectBag(inner: seq<Field>, p: string)
    ensures Bag([Entry(p + ".%", Int(|inner|))] + EntriesWrites(inner, p + "."))
         == multiset(InnerValues(inner)) + multiset{Int(|inner|)}
  {
    EntriesBag(inner, p + ".");
    MarkedBag(p + ".%", |inner|, EntriesWrites(inner, p + "."));
  }

  lemma {:induction false} MarkedBag(k: string, n: nat, d: Flat)
    ensures Bag([Entry(k, Int(n))] + d) == multiset{Int(n)} + Bag(d)
    ensures [] + d == d
  {
    BagOne(k, Int(n));
    BagAppend([Entry(k, Int(n))], d);
  }

  lemma {:induction false} ItemsBag(items: seq<Value>, i: nat, p: string, draw: Draw)
    requires ConvertibleItems(items)
    ensures Bag(ItemsWrites(items, i, p, draw)) == ItemsLeaves(items) + ItemsLengths(items)
    decreases items, 1
  {
    if items != [] {
      WritesBag(items[0], p + ToDecimal(i) + ".", draw);
      ItemsBag(items[1..], i + 1, p, draw);
      BagAppend(Writes(items[0], p + ToDecimal(i) + ".", draw), ItemsWrites(items[1..], i + 1, p, draw));
    }
  }

  lemma {:induction false} EntriesBag(inner: seq<Field>, p: string)
    ensures Values(EntriesWrites(inner, p)) == InnerValues(inner)
  {
    if inner != [] {
      EntriesBag(inner[1..], p);
    }
  }

  /** Attribute names are distinct and dot-free, down to the dictionary values, whose keys are distinct. */
  ghost predicate WellNamed(v: Value)
    requires Convertible(v)
    decreases v, 1
  {
    v.Object? ==> PlainNames(v.fields) && WellNamedFields(v.fields)
  }

  ghost predicate WellNamedFields(fields: seq<Field>)
    requires ConvertibleFields(fields)
    decreases fields, 1
  {
    fields != [] ==> WellNamedField(fields[0]) && WellNamedFields(fields[1..])
  }

  ghost predicate WellNamedField(f: Field)
    requires f.value.List? ==> ConvertibleItems(f.value.items)
    decreases f, 1
  {
    match f.value
    case List(items) => WellNamedItems(items)
    case Object(inner) => DistinctNames(inner)
    case _ => true
  }

  ghost predicate WellNamedItems(items: seq<Value>)
    requires ConvertibleItems(items)
    decreases items, 1
  {
    items != [] ==> WellNamed(items[0]) && WellNamedItems(items[1..])
  }

  /** No dictionary value has a key `%`. */
  predicate NoPercent(v: Value)
    requires Convertible(v)
    decreases v, 1
  {
    v.Object? ==> NoPercentFields(v.fields)
  }

  predicate NoPercentFields(fields: seq<Field>)
    requires ConvertibleFields(fields)
    decreases fields, 1
  {
    fields != [] ==> NoPercentField(fields[0]) && NoPercentFields(fields[1..])
  }

  predicate NoPercentField(f: Field)
    requires f.value.List? ==> ConvertibleItems(f.value.items)
    decreases f, 1
  {
    match f.value
    case List(items) => NoPercentItems(items)
    case Object(inner) => forall i :: 0 <= i < |inner| ==> inner[i].name != "%"
    case _ => true
  }

  predicate NoPercentItems(items: seq<Value>)
    requires ConvertibleItems(items)
    decreases items, 1
  {
    items != [] ==> NoPercent(items[0]) && NoPercentItems(items[1..])
  }

  lemma {:induction false} UniquePrefixed(q: string, d: Flat)
    ensures Unique(Prefixed(q, d)) <==> Unique(d)
  {
    var pd := Prefixed(q, d);
    forall i, j | 0 <= i < j < |d| ensures pd[i].key != pd[j].key <==> d[i].key != d[j].key {
      assert pd[i].key[|q|..] == d[i].key && pd[j].key[|q|..] == d[j].key;
    }
  }

  lemma {:induction false} UniqueBlocks(a: Flat, b: Flat, head: string)
    requires AllHead(a, head) && NoHead(b, head)
    ensures Unique(a + b) <==> Unique(a) && Unique(b)
  {
    var all := a + b;
    assert forall i :: 0 <= i < |a| ==> all[i] == a[i];
    assert forall i :: 0 <= i < |b| ==> all[|a| + i] == b[i];
    if Unique(a) && Unique(b) {
      forall i, j | 0 <= i < j < |all| ensures all[i].key != all[j].key {
        if i < |a| <= j {
          assert Head(all[i].key) == head && Head(b[j - |a|].key) != head;
        }
      }
    }
  }

  /** Over well-named trees, two assignments share a key exactly when a dictionary value has a key `%`. */
  lemma {:induction false} DistinctKeysIff(v: Value, draw: Draw)
    requires Convertible(v) && WellNamed(v)
    ensures Unique(Writes(v, "", draw)) <==> NoPercent(v)
    decreases v, 1
  {
    if v.Object? {
      DistinctFieldKeysIff(v.fields, draw);
    }
  }

  lemma {:induction false} DistinctFieldKeysIff(fields: seq<Field>, draw: Draw)
    requires ConvertibleFields(fields) && WellNamedFields(fields) && PlainNames(fields)
    ensures Unique(FieldsWrites(fields, "", draw)) <==> NoPercentFields(fields)
    decreases fields, 1
  {
    if fields != [] {
      FieldHeads(fields[0], draw);
      FieldsNoHead(fields[1..], fields[0].name, draw);
      UniqueBlocks(FieldWrites(fields[0], "", draw), FieldsWrites(fields[1..], "", draw), fields[0].name);
      DistinctFieldIff(fields[0], draw);
      DistinctFieldKeysIff(fields[1..], draw);
    }
  }

  lemma {:induction false} DistinctFieldIff(f: Field, draw: Draw)
    requires f.value.List? ==> ConvertibleItems(f.value.items)
    requires WellNamedField(f)
    ensures Unique(FieldWrites(f, "", draw)) <==> NoPercentField(f)
    decreases f, 1
  {
    if f.value.List? || f.value.Object? {
      var q := f.name + ".";
      var d := Below(draw, q);
      FieldIsPrefixed(f, draw);
      UniquePrefixed(q, BelowField(f, d));
      match f.value
      case List(items) =>
        DistinctItemsIff(items, 0, d);
        CountIsApart(items, d);
      case Object(inner) => DistinctEntriesIff(inner);
    }
  }

  lemma {:induction false} CountIsApart(items: seq<Value>, draw: Draw)
    requires ConvertibleItems(items)
    ensures var count := if items == [] then [] else [Entry("#", Int(|items|))];
      AllHead(count, "#") && NoHead(ItemsWrites(items, 0, "", draw), "#")
      && (Unique(count + ItemsWrites(items, 0, "", draw)) <==> Unique(ItemsWrites(items, 0, "", draw)))
  {
    var count := if items == [] then [] else [Entry("#", Int(|items|))];
    forall j: nat ensures ToDecimal(j) != "#" {
      assert IsDigit(ToDecimal(j)[0]);
    }
    ItemsNoHead(items, 0, draw, "#");
    UniqueBlocks(count, ItemsWrites(items, 0, "", draw), "#");
  }

  lemma {:induction false} EntriesAre(inner: seq<Field>)
    ensures |EntriesWrites(inner, "")| == |inner|
    ensures forall i :: 0 <= i < |inner| ==> EntriesWrites(inner, "")[i] == Entry(inner[i].name, inner[i].value)
  {
    if inner != [] {
      EntriesAre(inner[1..]);
      assert "" + inner[0].name == inner[0].name;
    }
  }

  lemma {:induction false} DistinctEntriesIff(inner: seq<Field>)
    requires DistinctNames(inner)
    ensures Unique([Entry("%", Int(|inner|))] + EntriesWrites(inner, ""))
       <==> forall i :: 0 <= i < |inner| ==> inner[i].name != "%"
  {
    EntriesAre(inner);
    var entries := EntriesWrites(inner, "");
    FirstKeyApart("%", Int(|inner|), entries);
    assert Unique(entries);
    assert forall i :: 0 <= i < |inner| ==> entries[i].key == inner[i].name;
  }

  lemma {:induction false} FirstKeyApart(k: string, v: Value, d: Flat)
    ensures Unique([Entry(k, v)] + d) <==> Unique(d) && forall i :: 0 <= i < |d| ==> d[i].key != k
  {
    var all := [Entry(k, v)] + d;
    assert all[0].key == k && forall i :: 0 <= i < |d| ==> all[i + 1] == d[i];
    if Unique(all) {
      forall i, j | 0 <= i < j < |d| ensures d[i].key != d[j].key {
        assert all[i + 1].key != all[j + 1].key;
      }
      forall i | 0 <= i < |d| ensures d[i].key != k {
        assert all[0].key != all[i + 1].key;
      }
    }
  }

  lemma {:induction false} DistinctItemsIff(items: seq<Value>, i: nat, draw: Draw)
    requires ConvertibleItems(items) && WellNamedItems(items)
    ensures Unique(ItemsWrites(items, i, "", draw)) <==> NoPercentItems(items)
    decreases items, 1
  {
    if items != [] {
      var q := ToDecimal(i) + ".";
      ItemHeads(items[0], i, draw);
      UniquePrefixed(q, Writes(items[0], "", Below(draw, q)));
      DistinctKeysIff(items[0], Below(draw, q));
      LaterItemsApart(items[1..], i, draw);
      UniqueBlocks(Writes(items[0], q, draw), ItemsWrites(items[1..], i + 1, "", draw), ToDecimal(i));
      DistinctItemsIff(items[1..], i + 1, draw);
    }
  }

  lemma {:induction false} LaterItemsApart(items: seq<Value>, i: nat, draw: Draw)
    requires ConvertibleItems(items)
    ensures NoHead(ItemsWrites(items, i + 1, "", draw), ToDecimal(i))
  {
    forall j: nat | i + 1 <= j ensures ToDecimal(j) != ToDecimal(i) {
      if ToDecimal(j) == ToDecimal(i) {
        DecimalInjective(j, i);
      }
    }
    ItemsNoHead(items, i + 1, draw, ToDecimal(i));
  }

  lemma {:induction false} BagSize(d: Flat)
    ensures |Bag(d)| == |d|
  {
  }

  lemma {:induction false} BagPrefixed(q: string, d: Flat)
    ensures Bag(Prefixed(q, d)) == Bag(d)
  {
    assert Values(Prefixed(q, d)) == Values(d);
  }

  /**
   Flattening loses and merges nothing: whatever numbers are drawn, the flat dictionary has one key for each
   leaf, each non-empty list and each dictionary value, if and only if no dictionary value has a key `%`; and
   then its values are exactly the leaves and those lengths.
   */
  lemma {:induction false} NothingIsLostIff(v: Value, prefix: string, draw: Draw)
    requires Convertible(v) && WellNamed(v)
    ensures |Convert(v, prefix, draw)| == |Leaves(v)| + |Lengths(v)| <==> NoPercent(v)
    ensures NoPercent(v) ==> Bag(Convert(v, prefix, draw)) == Leaves(v) + Lengths(v)
  {
    hide Writes, WellNamed, NoPercent, Leaves, Lengths, Bag, PutAll, Prefixed;
    var d := Below(draw, prefix);
    var writes := Writes(v, "", d);
    ConvertUnderPrefix(v, prefix, draw);
    DistinctKeysIff(v, d);
    WritesBag(v, "", d);
    BagSize(writes);
    CollectedSize(writes);
    if NoPercent(v) {
      assert [] + writes == writes;
      PutAllFresh([], writes);
      BagPrefixed(prefix, writes);
    }
  }

  const PERCENT_ENTRY := Field("%", Str("x"))
  const PERCENT_TAGS := Field("tags", Object([PERCENT_ENTRY]))

  /** A well-named tree whose dictionary value has a key `%`: its length marker is overwritten. */
  lemma {:induction false} PercentLosesLength(draw: Draw)
    ensures var v := Object([PERCENT_TAGS]);
      Convertible(v) && WellNamed(v) && |Leaves(v)| + |Lengths(v)| == 2
      && Convert(v, "", draw) == [Entry("tags.%", Str("x"))]
  {
    hide WellNamed, FieldsLeaves, FieldsLengths, FieldsWrites, PutAll;
    PercentTreeIsFine();
    PercentTreeCounts();
    PercentTreeFlattens(draw);
  }

  lemma {:induction false} PercentTreeIsFine()
    ensures ConvertibleFields([PERCENT_TAGS]) && WellNamed(Object([PERCENT_TAGS]))
  {
    assert [PERCENT_TAGS][1..] == [];
  }

  lemma {:induction false} PercentTreeCounts()
    requires ConvertibleFields([PERCENT_TAGS])
    ensures |FieldsLeaves([PERCENT_TAGS])| == |FieldsLengths([PERCENT_TAGS])| == 1
  {
    assert [PERCENT_TAGS][1..] == [] && [PERCENT_ENTRY][1..] == [];
    assert InnerValues([PERCENT_ENTRY]) == [Str("x")];
  }

  lemma {:induction false} PercentTreeFlattens(draw: Draw)
    requires ConvertibleFields([PERCENT_TAGS])
    ensures PutAll([], FieldsWrites([PERCENT_TAGS], "", draw)) == [Entry("tags.%", Str("x"))]
  {
    hide PutAll, Put;
    PercentTreeWrites(draw);
    var marker, entry := [Entry("tags.%", Int(1))], [Entry("tags.%", Str("x"))];
    PutAllAppend([], marker, entry);
    PutAllOne<string, Value>([], "tags.%", Int(1));
    PutAllOne(marker, "tags.%", Str("x"));
    OneKey("tags.%", Int(1), Str("x"));
  }

  lemma {:induction false} OneKey(k: string, v: Value, w: Value)
    ensures Put([], k, v) == [Entry(k, v)] && Put([Entry(k, v)], k, w) == [Entry(k, w)]
  {
    IndexIs([Entry(k, v)], k, 0);
  }

  lemma {:induction false} PercentTreeWrites(draw: Draw)
    requires ConvertibleFields([PERCENT_TAGS])
    ensures FieldsWrites([PERCENT_TAGS], "", draw) == [Entry("tags.%", Int(1))] + [Entry("tags.%", Str("x"))]
  {
    assert [PERCENT_TAGS][1..] == [] && [PERCENT_ENTRY][1..] == [];
    assert "" + "tags" + ".%" == "tags.%" && "" + "tags" + "." == "tags." && "tags." + "%" == "tags.%";
    assert EntriesWrites([], "tags.") == [];
    assert EntriesWrites([PERCENT_ENTRY], "tags.") == [Entry("tags.%", Str("x"))];
  }
}
