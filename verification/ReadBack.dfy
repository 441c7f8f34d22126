/** Reading flattened attributes back: the parsers invert the flattening of lists and dictionary values. */
module ReadBack {
  import opened Text
  import opened Outcomes
  import opened OrderedDict
  import opened Flatten
  import opened FlattenLaws

  // ---------- _parse_prefix over blocks ----------

  lemma {:induction false} ParseAppend(a: Flat, b: Flat, prefix: string, sep: char)
    ensures ParsePrefix(a + b, prefix, sep) == ParsePrefix(a, prefix, sep) + ParsePrefix(b, prefix, sep)
  {
    if a == [] {
      assert a + b == b;
    } else {
      assert (a + b)[0] == a[0] && (a + b)[1..] == a[1..] + b;
      ParseAppend(a[1..], b, prefix, sep);
    }
  }

  lemma {:induction false} ParseOther(d: Flat, prefix: string)
    requires NoHead(d, prefix)
    ensures ParsePrefix(d, prefix, '.') == []
  {
    if d != [] {
      assert Head(d[0].key) != prefix;
      ParseOther(d[1..], prefix);
    }
  }

  /** The entries whose key is not the length marker of a list. */
  function WithoutCount(d: Flat): Flat {
    if d == [] then [] else (if d[0].key == "#" then [] else [d[0]]) + WithoutCount(d[1..])
  }

  lemma {:induction false} ParseOwn(d: Flat, prefix: string)
    requires '.' !in prefix
    ensures ParsePrefix(Prefixed(prefix + ".", d), prefix, '.') == WithoutCount(d)
  {
    if d != [] {
      SplitFirstAt(prefix, '.', d[0].key);
      assert prefix + "." + d[0].key == prefix + ['.'] + d[0].key;
      assert Prefixed(prefix + ".", d)[1..] == Prefixed(prefix + ".", d[1..]);
      ParseOwn(d[1..], prefix);
    }
  }

  lemma {:induction false} WithoutCountAll(d: Flat)
    requires forall i :: 0 <= i < |d| ==> d[i].key != "#"
    ensures WithoutCount(d) == d
  {
    if d != [] {
      WithoutCountAll(d[1..]);
    }
  }

  /** Reading a name out of flattened attributes looks only at the attribute of that name. */
  lemma {:induction false} ParseFindsField(fields: seq<Field>, k: nat, draw: Draw)
    requires ConvertibleFields(fields) && PlainNames(fields) && k < |fields|
    requires fields[k].value.List? ==> ConvertibleItems(fields[k].value.items)
    ensures ParsePrefix(PutAll([], FieldsWrites(fields, "", draw)), fields[k].name, '.')
         == ParsePrefix(PutAll([], FieldWrites(fields[k], "", draw)), fields[k].name, '.')
  {
    hide PutAll, ParsePrefix, FieldWrites, Head;
    var first, rest := FieldWrites(fields[0], "", draw), FieldsWrites(fields[1..], "", draw);
    var name := fields[k].name;
    FieldHeads(fields[0], draw);
    FieldsNoHead(fields[1..], fields[0].name, draw);
    CollectBlocks(first, rest, fields[0].name);
    ParseAppend(PutAll([], first), PutAll([], rest), name, '.');
    HeadsOfCollected(first, fields[0].name);
    if k == 0 {
      HeadsOfCollected(rest, name);
      ParseOther(PutAll([], rest), name);
    } else {
      ParseOther(PutAll([], first), name);
      ParseFindsField(fields[1..], k - 1, draw);
    }
  }

  // ---------- lists ----------

  /** The flattened items of a list, each below its index. */
  function ItemsConverted(items: seq<Value>, i: nat, draw: Draw): Flat
    requires ConvertibleItems(items)
  {
    if items == [] then []
    else
      var q := ToDecimal(i) + ".";
      Prefixed(q, Convert(items[0], "", Below(draw, q))) + ItemsConverted(items[1..], i + 1, draw)
  }

  lemma {:induction false} CollectItems(items: seq<Value>, i: nat, draw: Draw)
    requires ConvertibleItems(items)
    ensures PutAll([], ItemsWrites(items, i, "", draw)) == ItemsConverted(items, i, draw)
  {
    if items != [] {
      var q := ToDecimal(i) + ".";
      ItemHeads(items[0], i, draw);
      LaterItemsApart(items[1..], i, draw);
      CollectBlocks(Writes(items[0], q, draw), ItemsWrites(items[1..], i + 1, "", draw), ToDecimal(i));
      CollectPrefixed(q, [], Writes(items[0], "", Below(draw, q)));
      CollectItems(items[1..], i + 1, draw);
    }
  }

  lemma {:induction false} ItemsAreNoCount(items: seq<Value>, draw: Draw)
    requires ConvertibleItems(items)
    ensures WithoutCount(ItemsConverted(items, 0, draw)) == ItemsConverted(items, 0, draw)
  {
    CountIsApart(items, draw);
    HeadsOfCollected(ItemsWrites(items, 0, "", draw), "#");
    CollectItems(items, 0, draw);
    WithoutCountAll(ItemsConverted(items, 0, draw));
  }

  lemma {:induction false} WithoutCountAppend(a: Flat, b: Flat)
    ensures WithoutCount(a + b) == WithoutCount(a) + WithoutCount(b)
  {
    if a == [] {
      assert a + b == b;
    } else {
      var s, head := a + b, if a[0].key == "#" then [] else [a[0]];
      assert s[0] == a[0] && s[1..] == a[1..] + b;
      WithoutCountAppend(a[1..], b);
      assert head + (WithoutCount(a[1..]) + WithoutCount(b)) == head + WithoutCount(a[1..]) + WithoutCount(b);
    }
  }

  lemma {:induction false} CountAlone(count: Flat)
    requires count == [] || (|count| == 1 && count[0].key == "#")
    ensures PutAll([], count) == count && WithoutCount(count) == []
  {
    if count != [] {
      PutAllOne([], count[0].key, count[0].value);
      assert count == [Entry(count[0].key, count[0].value)];
      assert count[1..] == [];
    }
  }

  lemma {:induction false} CountIsDropped(items: seq<Value>, draw: Draw)
    requires ConvertibleItems(items)
    ensures WithoutCount(PutAll([], BelowField(Field("", List(items)), draw))) == ItemsConverted(items, 0, draw)
  {
    hide PutAll, WithoutCount, ItemsWrites, ItemsConverted, AllHead, NoHead, Unique;
    var count: Flat := if items == [] then [] else [Entry("#", Int(|items|))];
    CountIsApart(items, draw);
    CollectBlocks(count, ItemsWrites(items, 0, "", draw), "#");
    CollectItems(items, 0, draw);
    CountAlone(count);
    WithoutCountAppend(count, ItemsConverted(items, 0, draw));
    ItemsAreNoCount(items, draw);
  }

  /** What the readers see of a list attribute: its flattened items in order, without the count. */
  lemma {:induction false} ParseListField(f: Field, draw: Draw)
    requires f.value.List? && ConvertibleItems(f.value.items) && '.' !in f.name
    ensures ParsePrefix(PutAll([], FieldWrites(f, "", draw)), f.name, '.')
         == ItemsConverted(f.value.items, 0, Below(draw, f.name + "."))
  {
    var q := f.name + ".";
    var d := Below(draw, q);
    FieldIsPrefixed(f, draw);
    assert BelowField(f, d) == BelowField(Field("", List(f.value.items)), d);
    CollectPrefixed(q, [], BelowField(f, d));
    ParseOwn(PutAll([], BelowField(f, d)), f.name);
    CountIsDropped(f.value.items, d);
  }

  /** One record for each item that does not flatten to nothing. */
  function Records(items: seq<Value>, i: nat, draw: Draw): Dict<string, Flat>
    requires ConvertibleItems(items)
  {
    if items == [] then [] else RecordOf(items[0], i, draw) + Records(items[1..], i + 1, draw)
  }

  /** Grouping a block of keys below one index extends the record of that index. */
  lemma {:induction false} GroupBlock(attrs: Dict<string, Flat>, idx: string, done: Flat, block: Flat, more: Flat)
    requires '.' !in idx && !Has(attrs, idx) && Unique(done + block)
    ensures var before := if done == [] then attrs else attrs + [Entry(idx, done)];
      var after := if done + block == [] then attrs else attrs + [Entry(idx, done + block)];
      Group(before, Prefixed(idx + ".", block) + more, '.') == Group(after, more, '.')
    decreases |block|
  {
    hide Group, Put, Has, Get, Unique, Prefixed;
    if block == [] {
      assert Prefixed(idx + ".", block) + more == more && done + block == done;
    } else {
      var before := if done == [] then attrs else attrs + [Entry(idx, done)];
      var first, rest := block[0], block[1..];
      var ahead := Prefixed(idx + ".", rest) + more;
      assert Prefixed(idx + ".", block) + more == [Entry(idx + "." + first.key, first.value)] + ahead;
      GroupOne(before, idx, first.key, first.value, ahead);
      NextRecord(attrs, idx, done, first.key, first.value, block);
      assert done + [first] + rest == done + block;
      GroupBlock(attrs, idx, done + [first], rest, more);
    }
  }

  lemma {:induction false} GroupOne(attrs: Dict<string, Flat>, idx: string, k: string, v: Value, more: Flat)
    requires '.' !in idx
    ensures Group(attrs, [Entry(idx + "." + k, v)] + more, '.')
         == Group(Put(attrs, idx, Put(GetOr(attrs, idx, []), k, v)), more, '.')
  {
    hide Put, GetOr;
    var all := [Entry(idx + "." + k, v)] + more;
    assert all[0].key == idx + ['.'] + k && all[1..] == more;
    SplitFirstAt(idx, '.', k);
  }

  lemma {:induction false} NextRecord(attrs: Dict<string, Flat>, idx: string, done: Flat, k: string, v: Value,
                                      block: Flat)
    requires !Has(attrs, idx) && block != [] && block[0] == Entry(k, v) && Unique(done + block)
    ensures var before := if done == [] then attrs else attrs + [Entry(idx, done)];
      Put(before, idx, Put(GetOr(before, idx, []), k, v)) == attrs + [Entry(idx, done + [block[0]])]
  {
    var before := if done == [] then attrs else attrs + [Entry(idx, done)];
    IndexIs(before, idx, |attrs|);
    assert GetOr(before, idx, []) == done;
    assert (done + block)[|done|].key == k;
    assert forall i :: 0 <= i < |done| ==> (done + block)[i] == done[i];
    IndexIs(done, k, |done|);
  }

  /** The groups so far have no record for the indices from `i` on. */
  ghost predicate NoRecordsFrom(attrs: Dict<string, Flat>, i: nat) {
    forall j: nat :: i <= j ==> !Has(attrs, ToDecimal(j))
  }

  lemma {:induction false} NoRecordsAfter(attrs: Dict<string, Flat>, i: nat, record: Flat)
    requires NoRecordsFrom(attrs, i)
    ensures NoRecordsFrom(attrs + [Entry(ToDecimal(i), record)], i + 1)
  {
    var after := attrs + [Entry(ToDecimal(i), record)];
    forall j: nat | i + 1 <= j ensures !Has(after, ToDecimal(j)) {
      if ToDecimal(j) == ToDecimal(i) {
        DecimalInjective(j, i);
      }
      assert !Has(attrs, ToDecimal(j));
      IndexIs(after, ToDecimal(j), |after|);
    }
  }

  /** The group that one item adds. */
  function RecordOf(item: Value, i: nat, draw: Draw): Dict<string, Flat>
    requires Convertible(item)
  {
    var record := Convert(item, "", Below(draw, ToDecimal(i) + "."));
    if record == [] then [] else [Entry(ToDecimal(i), record)]
  }

  lemma {:induction false} GroupItem(attrs: Dict<string, Flat>, item: Value, i: nat, draw: Draw, rest: Flat)
    requires Convertible(item) && NoRecordsFrom(attrs, i)
    ensures var q := ToDecimal(i) + ".";
      Group(attrs, Prefixed(q, Convert(item, "", Below(draw, q))) + rest, '.')
      == Group(attrs + RecordOf(item, i, draw), rest, '.')
    ensures NoRecordsFrom(attrs + RecordOf(item, i, draw), i + 1)
  {
    var idx, q := ToDecimal(i), ToDecimal(i) + ".";
    var record := Convert(item, "", Below(draw, q));
    PutAllUnique([], Writes(item, "", Below(draw, q)));
    DigitsOnly(idx, '.');
    assert [] + record == record && attrs + [] == attrs;
    assert !Has(attrs, idx);
    GroupBlock(attrs, idx, [], record, rest);
    NoRecordsAfter(attrs, i, record);
  }

  lemma {:induction false} GroupItems(attrs: Dict<string, Flat>, items: seq<Value>, i: nat, draw: Draw)
    requires ConvertibleItems(items) && NoRecordsFrom(attrs, i)
    ensures Group(attrs, ItemsConverted(items, i, draw), '.') == Some(attrs + Records(items, i, draw))
    decreases items
  {
    if items == [] {
      assert attrs + [] == attrs;
    } else {
      var here, later := RecordOf(items[0], i, draw), Records(items[1..], i + 1, draw);
      GroupItem(attrs, items[0], i, draw, ItemsConverted(items[1..], i + 1, draw));
      GroupItems(attrs + here, items[1..], i + 1, draw);
      assert attrs + (here + later) == attrs + here + later;
    }
  }

  /**
   Flatten, then read back: `parse_attr_list` returns, in order, the flattening of every item of a list
   attribute, leaving out only items that flatten to nothing. This holds for any random numbers and needs only
   the names of the attributes beside the list to be distinct and dot-free.
   */
  lemma {:induction false} AttrListReadsBack(fields: seq<Field>, k: nat, draw: Draw)
    requires ConvertibleFields(fields) && PlainNames(fields) && k < |fields| && fields[k].value.List?
    requires ConvertibleItems(fields[k].value.items)
    ensures ParsedAttrList(Convert(Object(fields), "", draw), fields[k].name, '.')
         == Some(Values(Records(fields[k].value.items, 0, Below(draw, fields[k].name + "."))))
  {
    var d := Below(draw, fields[k].name + ".");
    ParseFindsField(fields, k, draw);
    ParseListField(fields[k], draw);
    GroupItems([], fields[k].value.items, 0, d);
    assert [] + Records(fields[k].value.items, 0, d) == Records(fields[k].value.items, 0, d);
  }

  /** A record of scalars flattens to itself. */
  predicate ScalarRecord(v: Value) {
    v.Object? && forall i :: 0 <= i < |v.fields| ==> !v.fields[i].value.List? && !v.fields[i].value.Object?
  }

  function AsDict(fields: seq<Field>): (d: Flat)
    ensures |d| == |fields| && forall i :: 0 <= i < |d| ==> d[i] == Entry(fields[i].name, fields[i].value)
  {
    if fields == [] then [] else [Entry(fields[0].name, fields[0].value)] + AsDict(fields[1..])
  }

  lemma {:induction false} ScalarWrites(fields: seq<Field>, draw: Draw)
    requires ScalarRecord(Object(fields)) && ConvertibleFields(fields)
    ensures FieldsWrites(fields, "", draw) == AsDict(fields)
  {
    if fields != [] {
      assert "" + fields[0].name == fields[0].name;
      assert forall i :: 0 <= i < |fields[1..]| ==> fields[1..][i] == fields[i + 1];
      ScalarWrites(fields[1..], draw);
    }
  }

  ghost predicate ScalarRecords(items: seq<Value>) {
    forall i :: 0 <= i < |items| ==>
      ScalarRecord(items[i]) && items[i].fields != [] && DistinctNames(items[i].fields)
  }

  lemma {:induction false} RecordUnchanged(item: Value, draw: Draw)
    requires Convertible(item) && ScalarRecord(item) && DistinctNames(item.fields)
    ensures Convert(item, "", draw) == AsDict(item.fields)
  {
    ScalarWrites(item.fields, draw);
    assert [] + AsDict(item.fields) == AsDict(item.fields);
    PutAllFresh([], AsDict(item.fields));
  }

  lemma {:induction false} RecordsUnchanged(items: seq<Value>, i: nat, draw: Draw)
    requires ConvertibleItems(items) && ScalarRecords(items)
    ensures |Records(items, i, draw)| == |items|
    ensures forall j :: 0 <= j < |items| ==> Records(items, i, draw)[j].value == AsDict(items[j].fields)
  {
    if items != [] {
      RecordUnchanged(items[0], Below(draw, ToDecimal(i) + "."));
      assert forall j :: 0 <= j < |items[1..]| ==> items[1..][j] == items[j + 1];
      RecordsUnchanged(items[1..], i + 1, draw);
      var all, rest := Records(items, i, draw), Records(items[1..], i + 1, draw);
      assert all[1..] == rest;
      forall j | 0 <= j < |items| ensures all[j].value == AsDict(items[j].fields) {
        if j > 0 {
          assert all[j] == rest[j - 1] && items[j] == items[1..][j - 1];
        }
      }
    }
  }

  /** A list of non-empty scalar records comes back unchanged, record by record. */
  lemma {:induction false} ScalarRecordsReadBack(fields: seq<Field>, k: nat, draw: Draw)
    requires ConvertibleFields(fields) && PlainNames(fields) && k < |fields| && fields[k].value.List?
    requires ConvertibleItems(fields[k].value.items) && ScalarRecords(fields[k].value.items)
    ensures var read := ParsedAttrList(Convert(Object(fields), "", draw), fields[k].name, '.');
      var items := fields[k].value.items;
      read.Some? && |read.value| == |items|
      && forall j :: 0 <= j < |items| ==> read.value[j] == AsDict(items[j].fields)
  {
    AttrListReadsBack(fields, k, draw);
    RecordsUnchanged(fields[k].value.items, 0, Below(draw, fields[k].name + "."));
  }

  lemma {:induction false} StringItems(items: seq<Value>, i: nat, draw: Draw)
    requires ConvertibleItems(items) && forall j :: 0 <= j < |items| ==> items[j].Str?
    ensures Values(ItemsConverted(items, i, draw)) == items
  {
    if items != [] {
      var q := ToDecimal(i) + ".";
      assert items[0].Str?;
      var d := Below(draw, q);
      PutAllOne<string, Value>([], "" + ToDecimal(d("")), items[0]);
      assert Convert(items[0], "", d) == [Entry("" + ToDecimal(d("")), items[0])];
      StringItems(items[1..], i + 1, draw);
      var all := ItemsConverted(items, i, draw);
      assert Values(all)[1..] == Values(all[1..]);
      assert all[1..] == ItemsConverted(items[1..], i + 1, draw);
    }
  }

  /** `parse_list` returns a list of strings unchanged and in order, whatever suffixes were drawn. */
  lemma {:induction false} StringsReadBack(fields: seq<Field>, k: nat, draw: Draw)
    requires ConvertibleFields(fields) && PlainNames(fields) && k < |fields| && fields[k].value.List?
    requires ConvertibleItems(fields[k].value.items)
    requires forall j :: 0 <= j < |fields[k].value.items| ==> fields[k].value.items[j].Str?
    ensures ParseList(Convert(Object(fields), "", draw), fields[k].name, '.') == fields[k].value.items
  {
    ParseFindsField(fields, k, draw);
    ParseListField(fields[k], draw);
    StringItems(fields[k].value.items, 0, Below(draw, fields[k].name + "."));
  }

  // ---------- dictionary values ----------

  lemma {:induction false} WithoutCountIn(d: Flat, e: Entry<string, Value>)
    ensures e in WithoutCount(d) <==> e in d && e.key != "#"
    ensures |WithoutCount(d)| <= |d|
  {
    if d != [] {
      WithoutCountIn(d[1..], e);
      assert e in d <==> e == d[0] || e in d[1..];
    }
  }

  lemma {:induction false} WithoutCountUnique(d: Flat)
    requires Unique(d)
    ensures Unique(WithoutCount(d))
  {
    if d != [] {
      WithoutCountUnique(d[1..]);
      var rest := WithoutCount(d[1..]);
      forall i | 0 <= i < |rest| ensures rest[i].key != d[0].key {
        WithoutCountIn(d[1..], rest[i]);
        var j :| 0 <= j < |d[1..]| && d[1..][j] == rest[i];
        assert d[j + 1] == rest[i];
      }
    }
  }

  /** A dictionary value below its own name: the length marker, then its entries. */
  function MarkedDict(inner: seq<Field>): Flat {
    PutAll([Entry("%", Int(|inner|))], AsDict(inner))
  }

  /** `parse_dict` returns the marked dictionary without a key `#`. */
  lemma {:induction false} ParseDictIs(fields: seq<Field>, k: nat, draw: Draw)
    requires ConvertibleFields(fields) && PlainNames(fields) && k < |fields| && fields[k].value.Object?
    ensures ParseDict(Convert(Object(fields), "", draw), fields[k].name, '.')
         == WithoutCount(MarkedDict(fields[k].value.fields))
  {
    var f, inner := fields[k], fields[k].value.fields;
    var q := f.name + ".";
    var d := Below(draw, q);
    var marked := [Entry("%", Int(|inner|))] + AsDict(inner);
    ParseFindsField(fields, k, draw);
    FieldIsPrefixed(f, draw);
    EntriesAre(inner);
    assert EntriesWrites(inner, "") == AsDict(inner);
    CollectPrefixed(q, [], BelowField(f, d));
    ParseOwn(PutAll([], marked), f.name);
    PutAllAppend([], [Entry("%", Int(|inner|))], AsDict(inner));
    PutAllOne<string, Value>([], "%", Int(|inner|));
    assert Put([], "%", Int(|inner|)) == [Entry("%", Int(|inner|))];
    assert PutAll([], marked) == MarkedDict(inner);
    PutAllUnique([], marked);
    WithoutCountUnique(MarkedDict(inner));
    var read := WithoutCount(MarkedDict(inner));
    assert [] + read == read;
    PutAllFresh([], read);
  }

  lemma {:induction false} PutAllEntryIn(d: Flat, more: Flat, e: Entry<string, Value>)
    requires Unique(d) && Unique(more)
    ensures e in PutAll(d, more) <==> e in more || (e in d && forall i :: 0 <= i < |more| ==> more[i].key != e.key)
    decreases |more|
  {
    if more != [] {
      var k, v := more[0].key, more[0].value;
      var d' := Put(d, k, v);
      PutKeys(d, k, v);
      PutEntryIn(d, k, v, e);
      PutAllEntryIn(d', more[1..], e);
      assert more[0] == Entry(k, v);
      assert e in more <==> e == more[0] || e in more[1..];
    }
  }

  lemma {:induction false} PutEntryIn(d: Flat, k: string, v: Value, e: Entry<string, Value>)
    requires Unique(d)
    ensures e in Put(d, k, v) <==> e == Entry(k, v) || (e in d && e.key != k)
  {
    var d', i := Put(d, k, v), IndexOf(d, k);
    assert d'[i] == Entry(k, v);
    if e in d && e.key != k {
      var j :| 0 <= j < |d| && d[j] == e;
      assert d'[j] == e;
    }
  }

  /**
   `parse_dict` returns every entry of a dictionary value except one under `#`; the only other entry is the
   length marker `%`, which gives way to an entry that has this key itself.
   */
  lemma {:induction false} DictReadsBack(fields: seq<Field>, k: nat, draw: Draw, e: Entry<string, Value>)
    requires ConvertibleFields(fields) && PlainNames(fields) && k < |fields| && fields[k].value.Object?
    requires DistinctNames(fields[k].value.fields)
    ensures var inner := AsDict(fields[k].value.fields);
      e in ParseDict(Convert(Object(fields), "", draw), fields[k].name, '.') <==>
        (e in inner && e.key != "#")
        || (e == Entry("%", Int(|inner|)) && forall i :: 0 <= i < |inner| ==> inner[i].key != "%")
  {
    var inner := AsDict(fields[k].value.fields);
    ParseDictIs(fields, k, draw);
    WithoutCountIn(MarkedDict(fields[k].value.fields), e);
    PutAllEntryIn([Entry("%", Int(|inner|))], inner, e);
  }
}
