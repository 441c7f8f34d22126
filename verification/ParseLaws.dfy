/** What the readers of dotted keys give for any source and any separator. */
module ParseLaws {
  import opened Text
  import opened Outcomes
  import opened OrderedDict
  import opened Flatten
  import opened FlattenLaws
  import opened Paths
  import opened ReadBack

  /** The entries whose key begins with `lead`, without it, in their order; the length marker of a list is left out. */
  function Behind(source: Flat, lead: string): Flat {
    if source == [] then []
    else
      var key, value := source[0].key, source[0].value;
      (if lead <= key && key[|lead|..] != "#" then [Entry(key[|lead|..], value)] else []) + Behind(source[1..], lead)
  }

  /** For any separator, a reader sees what stands behind its prefix and one separator. */
  lemma {:induction false} ParsePrefixMeans(source: Flat, prefix: string, sep: char)
    ensures ParsePrefix(source, prefix, sep) == if sep in prefix then [] else Behind(source, prefix + [sep])
  {
    if source != [] {
      ParsePrefixMeans(source[1..], prefix, sep);
      KeyBehind(source[0].key, prefix, sep);
    }
  }

  lemma {:induction false} KeyBehind(key: string, prefix: string, sep: char)
    ensures sep !in prefix ==>
      (prefix + [sep] <= key <==> SplitFirst(key, sep).Some? && SplitFirst(key, sep).value.0 == prefix)
    ensures sep !in prefix && prefix + [sep] <= key ==>
      SplitFirst(key, sep) == Some((prefix, key[|prefix| + 1..]))
    ensures SplitFirst(key, sep).Some? ==> sep !in SplitFirst(key, sep).value.0
  {
    if sep !in prefix && prefix + [sep] <= key {
      var below := key[|prefix| + 1..];
      assert key == prefix + [sep] + below;
      SplitFirstAt(prefix, sep, below);
    }
  }

  lemma {:induction false} BehindIn(source: Flat, lead: string, e: Entry<string, Value>)
    ensures e in Behind(source, lead) <==> e.key != "#" && Entry(lead + e.key, e.value) in source
  {
    if source != [] {
      var first := source[0];
      BehindIn(source[1..], lead, e);
      assert source == [first] + source[1..];
      if lead <= first.key {
        assert first.key == lead + first.key[|lead|..];
        assert first == Entry(lead + e.key, e.value) ==> first.key[|lead|..] == e.key;
      }
    }
  }

  lemma {:induction false} LookupIs(d: Flat, k: string, v: Value)
    requires Unique(d)
    ensures Lookup(d, k) == Some(v) <==> Entry(k, v) in d
  {
    if Entry(k, v) in d {
      var i :| 0 <= i < |d| && d[i] == Entry(k, v);
      IndexIs(d, k, i);
    }
  }

  lemma {:induction false} BehindUnique(source: Flat, lead: string)
    requires Unique(source)
    ensures Unique(Behind(source, lead))
  {
    if source != [] {
      var rest := Behind(source[1..], lead);
      BehindUnique(source[1..], lead);
      if lead <= source[0].key {
        forall i | 0 <= i < |rest| ensures lead + rest[i].key != source[0].key {
          BehindIn(source[1..], lead, rest[i]);
          var j :| 0 <= j < |source[1..]| && source[1..][j] == Entry(lead + rest[i].key, rest[i].value);
          assert source[j + 1].key != source[0].key;
        }
        assert source[0].key == lead + source[0].key[|lead|..];
      }
    }
  }

  lemma {:induction false} LookupBehind(source: Flat, lead: string, x: string)
    requires Unique(source)
    ensures Lookup(Behind(source, lead), x) == if x == "#" then None else Lookup(source, lead + x)
  {
    hide Lookup, Behind, Unique;
    BehindUnique(source, lead);
    var found, there := Lookup(Behind(source, lead), x), Lookup(source, lead + x);
    if found.Some? {
      LookupIs(Behind(source, lead), x, found.value);
      BehindIn(source, lead, Entry(x, found.value));
      LookupIs(source, lead + x, found.value);
    }
    if there.Some? {
      LookupIs(source, lead + x, there.value);
      BehindIn(source, lead, Entry(x, there.value));
      LookupIs(Behind(source, lead), x, there.value);
    }
  }

  lemma {:induction false} ParseDictIsPrefix(source: Flat, prefix: string, sep: char)
    requires Unique(source)
    ensures Unique(ParsePrefix(source, prefix, sep))
    ensures ParseDict(source, prefix, sep) == ParsePrefix(source, prefix, sep)
  {
    hide Behind, ParsePrefix, PutAll;
    var entries := ParsePrefix(source, prefix, sep);
    ParsePrefixMeans(source, prefix, sep);
    BehindUnique(source, prefix + [sep]);
    assert [] + entries == entries;
    PutAllFresh([], entries);
  }

  /** `parse_dict` holds under `x` what the source holds under the prefix, the separator and `x`. */
  lemma {:induction false} ParseDictMeans(source: Flat, prefix: string, sep: char, x: string)
    requires Unique(source)
    ensures Lookup(ParseDict(source, prefix, sep), x)
         == if sep in prefix || x == "#" then None else Lookup(source, prefix + [sep] + x)
  {
    hide Behind, ParsePrefix, ParseDict;
    ParseDictIsPrefix(source, prefix, sep);
    ParsePrefixMeans(source, prefix, sep);
    LookupBehind(source, prefix + [sep], x);
  }

  /** `parse_list` holds, in order, the values of those entries. */
  lemma {:induction false} ParseListMeans(source: Flat, prefix: string, sep: char)
    ensures ParseList(source, prefix, sep) == if sep in prefix then [] else Values(Behind(source, prefix + [sep]))
  {
    hide Behind, ParsePrefix;
    ParsePrefixMeans(source, prefix, sep);
  }

  // ---------- scalar attributes ----------

  /**
   Read with any separator, flattened attributes give under `x` what the tree has at the prefix, the separator and
   `x`.
   */
  lemma {:induction false} ConvertedDictMeans(fields: seq<Field>, prefix: string, sep: char, x: string, draw: Draw)
    requires ConvertibleFields(fields) && WellNamed(Object(fields)) && sep !in prefix && x != "#"
    ensures Lookup(ParseDict(Convert(Object(fields), "", draw), prefix, sep), x)
         == ValueAt(Object(fields), prefix + [sep] + x, draw)
  {
    hide ParseDict, Lookup, ValueAt, WellNamed;
    var flat := Convert(Object(fields), "", draw);
    PutAllUnique([], Writes(Object(fields), "", draw));
    ParseDictMeans(flat, prefix, sep, x);
    LookupValue(Object(fields), prefix + [sep] + x, draw);
  }

  predicate IsScalar(v: Value) {
    !v.List? && !v.Object?
  }

  lemma {:induction false} ScalarAt(fields: seq<Field>, k: nat, draw: Draw)
    requires ConvertibleFields(fields) && PlainNames(fields) && k < |fields| && IsScalar(fields[k].value)
    ensures FieldsAt(fields, fields[k].name, draw) == Some(fields[k].value)
  {
    assert Head(fields[k].name) == fields[k].name;
    if k > 0 {
      ScalarAt(fields[1..], k - 1, draw);
    }
  }

  /** A scalar attribute `flavor_name` is found under `name` by reading `flavor` with the separator `_`. */
  lemma {:induction false} ScalarReadsBehindSeparator(fields: seq<Field>, k: nat, prefix: string, sep: char, x: string,
                                                      draw: Draw)
    requires ConvertibleFields(fields) && WellNamed(Object(fields)) && k < |fields| && IsScalar(fields[k].value)
    requires sep !in prefix && x != "#" && fields[k].name == prefix + [sep] + x
    ensures Lookup(ParseDict(Convert(Object(fields), "", draw), prefix, sep), x) == Some(fields[k].value)
  {
    hide ParseDict, Lookup, Convert;
    ConvertedDictMeans(fields, prefix, sep, x, draw);
    ScalarAt(fields, k, draw);
  }

  /** A scalar attribute, null for instance, reads as nothing: as the empty list, dictionary and list of records. */
  lemma {:induction false} ScalarReadsAsNothing(fields: seq<Field>, k: nat, draw: Draw)
    requires ConvertibleFields(fields) && PlainNames(fields) && k < |fields| && IsScalar(fields[k].value)
    ensures var flat, name := Convert(Object(fields), "", draw), fields[k].name;
      ParseList(flat, name, '.') == [] && ParseDict(flat, name, '.') == []
      && ParsedAttrList(flat, name, '.') == Some([])
  {
    var f := fields[k];
    ParseFindsField(fields, k, draw);
    assert "" + f.name == f.name;
    PutAllOne<string, Value>([], f.name, f.value);
    assert Put([], f.name, f.value) == [Entry(f.name, f.value)];
    assert [Entry(f.name, f.value)][1..] == [];
  }

  // ---------- records ----------

  /** What the record of an index holds under a key. */
  function InRecord(attrs: Dict<string, Flat>, idx: string, key: string): Option<Value> {
    if Has(attrs, idx) then Lookup(Get(attrs, idx), key) else None
  }

  lemma {:induction false} RecordAfterPut(attrs: Dict<string, Flat>, i: string, k: string, v: Value, idx: string,
                                          key: string)
    ensures InRecord(Put(attrs, i, Put(GetOr(attrs, i, []), k, v)), idx, key)
         == if idx == i && key == k then Some(v) else InRecord(attrs, idx, key)
  {
    var record := Put(GetOr(attrs, i, []), k, v);
    LookupPut(GetOr(attrs, i, []), k, v, key);
    RecordPut(attrs, i, record, idx);
  }

  lemma {:induction false} RecordPut(attrs: Dict<string, Flat>, i: string, record: Flat, idx: string)
    ensures var after := Put(attrs, i, record);
      Has(after, idx) == (Has(attrs, idx) || idx == i)
      && (Has(after, idx) ==> Get(after, idx) == if idx == i then record else Get(attrs, idx))
  {
    var after, n := Put(attrs, i, record), IndexOf(attrs, idx);
    if idx == i || n < |attrs| {
      IndexIs(after, idx, n);
    } else {
      IndexIs(after, idx, |after|);
    }
  }

  lemma {:induction false} SameKeyIff(sep: char, i: string, k: string, idx: string, key: string)
    requires sep !in i && sep !in idx
    ensures i + [sep] + k == idx + [sep] + key <==> i == idx && k == key
  {
    SplitFirstAt(i, sep, k);
    SplitFirstAt(idx, sep, key);
  }

  lemma {:induction false} GroupHolds(attrs: Dict<string, Flat>, entries: Flat, sep: char, idx: string, key: string)
    requires Unique(entries) && sep !in idx
    ensures Group(attrs, entries, sep).None? <==> exists i :: 0 <= i < |entries| && sep !in entries[i].key
    ensures Group(attrs, entries, sep).Some? ==>
      var read := Lookup(entries, idx + [sep] + key);
      InRecord(Group(attrs, entries, sep).value, idx, key) == if read.Some? then read else InRecord(attrs, idx, key)
    decreases |entries|
  {
    hide InRecord, Put, GetOr;
    if entries != [] {
      var first, rest := entries[0], entries[1..];
      assert entries == [first] + rest && forall i :: 0 <= i < |rest| ==> rest[i] == entries[i + 1];
      if sep in first.key {
        var (i, k) := SplitFirst(first.key, sep).value;
        var more := Put(attrs, i, Put(GetOr(attrs, i, []), k, first.value));
        GroupHolds(more, rest, sep, idx, key);
        RecordAfterPut(attrs, i, k, first.value, idx, key);
        SameKeyIff(sep, i, k, idx, key);
        LookupFirst(first, rest, idx + [sep] + key);
        if exists j :: 0 <= j < |entries| && sep !in entries[j].key {
          var j :| 0 <= j < |entries| && sep !in entries[j].key;
          assert rest[j - 1] == entries[j];
        }
      }
    }
  }

  lemma {:induction false} LookupFirst(first: Entry<string, Value>, rest: Flat, k: string)
    requires Unique([first] + rest)
    ensures Lookup([first] + rest, k) == if k == first.key then Some(first.value) else Lookup(rest, k)
    ensures k == first.key ==> Lookup(rest, k) == None
  {
    var all := [first] + rest;
    assert all[0] == first && all[1..] == rest;
    if k == first.key {
      assert forall i :: 0 <= i < |rest| ==> rest[i] == all[i + 1];
      IndexIs(rest, k, |rest|);
    }
  }

  ghost predicate NoEmptyRecord(attrs: Dict<string, Flat>) {
    forall i :: 0 <= i < |attrs| ==> attrs[i].value != []
  }

  lemma {:induction false} GroupLeavesNoEmptyRecord(attrs: Dict<string, Flat>, entries: Flat, sep: char)
    requires NoEmptyRecord(attrs) && Group(attrs, entries, sep).Some?
    ensures NoEmptyRecord(Group(attrs, entries, sep).value)
    decreases |entries|
  {
    if entries != [] {
      var (i, k) := SplitFirst(entries[0].key, sep).value;
      GroupLeavesNoEmptyRecord(Put(attrs, i, Put(GetOr(attrs, i, []), k, entries[0].value)), entries[1..], sep);
    }
  }

  /**
   `parse_attr_list` fails exactly when a key behind the prefix has no second separator; otherwise it gives the records
   of a dictionary in which index and key hold what the source has at the prefix, the index and the key.
   */
  lemma {:induction false} ParseAttrListMeans(source: Flat, prefix: string, sep: char)
    requires Unique(source) && sep !in prefix && sep != '#'
    ensures ParsedAttrList(source, prefix, sep).None?
       <==> exists e :: e in Behind(source, prefix + [sep]) && sep !in e.key
    ensures ParsedAttrList(source, prefix, sep).Some? ==> exists attrs: Dict<string, Flat> ::
      ParsedAttrList(source, prefix, sep) == Some(Values(attrs)) && NoEmptyRecord(attrs)
      && forall idx, key :: sep !in idx ==>
           InRecord(attrs, idx, key) == Lookup(source, prefix + [sep] + (idx + [sep] + key))
  {
    hide Behind, ParsePrefix, Group, InRecord, Lookup;
    var entries := ParsePrefix(source, prefix, sep);
    ParsePrefixMeans(source, prefix, sep);
    ParseDictIsPrefix(source, prefix, sep);
    GroupHolds([], entries, sep, "", "");
    if Group([], entries, sep).Some? {
      var attrs := Group([], entries, sep).value;
      GroupLeavesNoEmptyRecord([], entries, sep);
      forall idx, key | sep !in idx
        ensures InRecord(attrs, idx, key) == Lookup(source, prefix + [sep] + (idx + [sep] + key))
      {
        GroupHolds([], entries, sep, idx, key);
        NoRecordAtFirst(idx, key);
        LookupBehind(source, prefix + [sep], idx + [sep] + key);
        assert (idx + [sep] + key)[|idx|] == sep;
      }
    }
  }

  lemma {:induction false} NoRecordAtFirst(idx: string, key: string)
    ensures InRecord([], idx, key) == None
  {
  }
}
