/**
 Terraform state attributes: the flattening of a version 4 attribute tree into dotted keys
 (`convert_to_v3_structure`) and the readers of dotted keys (`_parse_prefix` and its users).
 */
module Flatten {
  import opened Text
  import opened Outcomes
  import opened OrderedDict

  /** A JSON value; the fields of an object are a dictionary. */
  datatype Value =
    | Str(s: string) | Int(n: int) | Bool(b: bool) | Null
    | List(items: seq<Value>)
    | Object(fields: seq<Field>)

  datatype Field = Field(name: string, value: Value)

  type Flat = Dict<string, Value>

  /** What `convert_to_v3_structure` accepts: a string, or an object whose lists hold acceptable items. */
  predicate Convertible(v: Value) {
    match v
    case Str(_) => true
    case Object(fields) => ConvertibleFields(fields)
    case _ => false
  }

  predicate ConvertibleFields(fields: seq<Field>) {
    fields != [] ==>
      (fields[0].value.List? ==> ConvertibleItems(fields[0].value.items)) && ConvertibleFields(fields[1..])
  }

  predicate ConvertibleItems(items: seq<Value>) {
    items != [] ==> Convertible(items[0]) && ConvertibleItems(items[1..])
  }

  // ---------- flattening ----------

  /** The random numbers: any choice of one for each prefix at which a string stands in a list. */
  type Draw = string -> nat

  /** All assignments `result[key] = value`, in the order in which they are made. */
  function Writes(v: Value, prefix: string, draw: Draw): Flat
    requires Convertible(v)
    decreases v, 1
  {
    match v
    case Str(_) => [Entry(prefix + ToDecimal(draw(prefix)), v)]
    case Object(fields) => FieldsWrites(fields, prefix, draw)
  }

  function FieldsWrites(fields: seq<Field>, prefix: string, draw: Draw): Flat
    requires ConvertibleFields(fields)
    decreases fields, 1
  {
    if fields == [] then [] else FieldWrites(fields[0], prefix, draw) + FieldsWrites(fields[1..], prefix, draw)
  }

  function FieldWrites(f: Field, prefix: string, draw: Draw): Flat
    requires f.value.List? ==> ConvertibleItems(f.value.items)
    decreases f, 1
  {
    match f.value
    case List(items) =>
      (if items == [] then [] else [Entry(prefix + f.name + ".#", Int(|items|))])
      + ItemsWrites(items, 0, prefix + f.name + ".", draw)
    case Object(inner) =>
      [Entry(prefix + f.name + ".%", Int(|inner|))] + EntriesWrites(inner, prefix + f.name + ".")
    case value => [Entry(prefix + f.name, value)]
  }

  function ItemsWrites(items: seq<Value>, i: nat, prefix: string, draw: Draw): Flat
    requires ConvertibleItems(items)
    decreases items, 1
  {
    if items == [] then []
    else Writes(items[0], prefix + ToDecimal(i) + ".", draw) + ItemsWrites(items[1..], i + 1, prefix, draw)
  }

  function EntriesWrites(inner: seq<Field>, prefix: string): Flat {
    if inner == [] then [] else [Entry(prefix + inner[0].name, inner[0].value)] + EntriesWrites(inner[1..], prefix)
  }

  /** The dictionary that the assignments leave. */
  function Convert(v: Value, prefix: string, draw: Draw): Flat
    requires Convertible(v)
  {
    PutAll([], Writes(v, prefix, draw))
  }

  lemma {:induction false} ConvertibleField(fields: seq<Field>, i: nat)
    requires ConvertibleFields(fields) && i < |fields|
    ensures fields[i].value.List? ==> ConvertibleItems(fields[i].value.items)
  {
    if i > 0 {
      ConvertibleField(fields[1..], i - 1);
    }
  }

  lemma {:induction false} ConvertibleItem(items: seq<Value>, i: nat)
    requires ConvertibleItems(items) && i < |items|
    ensures Convertible(items[i])
  {
    if i > 0 {
      ConvertibleItem(items[1..], i - 1);
    }
  }

  lemma {:induction false} ConvertibleFieldsFrom(fields: seq<Field>, i: nat)
    requires ConvertibleFields(fields) && i <= |fields|
    ensures ConvertibleFields(fields[i..])
  {
    if i > 0 {
      ConvertibleFieldsFrom(fields[1..], i - 1);
      assert fields[1..][i - 1..] == fields[i..];
    }
  }

  lemma {:induction false} ConvertibleItemsFrom(items: seq<Value>, i: nat)
    requires ConvertibleItems(items) && i <= |items|
    ensures ConvertibleItems(items[i..])
  {
    if i > 0 {
      ConvertibleItemsFrom(items[1..], i - 1);
      assert items[1..][i - 1..] == items[i..];
    }
  }

  lemma {:induction false} UpdateWithConverted(result: Flat, v: Value, prefix: string, draw: Draw)
    requires Convertible(v)
    ensures PutAll(result, Convert(v, prefix, draw)) == PutAll(result, Writes(v, prefix, draw))
  {
    PutAllOfPutAll(result, Writes(v, prefix, draw));
  }

  /** `convert_to_v3_structure`: the recursion and the loops that fill the result. */
  method ConvertToV3(attributes: Value, prefix: string, draw: Draw) returns (result: Flat)
    requires Convertible(attributes)
    ensures result == Convert(attributes, prefix, draw)
    decreases attributes, 0
  {
    result := [];
    if attributes.Str? {
      PutAllOne<string, Value>([], prefix + ToDecimal(draw(prefix)), attributes);
      return Put([], prefix + ToDecimal(draw(prefix)), attributes);
    }
    var fields := attributes.fields;
    assert fields[0..] == fields;
    for i := 0 to |fields|
      invariant ConvertibleFields(fields[i..])
      invariant PutAll(result, FieldsWrites(fields[i..], prefix, draw)) == Convert(attributes, prefix, draw)
    {
      ConvertibleField(fields, i);
      ConvertibleFieldsFrom(fields, i + 1);
      assert fields[i..][0] == fields[i] && fields[i..][1..] == fields[i + 1..];
      PutAllAppend(result, FieldWrites(fields[i], prefix, draw), FieldsWrites(fields[i + 1..], prefix, draw));
      result := ConvertField(result, fields[i], prefix, draw);
    }
  }

  /** One round of the loop over the attributes. */
  method ConvertField(before: Flat, f: Field, prefix: string, draw: Draw) returns (result: Flat)
    requires f.value.List? ==> ConvertibleItems(f.value.items)
    ensures result == PutAll(before, FieldWrites(f, prefix, draw))
    decreases f, 0
  {
    result := before;
    match f.value {
      case List(items) =>
        ghost var count := if items == [] then [] else [Entry(prefix + f.name + ".#", Int(|items|))];
        PutAllAppend(before, count, ItemsWrites(items, 0, prefix + f.name + ".", draw));
        if |items| > 0 {
          PutAllOne(before, prefix + f.name + ".#", Int(|items|));
          result := Put(result, prefix + f.name + ".#", Int(|items|));
        }
        assert items[0..] == items;
        for i := 0 to |items|
          invariant ConvertibleItems(items[i..])
          invariant PutAll(result, ItemsWrites(items[i..], i, prefix + f.name + ".", draw))
                 == PutAll(before, FieldWrites(f, prefix, draw))
        {
          ConvertibleItem(items, i);
          ConvertibleItemsFrom(items, i + 1);
          assert items[i..][0] == items[i] && items[i..][1..] == items[i + 1..];
          var path := prefix + f.name + "." + ToDecimal(i) + ".";
          PutAllAppend(result, Writes(items[i], path, draw),
                       ItemsWrites(items[i + 1..], i + 1, prefix + f.name + ".", draw));
          var converted := ConvertToV3(items[i], path, draw);
          UpdateWithConverted(result, items[i], path, draw);
          result := PutAll(result, converted);
        }
      case Object(inner) =>
        PutAllAppend(before, [Entry(prefix + f.name + ".%", Int(|inner|))],
                     EntriesWrites(inner, prefix + f.name + "."));
        PutAllOne(before, prefix + f.name + ".%", Int(|inner|));
        result := Put(result, prefix + f.name + ".%", Int(|inner|));
        assert inner[0..] == inner;
        for i := 0 to |inner|
          invariant PutAll(result, EntriesWrites(inner[i..], prefix + f.name + "."))
                 == PutAll(before, FieldWrites(f, prefix, draw))
        {
          assert inner[i..][0] == inner[i] && inner[i..][1..] == inner[i + 1..];
          var key := prefix + f.name + "." + inner[i].name;
          PutAllAppend(result, [Entry(key, inner[i].value)], EntriesWrites(inner[i + 1..], prefix + f.name + "."));
          PutAllOne(result, key, inner[i].value);
          result := Put(result, key, inner[i].value);
        }
      case value =>
        PutAllOne(before, prefix + f.name, value);
        result := Put(result, prefix + f.name, value);
    }
  }

  // ---------- reading ----------

  /** `_parse_prefix`: the entries under a prefix, without the prefix and without the `#` marker. */
  function ParsePrefix(source: Flat, prefix: string, sep: char): Flat {
    if source == [] then []
    else
      var rest := ParsePrefix(source[1..], prefix, sep);
      match SplitFirst(source[0].key, sep)
      case None => rest
      case Some((head, tail)) =>
        if head != prefix || tail == "#" then rest else [Entry(tail, source[0].value)] + rest
  }

  function ParseList(source: Flat, prefix: string, sep: char): seq<Value> {
    Values(ParsePrefix(source, prefix, sep))
  }

  function Values<V>(d: Dict<string, V>): (vs: seq<V>)
    ensures |vs| == |d| && forall i :: 0 <= i < |d| ==> vs[i] == d[i].value
  {
    if d == [] then [] else [d[0].value] + Values(d[1..])
  }

  function ParseDict(source: Flat, prefix: string, sep: char): Flat {
    PutAll([], ParsePrefix(source, prefix, sep))
  }

  function GetOr<V>(d: Dict<string, V>, k: string, default: V): V {
    if Has(d, k) then Get(d, k) else default
  }

  /** The grouping loop of `parse_attr_list`; `None` when a key has no second separator to unpack. */
  function Group(attrs: Dict<string, Flat>, entries: Flat, sep: char): Option<Dict<string, Flat>>
    decreases |entries|
  {
    if entries == [] then Some(attrs)
    else
      match SplitFirst(entries[0].key, sep)
      case None => None
      case Some((idx, key)) =>
        Group(Put(attrs, idx, Put(GetOr(attrs, idx, []), key, entries[0].value)), entries[1..], sep)
  }

  function ParsedAttrList(source: Flat, prefix: string, sep: char): Option<seq<Flat>> {
    match Group([], ParsePrefix(source, prefix, sep), sep)
    case None => None
    case Some(attrs) => Some(Values(attrs))
  }

  method ParseAttrList(source: Flat, prefix: string, sep: char) returns (records: Option<seq<Flat>>)
    ensures records == ParsedAttrList(source, prefix, sep)
  {
    var entries := ParsePrefix(source, prefix, sep);
    var attrs: Dict<string, Flat> := [];
    assert entries[0..] == entries;
    for i := 0 to |entries|
      invariant Group(attrs, entries[i..], sep) == Group([], entries, sep)
    {
      assert entries[i..][0] == entries[i] && entries[i..][1..] == entries[i + 1..];
      var parts := SplitFirst(entries[i].key, sep);
      if parts.None? {
        return None;
      }
      var (idx, key) := parts.value;
      attrs := Put(attrs, idx, Put(GetOr(attrs, idx, []), key, entries[i].value));
    }
    return Some(Values(attrs));
  }
}
