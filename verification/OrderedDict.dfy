/**
 Python dictionaries: keys are unique and remembered in the order of their first insertion.
 Overwriting a key keeps its place; deleting closes the gap.
 */
module OrderedDict {

  datatype Entry<+K, +V> = Entry(key: K, value: V)

  type Dict<+K, +V> = seq<Entry<K, V>>

  function Keys<K, V>(d: Dict<K, V>): (ks: seq<K>)
    ensures |ks| == |d|
    ensures forall i :: 0 <= i < |d| ==> ks[i] == d[i].key
  {
    if d == [] then [] else [d[0].key] + Keys(d[1..])
  }

  ghost predicate Distinct<T>(s: seq<T>) {
    forall i, j :: 0 <= i < j < |s| ==> s[i] != s[j]
  }

  ghost predicate Unique<K, V>(d: Dict<K, V>) {
    forall i, j :: 0 <= i < j < |d| ==> d[i].key != d[j].key
  }

  /** The place of a key, or the length of the dictionary when it is absent. */
  function IndexOf<K(==), V>(d: Dict<K, V>, k: K): (i: nat)
    ensures i <= |d|
    ensures i < |d| ==> d[i].key == k
    ensures forall j :: 0 <= j < i ==> d[j].key != k
  {
    if d == [] then 0 else if d[0].key == k then 0 else 1 + IndexOf(d[1..], k)
  }

  predicate Has<K(==), V>(d: Dict<K, V>, k: K) {
    IndexOf(d, k) < |d|
  }

  function Get<K(==), V>(d: Dict<K, V>, k: K): V
    requires Has(d, k)
  {
    d[IndexOf(d, k)].value
  }

  function Put<K(==), V>(d: Dict<K, V>, k: K, v: V): Dict<K, V> {
    var i := IndexOf(d, k);
    if i < |d| then d[i := Entry(k, v)] else d + [Entry(k, v)]
  }

  function Remove<K(==), V>(d: Dict<K, V>, k: K): Dict<K, V> {
    var i := IndexOf(d, k);
    if i < |d| then d[..i] + d[i + 1..] else d
  }

  function PutAll<K(==), V>(d: Dict<K, V>, more: Dict<K, V>): Dict<K, V>
    decreases |more|
  {
    if more == [] then d else PutAll(Put(d, more[0].key, more[0].value), more[1..])
  }

  function ToSet<T(==)>(s: seq<T>): set<T> {
    set x | x in s
  }

  // ---------- laws ----------

  lemma HasKey<K, V>(d: Dict<K, V>, k: K)
    ensures Has(d, k) <==> k in Keys(d)
  {
    if Has(d, k) {
      assert Keys(d)[IndexOf(d, k)] == k;
    } else {
      assert forall i :: 0 <= i < |Keys(d)| ==> Keys(d)[i] == d[i].key;
    }
  }

  /** The first entry carrying a key is where `IndexOf` finds it. */
  lemma IndexIs<K, V>(d: Dict<K, V>, k: K, i: nat)
    requires i <= |d|
    requires i < |d| ==> d[i].key == k
    requires forall j :: 0 <= j < i ==> d[j].key != k
    ensures IndexOf(d, k) == i
  {
  }

  lemma KeysAppend<K, V>(a: Dict<K, V>, b: Dict<K, V>)
    ensures Keys(a + b) == Keys(a) + Keys(b)
  {
    forall i | 0 <= i < |a + b| ensures Keys(a + b)[i] == (Keys(a) + Keys(b))[i] {
    }
  }

  lemma UniqueKeys<K, V>(d: Dict<K, V>)
    ensures Unique(d) <==> Distinct(Keys(d))
  {
    if Distinct(Keys(d)) {
      forall i, j | 0 <= i < j < |d| ensures d[i].key != d[j].key {
        assert Keys(d)[i] != Keys(d)[j];
      }
    }
  }

  lemma PutKeys<K, V>(d: Dict<K, V>, k: K, v: V)
    ensures Has(d, k) ==> Keys(Put(d, k, v)) == Keys(d)
    ensures !Has(d, k) ==> Keys(Put(d, k, v)) == Keys(d) + [k] && Put(d, k, v) == d + [Entry(k, v)]
    ensures Has(Put(d, k, v), k)
    ensures Unique(d) ==> Unique(Put(d, k, v))
  {
    var d' := Put(d, k, v);
    var i := IndexOf(d, k);
    if i < |d| {
      assert Keys(d') == Keys(d);
    } else {
      KeysAppend(d, [Entry(k, v)]);
    }
    IndexIs(d', k, i);
  }

  lemma PutKeyIn<K, V>(d: Dict<K, V>, k: K, v: V, x: K)
    ensures x in Keys(Put(d, k, v)) <==> x == k || x in Keys(d)
  {
    PutKeys(d, k, v);
    HasKey(d, k);
    HasKey(Put(d, k, v), k);
  }

  lemma {:induction false} PutAllAppend<K, V>(d: Dict<K, V>, a: Dict<K, V>, b: Dict<K, V>)
    ensures PutAll(d, a + b) == PutAll(PutAll(d, a), b)
    decreases |a|
  {
    if a == [] {
      assert a + b == b;
    } else {
      assert (a + b)[1..] == a[1..] + b;
      PutAllAppend(Put(d, a[0].key, a[0].value), a[1..], b);
    }
  }

  lemma PutAllOne<K, V>(d: Dict<K, V>, k: K, v: V)
    ensures PutAll(d, [Entry(k, v)]) == Put(d, k, v)
  {
    assert PutAll(d, [Entry(k, v)]) == PutAll(Put(d, k, v), [Entry(k, v)][1..]);
  }

  lemma {:induction false} PutAllUnique<K, V>(d: Dict<K, V>, more: Dict<K, V>)
    requires Unique(d)
    ensures Unique(PutAll(d, more))
    decreases |more|
  {
    if more != [] {
      PutKeys(d, more[0].key, more[0].value);
      PutAllUnique(Put(d, more[0].key, more[0].value), more[1..]);
    }
  }

  lemma {:induction false} PutAllKeyIn<K, V>(d: Dict<K, V>, more: Dict<K, V>, x: K)
    ensures x in Keys(PutAll(d, more)) <==> x in Keys(d) || x in Keys(more)
    decreases |more|
  {
    if more != [] {
      PutKeyIn(d, more[0].key, more[0].value, x);
      PutAllKeyIn(Put(d, more[0].key, more[0].value), more[1..], x);
      assert Keys(more) == [more[0].key] + Keys(more[1..]);
    }
  }

  /** Writing keys that are new and pairwise distinct is appending. */
  lemma {:induction false} PutAllFresh<K, V>(d: Dict<K, V>, more: Dict<K, V>)
    requires Unique(d + more)
    ensures PutAll(d, more) == d + more
    decreases |more|
  {
    if more == [] {
      assert d + more == d;
    } else {
      var k := more[0].key;
      assert (d + more)[|d|].key == k;
      assert forall i :: 0 <= i < |d| ==> (d + more)[i] == d[i];
      IndexIs(d, k, |d|);
      assert d + [Entry(k, more[0].value)] + more[1..] == d + more;
      PutAllFresh(Put(d, k, more[0].value), more[1..]);
    }
  }

  /** Rewriting a table over one whose keys are a prefix of its own keys gives the table itself. */
  lemma {:induction false} PutAllOverPrefix<K, V>(d: Dict<K, V>, t: Dict<K, V>, j: nat)
    requires j <= |d| <= |t|
    requires Unique(t)
    requires forall i :: 0 <= i < |d| ==> d[i].key == t[i].key
    requires forall i :: 0 <= i < j ==> d[i] == t[i]
    ensures PutAll(d, t[j..]) == t
    decreases |t| - j
  {
    if j == |t| {
      assert t[j..] == [];
      assert d == t;
    } else {
      assert t[j..][1..] == t[j + 1..];
      IndexIs(d, t[j].key, j);
      var d' := Put(d, t[j].key, t[j].value);
      PutAllOverPrefix(d', t, j + 1);
    }
  }

  /** Writing a dictionary that was itself collected from writes is making those writes. */
  lemma {:induction false} PutAllOfPutAll<K, V>(d: Dict<K, V>, writes: Dict<K, V>)
    ensures PutAll(d, PutAll([], writes)) == PutAll(d, writes)
    decreases |writes|
  {
    if writes != [] {
      var front, last := writes[..|writes| - 1], writes[|writes| - 1];
      assert writes == front + [Entry(last.key, last.value)];
      PutAllOfPutAll(d, front);
      PutAllAppend(d, front, [Entry(last.key, last.value)]);
      PutAllAppend([], front, [Entry(last.key, last.value)]);
      PutAllUnique([], front);
      var f := PutAll([], front);
      PutAllOne(f, last.key, last.value);
      PutAllOne(PutAll(d, f), last.key, last.value);
      PutLast(d, f, last.key, last.value);
    }
  }

  lemma PutAllAround<K, V>(d: Dict<K, V>, a: Dict<K, V>, k: K, v: V, b: Dict<K, V>)
    ensures PutAll(d, a + [Entry(k, v)] + b) == PutAll(Put(PutAll(d, a), k, v), b)
  {
    hide PutAll, Put;
    PutAllAppend(d, a + [Entry(k, v)], b);
    PutAllAppend(d, a, [Entry(k, v)]);
    PutAllOne(PutAll(d, a), k, v);
  }

  lemma PutLast<K, V>(d: Dict<K, V>, f: Dict<K, V>, k: K, v: V)
    requires Unique(f)
    ensures PutAll(d, Put(f, k, v)) == Put(PutAll(d, f), k, v)
  {
    hide PutAll, Keys;
    var i := IndexOf(f, k);
    if i < |f| {
      var a, b, w := f[..i], f[i + 1..], f[i].value;
      assert f == a + [Entry(k, w)] + b;
      assert Put(f, k, v) == a + [Entry(k, v)] + b;
      assert forall j :: 0 <= j < |b| ==> b[j].key != k;
      hide Put, IndexOf;
      var e := PutAll(d, a);
      PutAllAround(d, a, k, w, b);
      PutAllAround(d, a, k, v, b);
      PutTwice(e, k, w, v);
      PutKeys(e, k, w);
      PutCommutes(Put(e, k, w), b, k, v);
    } else {
      PutAllAppend(d, f, [Entry(k, v)]);
      PutAllOne(PutAll(d, f), k, v);
    }
  }

  lemma PutTwice<K, V>(d: Dict<K, V>, k: K, v: V, w: V)
    ensures Put(Put(d, k, v), k, w) == Put(d, k, w)
  {
    IndexIs(Put(d, k, v), k, IndexOf(d, k));
  }

  lemma {:induction false} PutCommutes<K, V>(d: Dict<K, V>, b: Dict<K, V>, k: K, v: V)
    requires Has(d, k) && forall i :: 0 <= i < |b| ==> b[i].key != k
    ensures PutAll(Put(d, k, v), b) == Put(PutAll(d, b), k, v)
    decreases |b|
  {
    if b != [] {
      var x, y := b[0].key, b[0].value;
      PutSwap(d, k, v, x, y);
      PutCommutes(Put(d, x, y), b[1..], k, v);
    }
  }

  /** Overwriting one key and writing another can be exchanged. */
  lemma PutSwap<K, V>(d: Dict<K, V>, k: K, v: V, x: K, y: V)
    requires Has(d, k) && x != k
    ensures Put(Put(d, k, v), x, y) == Put(Put(d, x, y), k, v)
    ensures Has(Put(d, x, y), k)
  {
    var i, j := IndexOf(d, k), IndexOf(d, x);
    IndexIs(Put(d, k, v), x, j);
    IndexIs(Put(d, x, y), k, i);
  }
}
