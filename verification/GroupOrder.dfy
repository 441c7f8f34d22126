/** When a group that was a prefix of the old host list is, after a purge and additions, a prefix of the new one. */
module GroupOrder {
  import opened OrderedDict
  import opened Inventory
  import opened NameLists

  /** Some `y` stands before some `x`. */
  predicate Precedes(s: seq<string>, y: string, x: string) {
    s != [] && ((s[0] == y && x in s[1..]) || Precedes(s[1..], y, x))
  }

  /** The elements of `s` that are not known. */
  function NotIn(s: seq<string>, known: seq<string>): seq<string> {
    Keep(s, ToSet(s) - ToSet(known))
  }

  /** The order of the saved hosts: surviving loaded hosts as they were, then the new ones as they were built. */
  function SavedOrder(loaded: seq<string>, built: seq<string>): seq<string> {
    Keep(loaded, ToSet(built)) + NotIn(built, loaded)
  }

  /**
   Outside the group, no host among the first `k` built ones overtakes another: whatever precedes it in the
   saved order precedes it in the built order.
   */
  ghost predicate OrderKept(loaded: seq<string>, group: seq<string>, built: seq<string>, k: nat)
    requires k <= |built|
  {
    forall x, y ::
      (x in built[..k] && y in built && x !in group && y !in group && Precedes(SavedOrder(loaded, built), y, x))
      ==> Precedes(built, y, x)
  }

  // ---------- laws of precedence ----------

  lemma {:induction false} PrecedesIn(s: seq<string>, y: string, x: string)
    requires Precedes(s, y, x)
    ensures y in s && x in s
  {
    if !(s[0] == y && x in s[1..]) {
      PrecedesIn(s[1..], y, x);
    }
  }

  lemma {:induction false} NothingPrecedesFirst(s: seq<string>, y: string)
    requires s != [] && Distinct(s)
    ensures !Precedes(s, y, s[0])
  {
    assert s[0] !in s[1..];
    if Precedes(s[1..], y, s[0]) {
      PrecedesIn(s[1..], y, s[0]);
    }
  }

  lemma {:induction false} KeepOrder(s: seq<string>, allowed: set<string>, y: string, x: string)
    ensures Precedes(Keep(s, allowed), y, x) <==> Precedes(s, y, x) && y in allowed && x in allowed
  {
    if s != [] {
      var rest := Keep(s[1..], allowed);
      KeepOrder(s[1..], allowed, y, x);
      KeepIn(s[1..], allowed, x);
      if s[0] in allowed {
        assert Keep(s, allowed)[0] == s[0] && Keep(s, allowed)[1..] == rest;
      }
    }
  }

  lemma {:induction false} PrecedesBehind(a: seq<string>, b: seq<string>, y: string, x: string)
    requires y !in a
    ensures Precedes(a + b, y, x) <==> Precedes(b, y, x)
  {
    if a == [] {
      assert a + b == b;
    } else {
      var s := a + b;
      assert s[0] == a[0] && s[1..] == a[1..] + b;
      assert a[0] in a;
      PrecedesBehind(a[1..], b, y, x);
    }
  }

  lemma {:induction false} PrecedesInFront(a: seq<string>, b: seq<string>, y: string, x: string)
    requires x in a && x !in b
    ensures Precedes(a + b, y, x) <==> Precedes(a, y, x)
  {
    var s := a + b;
    assert s[0] == a[0] && s[1..] == a[1..] + b;
    assert x in s[1..] <==> x in a[1..];
    if x in a[1..] {
      PrecedesInFront(a[1..], b, y, x);
    } else {
      if Precedes(s[1..], y, x) { PrecedesIn(s[1..], y, x); }
      if Precedes(a[1..], y, x) { PrecedesIn(a[1..], y, x); }
    }
  }

  /** Whatever precedes an element of `a` in `r` precedes it in `a`. */
  ghost predicate LeavesNothingOut(a: seq<string>, r: seq<string>) {
    forall x, y :: x in a && y in r && Precedes(r, y, x) ==> Precedes(a, y, x)
  }

  /** A part of a list is its beginning exactly when it leaves out nothing that stands before one of its elements. */
  lemma {:induction false} PrefixIffOrder(a: seq<string>, r: seq<string>)
    requires Distinct(a) && Distinct(r) && forall x :: x in a ==> x in r
    ensures a <= r <==> LeavesNothingOut(a, r)
  {
    if a != [] {
      assert a[0] in a;
      if a[0] == r[0] {
        var first, a', r' := a[0], a[1..], r[1..];
        assert a == [first] + a' && r == [first] + r' && first !in a' && first !in r';
        forall x | x in a' ensures x in r' {
          assert x in a && x != first;
        }
        PrefixBehind([first], a', r');
        PrefixIffOrder(a', r');
        SameFirst(first, a', r');
      } else {
        assert r == [r[0]] + r[1..];
        assert Precedes(r, r[0], a[0]) && r[0] in r;
        NothingPrecedesFirst(a, r[0]);
      }
    }
  }

  lemma SameFirst(first: string, a: seq<string>, r: seq<string>)
    requires first !in a && first !in r
    ensures LeavesNothingOut([first] + a, [first] + r) <==> LeavesNothingOut(a, r)
  {
    hide Precedes;
    if LeavesNothingOut(a, r) {
      forall x, y | x in [first] + a && y in [first] + r && Precedes([first] + r, y, x)
        ensures Precedes([first] + a, y, x)
      {
        PrecedesBehindFirst(first, a, y, x);
        PrecedesBehindFirst(first, r, y, x);
      }
    }
    if LeavesNothingOut([first] + a, [first] + r) {
      forall x, y | x in a && y in r && Precedes(r, y, x) ensures Precedes(a, y, x) {
        PrecedesBehindFirst(first, a, y, x);
        PrecedesBehindFirst(first, r, y, x);
      }
    }
  }

  lemma {:induction false} PrecedesBehindFirst(first: string, rest: seq<string>, y: string, x: string)
    requires first !in rest
    ensures Precedes([first] + rest, y, x) <==> (y == first && x in rest) || Precedes(rest, y, x)
    ensures Precedes(rest, y, x) ==> y in rest && x in rest
  {
    assert ([first] + rest)[1..] == rest;
    if Precedes(rest, y, x) {
      PrecedesIn(rest, y, x);
    }
  }

  // ---------- the saved order ----------

  lemma NotInIs(s: seq<string>, known: seq<string>, x: string)
    ensures x in NotIn(s, known) <==> x in s && x !in known
  {
    KeepIn(s, ToSet(s) - ToSet(known), x);
  }

  /** Adding hosts appends, in their order, those that are not there yet. */
  lemma {:induction false} AddAllIsAppend(members: seq<string>, hosts: seq<string>)
    requires Distinct(hosts)
    ensures AddAll(members, hosts) == members + NotIn(hosts, members)
    decreases |hosts|
  {
    if hosts != [] {
      var h, rest := hosts[0], hosts[1..];
      assert h !in rest && Distinct(rest);
      var more := AddMember(members, h);
      AddAllIsAppend(more, rest);
      KeepSame(rest, ToSet(hosts) - ToSet(members), ToSet(rest) - ToSet(more));
    }
  }

  lemma SavedOrderHolds(loaded: seq<string>, built: seq<string>, x: string)
    ensures x in SavedOrder(loaded, built) <==> x in built
  {
    KeepIn(loaded, ToSet(built), x);
    NotInIs(built, loaded, x);
  }

  lemma SavedOrderIsAddAll(loaded: seq<string>, built: seq<string>)
    requires Distinct(built)
    ensures SavedOrder(loaded, built) == AddAll(Keep(loaded, ToSet(built)), built)
  {
    var kept := Keep(loaded, ToSet(built));
    AddAllIsAppend(kept, built);
    forall x | x in built ensures x in kept <==> x in loaded {
      KeepIn(loaded, ToSet(built), x);
    }
    KeepSame(built, ToSet(built) - ToSet(kept), ToSet(built) - ToSet(loaded));
  }

  lemma {:induction false} DistinctSize(s: seq<string>)
    requires Distinct(s)
    ensures |ToSet(s)| == |s|
  {
    if s != [] {
      assert Distinct(s[1..]);
      DistinctSize(s[1..]);
      assert s[0] !in s[1..];
      assert ToSet(s) == {s[0]} + ToSet(s[1..]);
    }
  }

  lemma SavedOrderDistinct(loaded: seq<string>, built: seq<string>)
    requires Distinct(loaded) && Distinct(built)
    ensures Distinct(SavedOrder(loaded, built)) && |SavedOrder(loaded, built)| == |built|
  {
    SavedOrderIsAddAll(loaded, built);
    KeepDistinct(loaded, ToSet(built));
    AddAllDistinct(Keep(loaded, ToSet(built)), built);
    var saved := SavedOrder(loaded, built);
    forall x ensures x in ToSet(saved) <==> x in ToSet(built) {
      SavedOrderHolds(loaded, built, x);
    }
    DistinctSize(saved);
    DistinctSize(built);
    assert ToSet(saved) == ToSet(built);
  }

  /** The saved order is the built order exactly when the survivors stand in front in their old order. */
  lemma SavedOrderIsBuiltIff(loaded: seq<string>, built: seq<string>)
    requires Distinct(built)
    ensures SavedOrder(loaded, built) == built <==> InOrder(loaded, built)
  {
    hide Keep;
    if InOrder(loaded, built) {
      NewOnesBehind(loaded, built);
    }
  }

  lemma NewOnesBehind(loaded: seq<string>, built: seq<string>)
    requires Distinct(built) && InOrder(loaded, built)
    ensures built == Keep(loaded, ToSet(built)) + NotIn(built, loaded)
  {
    hide Keep;
    var kept, unknown := Keep(loaded, ToSet(built)), ToSet(built) - ToSet(loaded);
    var behind := built[|kept|..];
    assert built == kept + behind;
    KeepAppend(kept, behind, unknown);
    forall x | x in kept ensures x !in unknown {
      KeepIn(loaded, ToSet(built), x);
    }
    KeepNothing(kept, unknown);
    forall i | 0 <= i < |behind| ensures behind[i] in unknown {
      KeepIn(loaded, ToSet(built), behind[i]);
      assert behind[i] == built[|kept| + i];
    }
    KeepEverything(behind, unknown);
  }

  lemma {:induction false} KeepNothing(s: seq<string>, allowed: set<string>)
    requires forall x :: x in s ==> x !in allowed
    ensures Keep(s, allowed) == []
  {
    if s != [] {
      assert s[0] in s;
      KeepNothing(s[1..], allowed);
    }
  }

  // ---------- groups that were prefixes ----------

  /** The group that was the prefix `group`, purged and extended by the first `k` built hosts. */
  function Regrouped(group: seq<string>, built: seq<string>, k: nat): seq<string>
    requires k <= |built|
  {
    AddAll(Keep(group, ToSet(built)), built[..k])
  }

  lemma RegroupedParts(loaded: seq<string>, group: seq<string>, built: seq<string>, k: nat)
    returns (added: seq<string>, others: seq<string>)
    requires Distinct(loaded) && Distinct(built) && group <= loaded && k <= |built|
    ensures Regrouped(group, built, k) == Keep(group, ToSet(built)) + added
    ensures SavedOrder(loaded, built) == Keep(group, ToSet(built)) + others
    ensures added == Keep(built[..k], ToSet(built) - ToSet(group))
    ensures forall x :: x in others <==> x in built && x !in group
  {
    hide Keep;
    var kept, first := Keep(group, ToSet(built)), built[..k];
    var rest := loaded[|group|..];
    AddAllIsAppend(kept, first);
    forall x | x in first ensures x in ToSet(first) - ToSet(kept) <==> x in ToSet(built) - ToSet(group) {
      KeepIn(group, ToSet(built), x);
    }
    KeepSame(first, ToSet(first) - ToSet(kept), ToSet(built) - ToSet(group));
    added := NotIn(first, kept);
    assert loaded == group + rest;
    KeepAppend(group, rest, ToSet(built));
    others := Keep(rest, ToSet(built)) + NotIn(built, loaded);
    forall x ensures x in others <==> x in built && x !in group {
      KeepIn(rest, ToSet(built), x);
      NotInIs(built, loaded, x);
      assert x in loaded <==> x in group || x in rest;
    }
  }

  lemma AddedOrder(group: seq<string>, built: seq<string>, k: nat, y: string, x: string)
    requires Distinct(built) && k <= |built| && x in built[..k] && x !in group && y in built && y !in group
    ensures Precedes(Keep(built[..k], ToSet(built) - ToSet(group)), y, x) <==> Precedes(built, y, x)
  {
    KeepOrder(built[..k], ToSet(built) - ToSet(group), y, x);
    assert built == built[..k] + built[k..];
    PrecedesInFront(built[..k], built[k..], y, x);
  }

  /** The group is a prefix of the saved hosts exactly when no host among the first `k` overtakes another. */
  lemma RegroupedIsPrefixIff(loaded: seq<string>, group: seq<string>, built: seq<string>, k: nat)
    requires Distinct(loaded) && Distinct(built) && group <= loaded && k <= |built|
    ensures Regrouped(group, built, k) <= SavedOrder(loaded, built) <==> OrderKept(loaded, group, built, k)
  {
    hide Keep;
    var kept, unknown := Keep(group, ToSet(built)), ToSet(built) - ToSet(group);
    var added, others := RegroupedParts(loaded, group, built, k);
    SavedOrderDistinct(loaded, built);
    DistinctBehind(kept, others);
    KeepDistinct(built[..k], unknown);
    assert kept + added <= kept + others <==> added <= others by {
      PrefixBehind(kept, added, others);
    }
    forall x ensures x in added <==> x in built[..k] && x !in group {
      KeepIn(built[..k], unknown, x);
    }
    PrefixIffOrder(added, others);
    forall x, y | x in added && y in others
      ensures Precedes(others, y, x) <==> Precedes(SavedOrder(loaded, built), y, x)
      ensures Precedes(added, y, x) <==> Precedes(built, y, x)
    {
      KeepIn(group, ToSet(built), y);
      PrecedesBehind(kept, others, y, x);
      AddedOrder(group, built, k, y, x);
    }
  }

  lemma {:induction false} DistinctBehind(a: seq<string>, b: seq<string>)
    requires Distinct(a + b)
    ensures Distinct(b)
  {
    forall i, j | 0 <= i < j < |b| ensures b[i] != b[j] {
      assert (a + b)[|a| + i] != (a + b)[|a| + j];
    }
  }

  lemma {:induction false} PrefixBehind(p: seq<string>, a: seq<string>, b: seq<string>)
    ensures p + a <= p + b <==> a <= b
  {
    assert (p + a)[|p|..] == a && (p + b)[|p|..] == b;
    if p + a <= p + b {
      assert b[..|a|] == (p + b)[|p|..|p + a|];
      assert (p + b)[..|p + a|] == p + a;
    }
  }

  // ---------- the size of a group ----------

  lemma {:induction false} SubsetSize(a: set<string>, b: set<string>)
    requires a <= b
    ensures |a| <= |b|
  {
    if x :| x in a {
      SubsetSize(a - {x}, b - {x});
    }
  }

  lemma AsManyOrMore(saved: seq<string>, extra: set<string>, first: seq<string>)
    requires Distinct(saved) && Distinct(first)
    requires ToSet(saved) == ToSet(first) + extra
    ensures |saved| >= |first|
    ensures |saved| == |first| <==> extra <= ToSet(first)
  {
    DistinctSize(saved);
    DistinctSize(first);
    SubsetSize(ToSet(first), ToSet(saved));
    if extra <= ToSet(first) {
      assert ToSet(saved) == ToSet(first);
    } else {
      var h :| h in extra && h !in ToSet(first);
      SubsetSize(ToSet(first) + {h}, ToSet(saved));
    }
  }

  /** Nothing but the first `k` hosts are in the group exactly when its survivors are among them. */
  lemma RegroupedSizeIff(members: seq<string>, built: seq<string>, k: nat)
    requires Distinct(members) && Distinct(built) && k <= |built|
    ensures |Regrouped(members, built, k)| >= k
    ensures |Regrouped(members, built, k)| == k
       <==> forall h :: h in members && h in built ==> h in built[..k]
  {
    hide Keep, AddAll;
    var first, kept := built[..k], Keep(members, ToSet(built));
    var saved := AddAll(kept, first);
    KeepDistinct(members, ToSet(built));
    AddAllDistinct(kept, first);
    var extra := ToSet(members) * ToSet(built);
    forall x ensures x in saved <==> x in extra || x in first {
      AddAllIn(kept, first, x);
      KeepIn(members, ToSet(built), x);
    }
    AsManyOrMore(saved, extra, first);
    assert extra <= ToSet(first) <==> forall h :: h in members && h in built ==> h in first;
  }

  /** No survivor of the group is behind the first `k` built hosts, and none of these overtakes another host. */
  ghost predicate StaysInFront(loaded: seq<string>, group: seq<string>, built: seq<string>, k: nat)
    requires k <= |built|
  {
    (forall h :: h in group && h in built ==> h in built[..k]) && OrderKept(loaded, group, built, k)
  }

  /** The group is then exactly the first `k` saved hosts. */
  lemma RegroupedIsFrontIff(loaded: seq<string>, group: seq<string>, built: seq<string>, k: nat)
    requires Distinct(loaded) && Distinct(built) && group <= loaded && k <= |built|
    ensures |SavedOrder(loaded, built)| == |built|
    ensures Regrouped(group, built, k) == SavedOrder(loaded, built)[..k] <==> StaysInFront(loaded, group, built, k)
  {
    hide Regrouped, SavedOrder, OrderKept;
    SavedOrderDistinct(loaded, built);
    RegroupedIsPrefixIff(loaded, group, built, k);
    RegroupedSizeIff(group, built, k);
  }

  lemma OrderedIsKept(loaded: seq<string>, group: seq<string>, built: seq<string>, k: nat)
    requires Distinct(built) && InOrder(loaded, built) && k <= |built|
    ensures OrderKept(loaded, group, built, k)
  {
    SavedOrderIsBuiltIff(loaded, built);
  }

  lemma OrderedStaysInFront(loaded: seq<string>, group: seq<string>, built: seq<string>, k: nat)
    requires Distinct(built) && InOrder(loaded, built) && group <= loaded && k <= |built|
    requires |group| <= k || k == |built|
    ensures StaysInFront(loaded, group, built, k)
  {
    hide Keep, SavedOrder;
    OrderedIsKept(loaded, group, built, k);
    var kept := Keep(group, ToSet(built));
    KeepPrefix(group, loaded, ToSet(built));
    KeepShorter(group, ToSet(built));
    forall h | h in group && h in built ensures h in built[..k] {
      KeepIn(group, ToSet(built), h);
      assert kept <= built && h in kept;
      if k < |built| {
        assert kept <= built[..k];
      } else {
        assert built[..k] == built;
      }
    }
  }

  lemma {:induction false} KeepShorter(s: seq<string>, allowed: set<string>)
    ensures |Keep(s, allowed)| <= |s|
  {
    if s != [] {
      KeepShorter(s[1..], allowed);
    }
  }
}
