/** Laws of the list operations behind role groups: filtering, adding without repetition, prefixes. */
module NameLists {
  import opened OrderedDict
  import opened Inventory

  lemma {:induction false} KeepAppend(a: seq<string>, b: seq<string>, allowed: set<string>)
    ensures Keep(a + b, allowed) == Keep(a, allowed) + Keep(b, allowed)
  {
    if a == [] {
      assert a + b == b;
    } else {
      assert (a + b)[0] == a[0] && (a + b)[1..] == a[1..] + b;
      KeepAppend(a[1..], b, allowed);
    }
  }

  lemma {:induction false} KeepIn(s: seq<string>, allowed: set<string>, x: string)
    ensures x in Keep(s, allowed) <==> x in s && x in allowed
  {
    if s != [] {
      KeepIn(s[1..], allowed, x);
      assert x in s <==> x == s[0] || x in s[1..];
    }
  }

  lemma {:induction false} KeepDistinct(s: seq<string>, allowed: set<string>)
    requires Distinct(s)
    ensures Distinct(Keep(s, allowed))
  {
    if s != [] {
      assert Distinct(s[1..]);
      KeepDistinct(s[1..], allowed);
      KeepIn(s[1..], allowed, s[0]);
      assert s[0] !in s[1..];
    }
  }

  lemma {:induction false} KeepTwice(s: seq<string>, a: set<string>, b: set<string>)
    ensures Keep(Keep(s, a), b) == Keep(s, a * b)
  {
    if s != [] {
      KeepTwice(s[1..], a, b);
      if s[0] in a {
        assert Keep(s, a)[1..] == Keep(s[1..], a);
      }
    }
  }

  lemma {:induction false} KeepSame(s: seq<string>, a: set<string>, b: set<string>)
    requires forall x :: x in s ==> (x in a <==> x in b)
    ensures Keep(s, a) == Keep(s, b)
  {
    if s != [] {
      assert s[0] in s;
      assert forall x :: x in s[1..] ==> x in s;
      KeepSame(s[1..], a, b);
    }
  }

  lemma {:induction false} KeepEverything(s: seq<string>, allowed: set<string>)
    requires forall x :: x in s ==> x in allowed
    ensures Keep(s, allowed) == s
  {
    if s != [] {
      assert s[0] in s;
      assert forall x :: x in s[1..] ==> x in s;
      KeepEverything(s[1..], allowed);
    }
  }

  /** Leaving one name of a repetition-free list out cuts exactly its place. */
  lemma {:induction false} KeepAllBut(s: seq<string>, i: nat)
    requires Distinct(s) && i < |s|
    ensures Keep(s, ToSet(s) - {s[i]}) == s[..i] + s[i + 1..]
  {
    hide Keep;
    var others := ToSet(s) - {s[i]};
    var a, b := s[..i], s[i + 1..];
    assert s == a + ([s[i]] + b);
    KeepAppend(a, [s[i]] + b, others);
    KeepAppend([s[i]], b, others);
    KeepNotAllowed(s[i], others);
    forall x | x in a || x in b ensures x in others {
      assert x in s && x != s[i];
    }
    KeepEverything(a, others);
    KeepEverything(b, others);
  }

  lemma {:induction false} KeepNotAllowed(x: string, allowed: set<string>)
    requires x !in allowed
    ensures Keep([x], allowed) == []
  {
  }

  lemma KeepPrefix(p: seq<string>, s: seq<string>, allowed: set<string>)
    requires p <= s
    ensures Keep(p, allowed) <= Keep(s, allowed)
  {
    assert s == p + s[|p|..];
    KeepAppend(p, s[|p|..], allowed);
  }

  lemma {:induction false} KeepHostsKeys(t: Table, allowed: set<string>)
    ensures Keys(KeepHosts(t, allowed)) == Keep(Keys(t), allowed)
    ensures forall i :: 0 <= i < |KeepHosts(t, allowed)| ==> KeepHosts(t, allowed)[i] in t
  {
    if t != [] {
      KeepHostsKeys(t[1..], allowed);
      assert Keys(t)[1..] == Keys(t[1..]);
      assert forall e :: e in t[1..] ==> e in t;
      if t[0].key in allowed {
        KeysAppend([t[0]], KeepHosts(t[1..], allowed));
        assert Keys([t[0]]) == [t[0].key];
        assert t[0] in t;
      }
    }
  }

  lemma {:induction false} AddAllIn(members: seq<string>, hosts: seq<string>, x: string)
    ensures x in AddAll(members, hosts) <==> x in members || x in hosts
    decreases |hosts|
  {
    if hosts != [] {
      AddAllIn(AddMember(members, hosts[0]), hosts[1..], x);
      assert x in hosts <==> x == hosts[0] || x in hosts[1..];
    }
  }

  lemma {:induction false} AddAllDistinct(members: seq<string>, hosts: seq<string>)
    requires Distinct(members)
    ensures Distinct(AddAll(members, hosts))
    ensures members <= AddAll(members, hosts)
    decreases |hosts|
  {
    if hosts != [] {
      AddAllDistinct(AddMember(members, hosts[0]), hosts[1..]);
    }
  }

  lemma {:induction false} AddAllKnown(members: seq<string>, hosts: seq<string>)
    requires forall h :: h in hosts ==> h in members
    ensures AddAll(members, hosts) == members
    decreases |hosts|
  {
    if hosts != [] {
      assert hosts[0] in hosts;
      AddAllKnown(members, hosts[1..]);
    }
  }

  /** Adding a stretch of a list to one of its prefixes that reaches the stretch gives the longer prefix. */
  lemma {:induction false} AddAllToPrefix(all: seq<string>, f: nat, j: nat, k: nat)
    requires Distinct(all)
    requires j <= f <= |all| && j <= k <= |all|
    ensures AddAll(all[..f], all[j..k]) == all[..Max(f, k)]
    decreases k - j
  {
    if j < k {
      assert all[j..k][0] == all[j] && all[j..k][1..] == all[j + 1..k];
      if j < f {
        assert all[..f][j] == all[j];
        AddAllToPrefix(all, f, j + 1, k);
      } else {
        assert all[j] !in all[..f];
        assert all[..f] + [all[j]] == all[..f + 1];
        AddAllToPrefix(all, f + 1, j + 1, k);
      }
    }
  }

  /** What survives of an old list stands, in its old order, at the front of the new one. */
  ghost predicate InOrder(previous: seq<string>, built: seq<string>) {
    Keep(previous, ToSet(built)) <= built
  }
}
