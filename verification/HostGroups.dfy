/** The inventory queries over parsed hosts: grouping, lookup by name, and the floating-IP pass. */
module HostGroups {
  import opened Outcomes
  import opened OrderedDict

  /** The variables of a host; `metadata` is one of them in the program and is kept apart here. */
  datatype Attrs = Attrs(vars: map<string, string>, metadata: Option<map<string, string>>)

  datatype Host = Host(name: string, attrs: Attrs, groups: seq<string>)

  const NO_ATTRS := Attrs(map[], None)

  /** The result of `query_list`: the `hosts` list of every group, and the host variables under `_meta`. */
  datatype Listing = Listing(groups: map<string, seq<string>>, hostvars: map<string, Attrs>)

  function GroupName(g: string): string {
    if g == "" then "all" else g
  }

  // ---------- what a listing means ----------

  function GroupSet(h: Host): set<string> {
    set g | g in h.groups
  }

  /** How often a host with the distinct groups `gs` is appended to the list of `g`. */
  function Times(gs: set<string>, g: string): nat {
    if g == "all" then (if "" in gs then 1 else 0) + (if "all" in gs then 1 else 0)
    else if g != "" && g in gs then 1 else 0
  }

  function Repeat(name: string, n: nat): (r: seq<string>)
    ensures |r| == n
  {
    seq(n, _ => name)
  }

  /** The list of a group: every host as often as its groups say, in host order. */
  function Listed(hosts: seq<Host>, g: string): seq<string> {
    if hosts == [] then []
    else
      var front, last := hosts[..|hosts| - 1], hosts[|hosts| - 1];
      Listed(front, g) + Repeat(last.name, Times(GroupSet(last), g))
  }

  /** The variables that the last host of a name brought. */
  function LastAttrs(hosts: seq<Host>, name: string): Option<Attrs> {
    if hosts == [] then None
    else if hosts[|hosts| - 1].name == name then Some(hosts[|hosts| - 1].attrs)
    else LastAttrs(hosts[..|hosts| - 1], name)
  }

  function ListOf(groups: map<string, seq<string>>, g: string): seq<string> {
    if g in groups then groups[g] else []
  }

  ghost predicate Lists(groups: map<string, seq<string>>, hosts: seq<Host>) {
    forall g :: ListOf(groups, g) == Listed(hosts, g) && (g in groups <==> Listed(hosts, g) != [])
  }

  ghost predicate HoldsVars(meta: map<string, Attrs>, hosts: seq<Host>) {
    forall name :: (name in meta <==> LastAttrs(hosts, name).Some?)
                   && (name in meta ==> LastAttrs(hosts, name) == Some(meta[name]))
  }

  /** Every group but `_meta` with the hosts listed for it, and the last variables of every name. */
  ghost predicate IsListing(listing: Listing, hosts: seq<Host>) {
    (forall g :: g in listing.groups <==> g != "_meta" && Listed(hosts, g) != [])
    && (forall g :: g in listing.groups ==> listing.groups[g] == Listed(hosts, g))
    && HoldsVars(listing.hostvars, hosts)
  }

  /**
   `query_list`: the groups are taken from the set of a host's groups in no particular order; the lists do not
   depend on it. A group called `_meta` gives way to the host variables.
   */
  method QueryList(hosts: seq<Host>) returns (listing: Listing)
    ensures IsListing(listing, hosts)
  {
    var groups: map<string, seq<string>> := map[];
    var meta: map<string, Attrs> := map[];
    for i := 0 to |hosts|
      invariant Lists(groups, hosts[..i]) && HoldsVars(meta, hosts[..i])
    {
      assert hosts[..i + 1][..i] == hosts[..i] && hosts[..i + 1][i] == hosts[i];
      groups := AppendHost(groups, hosts[i].name, GroupSet(hosts[i]));
      meta := meta[hosts[i].name := hosts[i].attrs];
    }
    assert hosts[..|hosts|] == hosts;
    return Listing(groups - {"_meta"}, meta);
  }

  /** The inner loop over the set of a host's groups. */
  method AppendHost(groups: map<string, seq<string>>, name: string, gs: set<string>)
    returns (extended: map<string, seq<string>>)
    ensures forall g :: ListOf(extended, g) == ListOf(groups, g) + Repeat(name, Times(gs, g))
    ensures forall g :: g in extended <==> g in groups || Times(gs, g) > 0
  {
    extended := groups;
    var todo := gs;
    while todo != {}
      invariant todo <= gs
      invariant Extends(groups, extended, name, gs - todo)
      decreases todo
    {
      var group :| group in todo;
      var key := GroupName(group);
      assert gs - (todo - {group}) == gs - todo + {group};
      AppendToOne(groups, extended, name, gs - todo, group);
      extended := extended[key := ListOf(extended, key) + [name]];
      todo := todo - {group};
    }
    assert gs - todo == gs;
  }

  /** Every list has grown by the name, as often as the groups `done` say. */
  ghost predicate Extends(groups: map<string, seq<string>>, extended: map<string, seq<string>>, name: string,
                          done: set<string>)
  {
    forall g :: ListOf(extended, g) == ListOf(groups, g) + Repeat(name, Times(done, g))
                && (g in extended <==> g in groups || Times(done, g) > 0)
  }

  lemma AppendToOne(groups: map<string, seq<string>>, extended: map<string, seq<string>>, name: string,
                    done: set<string>, group: string)
    requires group !in done && Extends(groups, extended, name, done)
    ensures var key := GroupName(group);
      Extends(groups, extended[key := ListOf(extended, key) + [name]], name, done + {group})
  {
    hide Times;
    var key := GroupName(group);
    var longer := extended[key := ListOf(extended, key) + [name]];
    TimesGrow(done, group);
    forall g
      ensures ListOf(longer, g) == ListOf(groups, g) + Repeat(name, Times(done + {group}, g))
      ensures g in longer <==> g in groups || Times(done + {group}, g) > 0
    {
      if g == key {
        assert Repeat(name, Times(done, g) + 1) == Repeat(name, Times(done, g)) + [name];
      }
    }
  }

  lemma TimesGrow(done: set<string>, x: string)
    requires x !in done
    ensures forall g :: Times(done + {x}, g) == Times(done, g) + if g == GroupName(x) then 1 else 0
  {
  }

  /** `query_host`: the first host of the name, or nothing. */
  method QueryHost(hosts: seq<Host>, target: string) returns (attrs: Attrs)
    ensures attrs == FirstAttrs(hosts, target)
  {
    assert hosts[0..] == hosts;
    for i := 0 to |hosts|
      invariant FirstAttrs(hosts, target) == FirstAttrs(hosts[i..], target)
    {
      assert hosts[i..][0] == hosts[i] && hosts[i..][1..] == hosts[i + 1..];
      if hosts[i].name == target {
        return hosts[i].attrs;
      }
    }
    return NO_ATTRS;
  }

  function FirstAttrs(hosts: seq<Host>, target: string): Attrs {
    if hosts == [] then NO_ATTRS
    else if hosts[0].name == target then hosts[0].attrs
    else FirstAttrs(hosts[1..], target)
  }

  // ---------- grouping is inverted ----------

  /** The names of the hosts that have one of the given groups, once per host and in host order. */
  function NamesIn(hosts: seq<Host>, gs: set<string>): seq<string> {
    if hosts == [] then []
    else
      var front, last := hosts[..|hosts| - 1], hosts[|hosts| - 1];
      NamesIn(front, gs) + if GroupSet(last) * gs != {} then [last.name] else []
  }

  lemma MeetsOne(h: Host, g: string)
    ensures GroupSet(h) * {g} != {} <==> g in h.groups
  {
    if g in h.groups {
      assert g in GroupSet(h) * {g};
    }
  }

  lemma {:induction false} ListedIsInverse(hosts: seq<Host>, g: string)
    requires g != "all" && g != ""
    ensures Listed(hosts, g) == NamesIn(hosts, {g})
  {
    if hosts != [] {
      var last := hosts[|hosts| - 1];
      ListedIsInverse(hosts[..|hosts| - 1], g);
      MeetsOne(last, g);
      assert Repeat(last.name, Times(GroupSet(last), g)) == if g in GroupSet(last) then [last.name] else [];
    }
  }

  /** Every group but `all` and `_meta` lists, in host order and once per host, the hosts whose groups contain it. */
  lemma GroupingIsInverted(hosts: seq<Host>, listing: Listing, g: string)
    requires IsListing(listing, hosts) && g != "all" && g != ""
    ensures ListOf(listing.groups, g) == if g == "_meta" then [] else NamesIn(hosts, {g})
  {
    ListedIsInverse(hosts, g);
  }

  /** The host has no group name, or an empty one, and is also in `all` by name. */
  predicate NamesAllTwice(h: Host) {
    "" in h.groups && "all" in h.groups
  }

  lemma {:induction false} AllIsListed(hosts: seq<Host>)
    ensures |Listed(hosts, "all")| >= |NamesIn(hosts, {"", "all"})|
    ensures (forall i :: 0 <= i < |hosts| ==> !NamesAllTwice(hosts[i])) ==>
      Listed(hosts, "all") == NamesIn(hosts, {"", "all"})
    ensures (exists i :: 0 <= i < |hosts| && NamesAllTwice(hosts[i])) ==>
      |Listed(hosts, "all")| > |NamesIn(hosts, {"", "all"})|
  {
    if hosts != [] {
      var front, last := hosts[..|hosts| - 1], hosts[|hosts| - 1];
      AllIsListed(front);
      AllOfOne(last);
      if i :| 0 <= i < |hosts| && NamesAllTwice(hosts[i]) {
        assert i < |front| ==> NamesAllTwice(front[i]);
      }
      assert forall i :: 0 <= i < |front| ==> front[i] == hosts[i];
    }
  }

  lemma AllOfOne(h: Host)
    ensures var times := Times(GroupSet(h), "all");
      if NamesAllTwice(h) then times == 2
      else Repeat(h.name, times) == if GroupSet(h) * {"", "all"} != {} then [h.name] else []
  {
    var meets := GroupSet(h) * {"", "all"};
    if "" in h.groups {
      assert "" in meets;
    } else if "all" in h.groups {
      assert "all" in meets;
    } else {
      assert meets == {};
    }
  }

  /**
   `all` lists, in host order and once per host, the hosts that name no group or name `all`, if and only if no
   host does both.
   */
  lemma AllListsOnceIff(hosts: seq<Host>, listing: Listing)
    requires IsListing(listing, hosts)
    ensures ListOf(listing.groups, "all") == NamesIn(hosts, {"", "all"})
       <==> forall i :: 0 <= i < |hosts| ==> !NamesAllTwice(hosts[i])
  {
    hide NamesAllTwice, Listed, NamesIn, HoldsVars;
    AllIsListed(hosts);
  }

  /** A host that does both: `kubespray_groups` holds "all," for instance. */
  lemma ListedTwice(listing: Listing)
    requires IsListing(listing, [Host("a", NO_ATTRS, ["all", ""])])
    ensures ListOf(listing.groups, "all") == ["a", "a"]
  {
    var h := Host("a", NO_ATTRS, ["all", ""]);
    AllOfOne(h);
    assert NamesAllTwice(h) by { assert h.groups[1] == ""; }
    assert [h][..0] == [];
    assert Listed([h], "all") == [] + Repeat("a", 2) == ["a", "a"];
  }

  // ---------- conservation ----------

  /** The lengths of the lists of the given groups together. */
  function TotalListed(hosts: seq<Host>, groups: seq<string>): nat {
    if groups == [] then 0 else |Listed(hosts, groups[0])| + TotalListed(hosts, groups[1..])
  }

  function TotalTimes(gs: set<string>, groups: seq<string>): nat {
    if groups == [] then 0 else Times(gs, groups[0]) + TotalTimes(gs, groups[1..])
  }

  /** The number of distinct groups of each host, over all hosts. */
  function Memberships(hosts: seq<Host>): nat {
    if hosts == [] then 0 else Memberships(hosts[..|hosts| - 1]) + |GroupSet(hosts[|hosts| - 1])|
  }

  lemma {:induction false} TotalSplits(hosts: seq<Host>, groups: seq<string>)
    requires hosts != []
    ensures TotalListed(hosts, groups)
         == TotalListed(hosts[..|hosts| - 1], groups) + TotalTimes(GroupSet(hosts[|hosts| - 1]), groups)
  {
    if groups != [] {
      TotalSplits(hosts, groups[1..]);
    }
  }

  lemma {:induction false} TotalTimesGrows(done: set<string>, x: string, groups: seq<string>)
    requires x !in done && Distinct(groups)
    ensures TotalTimes(done + {x}, groups) == TotalTimes(done, groups) + if GroupName(x) in groups then 1 else 0
  {
    if groups != [] {
      TimesGrow(done, x);
      TotalTimesGrows(done, x, groups[1..]);
      assert GroupName(x) in groups <==> GroupName(x) == groups[0] || GroupName(x) in groups[1..];
    }
  }

  lemma {:induction false} TotalTimesIsSize(gs: set<string>, groups: seq<string>)
    requires Distinct(groups) && forall x :: x in gs ==> GroupName(x) in groups
    ensures TotalTimes(gs, groups) == |gs|
  {
    if x :| x in gs {
      var rest := gs - {x};
      assert rest + {x} == gs;
      TotalTimesGrows(rest, x, groups);
      TotalTimesIsSize(rest, groups);
    } else {
      NoTimes(groups);
    }
  }

  lemma {:induction false} NoTimes(groups: seq<string>)
    ensures TotalTimes({}, groups) == 0
  {
    if groups != [] {
      NoTimes(groups[1..]);
    }
  }

  /** The lists of all groups together are as long as the hosts have distinct groups: no membership is lost. */
  lemma {:induction false} MembershipsAreConserved(hosts: seq<Host>, groups: seq<string>)
    requires Distinct(groups)
    requires forall i, x :: 0 <= i < |hosts| && x in hosts[i].groups ==> GroupName(x) in groups
    ensures TotalListed(hosts, groups) == Memberships(hosts)
  {
    if hosts == [] {
      NothingListed(groups);
    } else {
      var front, last := hosts[..|hosts| - 1], hosts[|hosts| - 1];
      assert forall i :: 0 <= i < |front| ==> front[i] == hosts[i];
      MembershipsAreConserved(front, groups);
      TotalSplits(hosts, groups);
      TotalTimesIsSize(GroupSet(last), groups);
    }
  }

  lemma {:induction false} NothingListed(groups: seq<string>)
    ensures TotalListed([], groups) == 0
  {
    if groups != [] {
      NothingListed(groups[1..]);
    }
  }

  /** The lengths of all lists of a listing together. */
  ghost function TotalLength(groups: map<string, seq<string>>): nat {
    if groups == map[] then 0
    else
      var g :| g in groups;
      |groups[g]| + TotalLength(groups - {g})
  }

  lemma {:induction false} TotalLengthWithout(groups: map<string, seq<string>>, g: string)
    requires g in groups
    ensures TotalLength(groups) == |groups[g]| + TotalLength(groups - {g})
    decreases |groups|
  {
    var picked :| picked in groups && TotalLength(groups) == |groups[picked]| + TotalLength(groups - {picked});
    if picked != g {
      TotalLengthWithout(groups - {picked}, g);
      assert groups - {picked} - {g} == groups - {g} - {picked};
      TotalLengthWithout(groups - {g}, picked);
    }
  }

  lemma {:induction false} TotalLengthIs(groups: map<string, seq<string>>, hosts: seq<Host>, keys: seq<string>)
    requires Distinct(keys) && forall g :: g in keys <==> g in groups
    requires forall g :: g in groups ==> groups[g] == Listed(hosts, g)
    ensures TotalLength(groups) == TotalListed(hosts, keys)
  {
    if keys != [] {
      var g, rest := keys[0], groups - {keys[0]};
      TotalLengthWithout(groups, g);
      assert g !in keys[1..];
      forall x ensures x in keys[1..] <==> x in rest {
        assert x in keys <==> x == g || x in keys[1..];
      }
      TotalLengthIs(rest, hosts, keys[1..]);
    } else {
      assert forall g :: g in groups <==> g in keys;
      assert groups.Keys == {};
    }
  }

  lemma {:induction false} Enumerate(s: set<string>) returns (keys: seq<string>)
    ensures Distinct(keys) && forall x :: x in keys <==> x in s
  {
    if x :| x in s {
      var rest := Enumerate(s - {x});
      keys := [x] + rest;
    } else {
      keys := [];
    }
  }

  lemma {:induction false} NamedGroupIsListed(hosts: seq<Host>, i: nat, x: string)
    requires i < |hosts| && x in hosts[i].groups
    ensures Listed(hosts, GroupName(x)) != []
  {
    var front, last := hosts[..|hosts| - 1], hosts[|hosts| - 1];
    if i < |front| {
      NamedGroupIsListed(front, i, x);
    } else {
      assert x in GroupSet(last);
      assert Times(GroupSet(last), GroupName(x)) > 0;
    }
  }

  lemma {:induction false} TotalListedAppend(hosts: seq<Host>, groups: seq<string>, g: string)
    ensures TotalListed(hosts, groups + [g]) == TotalListed(hosts, groups) + |Listed(hosts, g)|
  {
    if groups == [] {
      assert [g][1..] == [];
    } else {
      assert (groups + [g])[1..] == groups[1..] + [g];
      TotalListedAppend(hosts, groups[1..], g);
    }
  }

  lemma {:induction false} NobodyInIff(hosts: seq<Host>, g: string)
    ensures NamesIn(hosts, {g}) == [] <==> forall i :: 0 <= i < |hosts| ==> g !in hosts[i].groups
  {
    if hosts != [] {
      var front, last := hosts[..|hosts| - 1], hosts[|hosts| - 1];
      NobodyInIff(front, g);
      MeetsOne(last, g);
      assert forall i :: 0 <= i < |front| ==> front[i] == hosts[i];
    }
  }

  /**
   The lists of a listing lack exactly the memberships in a group called `_meta`, whose list the host variables
   replace; so they conserve all memberships if and only if no host names that group.
   */
  lemma ListingConservesMembershipsIff(hosts: seq<Host>, listing: Listing)
    requires IsListing(listing, hosts)
    ensures TotalLength(listing.groups) + |NamesIn(hosts, {"_meta"})| == Memberships(hosts)
    ensures TotalLength(listing.groups) == Memberships(hosts)
       <==> forall i :: 0 <= i < |hosts| ==> "_meta" !in hosts[i].groups
  {
    hide TotalLength, TotalListed, Memberships, NamesIn, Listed;
    var keys := Enumerate(listing.groups.Keys);
    var groups := keys + ["_meta"];
    assert "_meta" !in keys;
    assert Distinct(groups);
    assert forall g :: g in keys <==> g in listing.groups;
    forall i, x | 0 <= i < |hosts| && x in hosts[i].groups ensures GroupName(x) in groups {
      NamedGroupIsListed(hosts, i, x);
      assert GroupName(x) in keys || groups[|keys|] == GroupName(x);
    }
    MembershipsAreConserved(hosts, groups);
    TotalListedAppend(hosts, keys, "_meta");
    TotalLengthIs(listing.groups, hosts, keys);
    ListedIsInverse(hosts, "_meta");
    NobodyInIff(hosts, "_meta");
  }

  /** A host in a group called `_meta`: the listing has no list for it. */
  lemma MetaIsLost(listing: Listing)
    requires IsListing(listing, [Host("a", NO_ATTRS, ["_meta"])])
    ensures TotalLength(listing.groups) == 0 && Memberships([Host("a", NO_ATTRS, ["_meta"])]) == 1
  {
    hide TotalLength, IsListing;
    var h := Host("a", NO_ATTRS, ["_meta"]);
    ListingConservesMembershipsIff([h], listing);
    assert [h][..0] == [];
    assert h.groups[0] == "_meta" && GroupSet(h) == {"_meta"};
    MeetsOne(h, "_meta");
    assert NamesIn([h], {"_meta"}) == [] + ["a"];
  }

  // ---------- lookup by name ----------

  /** All hosts of a name carry the same variables. */
  ghost predicate Agree(hosts: seq<Host>, name: string) {
    forall i, j :: 0 <= i < j < |hosts| && hosts[i].name == name && hosts[j].name == name
      ==> hosts[i].attrs == hosts[j].attrs
  }

  ghost predicate IsFirst(hosts: seq<Host>, name: string, i: nat) {
    i < |hosts| && hosts[i].name == name && forall k :: 0 <= k < i ==> hosts[k].name != name
  }

  ghost predicate IsLast(hosts: seq<Host>, name: string, j: nat) {
    j < |hosts| && hosts[j].name == name && forall k :: j < k < |hosts| ==> hosts[k].name != name
  }

  /** The first and the last host of a name carry the same variables. */
  ghost predicate EndsAgree(hosts: seq<Host>, name: string) {
    forall i: nat, j: nat :: IsFirst(hosts, name, i) && IsLast(hosts, name, j) ==> hosts[i].attrs == hosts[j].attrs
  }

  lemma {:induction false} FirstOfName(hosts: seq<Host>, name: string, i: nat)
    requires IsFirst(hosts, name, i)
    ensures FirstAttrs(hosts, name) == hosts[i].attrs
  {
    if i > 0 {
      assert forall k :: 0 <= k < |hosts[1..]| ==> hosts[1..][k] == hosts[k + 1];
      FirstOfName(hosts[1..], name, i - 1);
    }
  }

  lemma {:induction false} LastOfName(hosts: seq<Host>, name: string, j: nat)
    requires IsLast(hosts, name, j)
    ensures LastAttrs(hosts, name) == Some(hosts[j].attrs)
  {
    if j < |hosts| - 1 {
      LastOfName(hosts[..|hosts| - 1], name, j);
    }
  }

  lemma {:induction false} FindFirst(hosts: seq<Host>, name: string) returns (i: nat)
    ensures if i < |hosts| then IsFirst(hosts, name, i) else forall k :: 0 <= k < |hosts| ==> hosts[k].name != name
  {
    if hosts == [] || hosts[0].name == name {
      i := 0;
    } else {
      var rest := FindFirst(hosts[1..], name);
      i := rest + 1;
      assert forall k :: 1 <= k < |hosts| ==> hosts[k] == hosts[1..][k - 1];
    }
  }

  lemma {:induction false} FindLast(hosts: seq<Host>, name: string) returns (j: nat)
    requires exists k :: 0 <= k < |hosts| && hosts[k].name == name
    ensures IsLast(hosts, name, j)
  {
    if hosts[|hosts| - 1].name == name {
      j := |hosts| - 1;
    } else {
      j := FindLast(hosts[..|hosts| - 1], name);
    }
  }

  lemma {:induction false} NobodyOfName(hosts: seq<Host>, name: string)
    requires forall k :: 0 <= k < |hosts| ==> hosts[k].name != name
    ensures FirstAttrs(hosts, name) == NO_ATTRS && LastAttrs(hosts, name) == None
  {
    NoFirstOfName(hosts, name);
    NoLastOfName(hosts, name);
  }

  lemma {:induction false} NoFirstOfName(hosts: seq<Host>, name: string)
    requires forall k :: 0 <= k < |hosts| ==> hosts[k].name != name
    ensures FirstAttrs(hosts, name) == NO_ATTRS
  {
    if hosts != [] {
      NoFirstOfName(hosts[1..], name);
    }
  }

  lemma {:induction false} NoLastOfName(hosts: seq<Host>, name: string)
    requires forall k :: 0 <= k < |hosts| ==> hosts[k].name != name
    ensures LastAttrs(hosts, name) == None
  {
    if hosts != [] {
      NoLastOfName(hosts[..|hosts| - 1], name);
    }
  }

  /** Asking for one host gives what the listing holds under `_meta` if and only if first and last of the name agree. */
  lemma HostQueryAgreesIff(hosts: seq<Host>, listing: Listing, name: string)
    requires IsListing(listing, hosts)
    ensures FirstAttrs(hosts, name) == (if name in listing.hostvars then listing.hostvars[name] else NO_ATTRS)
       <==> EndsAgree(hosts, name)
  {
    hide FirstAttrs, LastAttrs, Listed, EndsAgree;
    var i := FindFirst(hosts, name);
    if i < |hosts| {
      var j := FindLast(hosts, name);
      FirstOfName(hosts, name, i);
      LastOfName(hosts, name, j);
      TheseEndsAgreeIff(hosts, name, i, j);
    } else {
      NobodyOfName(hosts, name);
      NoEnds(hosts, name);
    }
  }

  lemma TheseEndsAgreeIff(hosts: seq<Host>, name: string, i: nat, j: nat)
    requires IsFirst(hosts, name, i) && IsLast(hosts, name, j)
    ensures EndsAgree(hosts, name) <==> hosts[i].attrs == hosts[j].attrs
  {
    hide FirstAttrs, LastAttrs;
    forall m: nat, n: nat | IsFirst(hosts, name, m) && IsLast(hosts, name, n)
      ensures hosts[m].attrs == hosts[i].attrs && hosts[n].attrs == hosts[j].attrs
    {
      FirstOfName(hosts, name, m);
      FirstOfName(hosts, name, i);
      LastOfName(hosts, name, n);
      LastOfName(hosts, name, j);
    }
  }

  lemma NoEnds(hosts: seq<Host>, name: string)
    requires forall k :: 0 <= k < |hosts| ==> hosts[k].name != name
    ensures EndsAgree(hosts, name)
  {
  }

  /** Hosts of one name that agree throughout, unique names for instance, agree at both ends. */
  lemma HostQueryAgrees(hosts: seq<Host>, listing: Listing, name: string)
    requires IsListing(listing, hosts) && Agree(hosts, name)
    ensures FirstAttrs(hosts, name) == if name in listing.hostvars then listing.hostvars[name] else NO_ATTRS
  {
    hide FirstAttrs, IsListing;
    HostQueryAgreesIff(hosts, listing, name);
  }

  /** Two hosts of one name: the query gives the variables of the first, the listing those of the last. */
  lemma HostQueryDiffers(listing: Listing, first: Attrs, last: Attrs)
    requires first != last && IsListing(listing, [Host("a", first, []), Host("a", last, [])])
    ensures FirstAttrs([Host("a", first, []), Host("a", last, [])], "a") == first
    ensures "a" in listing.hostvars && listing.hostvars["a"] == last
  {
    assert LastAttrs([Host("a", first, []), Host("a", last, [])], "a") == Some(last);
  }

  // ---------- floating addresses ----------

  /** `dict(pairs)`: the last pair of a port wins. */
  function LastOf(pairs: seq<(string, string)>): map<string, string> {
    if pairs == [] then map[] else LastOf(pairs[..|pairs| - 1])[pairs[|pairs| - 1].0 := pairs[|pairs| - 1].1]
  }

  predicate UsesNoAccessIp(h: Host) {
    h.attrs.metadata.Some? && "use_access_ip" in h.attrs.metadata.value
    && h.attrs.metadata.value["use_access_ip"] == "0"
  }

  /** One host of `iter_host_ips`; `None` is the error of a missing key. */
  function PatchHost(h: Host, ips: map<string, string>): Option<Host> {
    if "port_id" !in h.attrs.vars || h.attrs.metadata.None? then None
    else
      var port := h.attrs.vars["port_id"];
      var vars := if port in ips
        then h.attrs.vars["access_ip_v4" := ips[port]]["access_ip" := ips[port]]
                         ["public_ipv4" := ips[port]]["ansible_host" := ips[port]]
        else h.attrs.vars;
      if !UsesNoAccessIp(h) then Some(h.(attrs := h.attrs.(vars := vars)))
      else if "access_ip" !in vars then None
      else Some(h.(attrs := h.attrs.(vars := vars - {"access_ip"})))
  }

  function PatchHosts(hosts: seq<Host>, ips: map<string, string>): Option<seq<Host>> {
    if hosts == [] then Some([])
    else
      match PatchHosts(hosts[..|hosts| - 1], ips)
      case None => None
      case Some(front) =>
        match PatchHost(hosts[|hosts| - 1], ips)
        case None => None
        case Some(last) => Some(front + [last])
  }

  /** `iter_host_ips`, run to its end. */
  method IterHostIps(hosts: seq<Host>, ips: map<string, string>) returns (patched: Option<seq<Host>>)
    ensures patched == PatchHosts(hosts, ips)
  {
    var done: seq<Host> := [];
    assert hosts[..0] == [];
    for i := 0 to |hosts|
      invariant PatchHosts(hosts[..i], ips) == Some(done)
    {
      assert hosts[..i + 1][..i] == hosts[..i];
      var next := PatchHost(hosts[i], ips);
      if next.None? {
        PatchFails(hosts, i + 1, ips);
        return None;
      }
      done := done + [next.value];
    }
    assert hosts[..|hosts|] == hosts;
    return Some(done);
  }

  lemma {:induction false} PatchFails(hosts: seq<Host>, i: nat, ips: map<string, string>)
    requires i <= |hosts| && PatchHosts(hosts[..i], ips).None?
    ensures PatchHosts(hosts, ips).None?
    decreases |hosts|
  {
    if i == |hosts| {
      assert hosts[..i] == hosts;
    } else {
      var front := hosts[..|hosts| - 1];
      assert front[..i] == hosts[..i];
      PatchFails(front, i, ips);
    }
  }

  /** The pass keeps names and groups and touches no variable but the four address keys. */
  lemma {:induction false} PatchKeeps(hosts: seq<Host>, ips: map<string, string>)
    requires PatchHosts(hosts, ips).Some?
    ensures var patched := PatchHosts(hosts, ips).value;
      |patched| == |hosts|
      && forall i :: 0 <= i < |hosts| ==>
        patched[i].name == hosts[i].name && patched[i].groups == hosts[i].groups
        && patched[i].attrs.metadata == hosts[i].attrs.metadata
        && PatchHost(hosts[i], ips) == Some(patched[i])
  {
    if hosts != [] {
      PatchKeeps(hosts[..|hosts| - 1], ips);
    }
  }

  /** A host the pass can handle: it has the two keys that are read, and `access_ip` if that is to go. */
  predicate Patchable(h: Host, ips: map<string, string>) {
    "port_id" in h.attrs.vars && h.attrs.metadata.Some?
    && ("use_access_ip" in h.attrs.metadata.value && h.attrs.metadata.value["use_access_ip"] == "0" ==>
          "access_ip" in h.attrs.vars || h.attrs.vars["port_id"] in ips)
  }

  lemma PatchHostIff(h: Host, ips: map<string, string>)
    ensures PatchHost(h, ips).Some? <==> Patchable(h, ips)
  {
  }

  /** The pass gets to its end exactly when it can handle every host; whether ports have an address does not matter. */
  lemma {:induction false} PatchSucceedsIff(hosts: seq<Host>, ips: map<string, string>)
    ensures PatchHosts(hosts, ips).Some? <==> forall i :: 0 <= i < |hosts| ==> Patchable(hosts[i], ips)
  {
    hide PatchHost, Patchable;
    if hosts != [] {
      var front, last := hosts[..|hosts| - 1], hosts[|hosts| - 1];
      PatchSucceedsIff(front, ips);
      PatchHostIff(last, ips);
      assert forall i :: 0 <= i < |front| ==> front[i] == hosts[i];
      assert hosts == front + [last];
    }
  }

  /** A host whose port has no address, and which keeps its access address, comes back as it is. */
  lemma UnassociatedHostStays(h: Host, ips: map<string, string>)
    requires "port_id" in h.attrs.vars && h.attrs.vars["port_id"] !in ips && h.attrs.metadata.Some?
    requires "use_access_ip" !in h.attrs.metadata.value || h.attrs.metadata.value["use_access_ip"] != "0"
    ensures PatchHost(h, ips) == Some(h)
  {
  }

  /**
   What the pass leaves in one host: with an association for its port, the four address keys hold the last
   associated address; `access_ip` is gone exactly when the metadata says "0"; all else is as before.
   */
  lemma PatchedVars(h: Host, pairs: seq<(string, string)>)
    requires PatchHost(h, LastOf(pairs)).Some?
    ensures var vars := PatchHost(h, LastOf(pairs)).value.attrs.vars;
      var ips, port, metadata := LastOf(pairs), h.attrs.vars["port_id"], h.attrs.metadata.value;
      var drops := "use_access_ip" in metadata && metadata["use_access_ip"] == "0";
      (forall k :: k !in {"access_ip_v4", "access_ip", "public_ipv4", "ansible_host"} ==>
        (k in vars <==> k in h.attrs.vars) && (k in vars ==> vars[k] == h.attrs.vars[k]))
      && (drops ==> "access_ip" !in vars)
      && (forall k ::
           k in {"access_ip_v4", "access_ip", "public_ipv4", "ansible_host"} && (k == "access_ip" ==> !drops) ==>
           if port in ips then k in vars && vars[k] == ips[port]
           else (k in vars <==> k in h.attrs.vars) && (k in vars ==> vars[k] == h.attrs.vars[k]))
  {
  }

  lemma {:induction false} LastPair(pairs: seq<(string, string)>, port: string) returns (i: nat)
    ensures i <= |pairs| && forall k :: i < k < |pairs| ==> pairs[k].0 != port
    ensures i < |pairs| ==> pairs[i].0 == port && port in LastOf(pairs) && LastOf(pairs)[port] == pairs[i].1
    ensures i == |pairs| ==> port !in LastOf(pairs) && forall k :: 0 <= k < |pairs| ==> pairs[k].0 != port
  {
    if pairs == [] {
      i := 0;
    } else if pairs[|pairs| - 1].0 == port {
      i := |pairs| - 1;
    } else {
      i := LastPair(pairs[..|pairs| - 1], port);
      if i == |pairs| - 1 {
        i := |pairs|;
      }
    }
  }

  lemma {:induction false} LastPairWins(pairs: seq<(string, string)>, port: string)
    ensures port in LastOf(pairs) <==> exists i :: 0 <= i < |pairs| && pairs[i].0 == port
    ensures port in LastOf(pairs) ==> exists i ::
      0 <= i < |pairs| && pairs[i] == (port, LastOf(pairs)[port]) && forall j :: i < j < |pairs| ==> pairs[j].0 != port
  {
    hide LastOf;
    var i := LastPair(pairs, port);
    if i < |pairs| {
      assert pairs[i] == (port, LastOf(pairs)[port]);
    }
  }

  lemma {:induction false} ListedSame(a: seq<Host>, b: seq<Host>, g: string)
    requires |a| == |b| && forall i :: 0 <= i < |a| ==> a[i].name == b[i].name && a[i].groups == b[i].groups
    ensures Listed(a, g) == Listed(b, g)
  {
    if a != [] {
      ListedSame(a[..|a| - 1], b[..|b| - 1], g);
      assert GroupSet(a[|a| - 1]) == GroupSet(b[|b| - 1]);
    }
  }

  /** Grouping does not see the floating-IP pass: the groups and their lists are the same before and after it. */
  lemma PatchCommutesWithGrouping(hosts: seq<Host>, ips: map<string, string>, before: Listing, after: Listing)
    requires PatchHosts(hosts, ips).Some?
    requires IsListing(before, hosts) && IsListing(after, PatchHosts(hosts, ips).value)
    ensures after.groups == before.groups
  {
    hide Listed, PatchHosts, HoldsVars;
    PatchKeeps(hosts, ips);
    forall g ensures Listed(PatchHosts(hosts, ips).value, g) == Listed(hosts, g) {
      ListedSame(PatchHosts(hosts, ips).value, hosts, g);
    }
    assert after.groups.Keys == before.groups.Keys;
  }
}
