/** What purging and role assignment keep and establish, for any loaded configuration and built table. */
module RoleLaws {
  import opened OrderedDict
  import opened Inventory
  import opened NameLists
  import opened GroupOrder

  ghost predicate WellFormed(c: Config) {
    Unique(c.hosts) && forall role: Role :: Distinct(c.Members(role))
  }

  ghost predicate NoRoleNames(names: seq<string>) {
    forall x :: x in names ==> x !in PROTECTED_NAMES
  }

  // ---------- the host group ----------

  lemma SavedHosts(s: Settings, c: Config, built: Table)
    ensures Assign(s, c, built).hosts == PutAll(KeepHosts(c.hosts, Allowed(built)), built)
  {
  }

  lemma SavedNameIn(s: Settings, c: Config, built: Table, x: string)
    ensures x in Keys(Assign(s, c, built).hosts)
       <==> x in Keys(built) || (x in Keys(c.hosts) && x in PROTECTED_NAMES)
  {
    SavedHosts(s, c, built);
    PutAllKeyIn(KeepHosts(c.hosts, Allowed(built)), built, x);
    KeepHostsKeys(c.hosts, Allowed(built));
    KeepIn(Keys(c.hosts), Allowed(built), x);
  }

  /** The saved hosts are exactly the built ones unless a deleted host was named like a role. */
  lemma SavedNamesAreBuiltNames(s: Settings, c: Config, built: Table)
    ensures (forall x :: x in Keys(Assign(s, c, built).hosts) <==> x in Keys(built))
       <==> (forall x :: x in Keys(c.hosts) && x in PROTECTED_NAMES ==> x in Keys(built))
  {
    forall x ensures x in Keys(Assign(s, c, built).hosts)
                <==> x in Keys(built) || (x in Keys(c.hosts) && x in PROTECTED_NAMES)
    {
      SavedNameIn(s, c, built, x);
    }
  }

  lemma {:induction false} PutAllKeys(d: Table, more: Table)
    ensures Keys(PutAll(d, more)) == AddAll(Keys(d), Keys(more))
    decreases |more|
  {
    if more != [] {
      PutKeys(d, more[0].key, more[0].value);
      HasKey(d, more[0].key);
      PutAllKeys(Put(d, more[0].key, more[0].value), more[1..]);
      assert Keys(more) == [more[0].key] + Keys(more[1..]);
    }
  }

  lemma {:induction false} PutAllEntries(d: Table, more: Table, e: Entry<string, HostOpts>)
    requires Unique(d) && Unique(more)
    ensures e in PutAll(d, more) <==> e in more || (e in d && e.key !in Keys(more))
    decreases |more|
  {
    if more != [] {
      var k, v, rest := more[0].key, more[0].value, more[1..];
      assert more == [Entry(k, v)] + rest && Keys(more) == [k] + Keys(rest);
      PutKeys(d, k, v);
      PutEntries(d, k, v, e);
      assert k !in Keys(rest) by {
        assert forall i :: 0 <= i < |rest| ==> Keys(rest)[i] == more[i + 1].key;
      }
      if e in rest {
        KeyOfEntry(rest, e);
      }
      hide Put, Keys;
      PutAllEntries(Put(d, k, v), rest, e);
    }
  }

  lemma {:induction false} PutEntries(d: Table, k: string, v: HostOpts, e: Entry<string, HostOpts>)
    requires Unique(d)
    ensures e in Put(d, k, v) <==> e == Entry(k, v) || (e in d && e.key != k)
  {
    var d', i := Put(d, k, v), IndexOf(d, k);
    assert d'[i] == Entry(k, v);
    if e in d && e.key != k {
      var j :| 0 <= j < |d| && d[j] == e;
      assert d'[j] == e;
    }
  }

  lemma KeptNames(c: Config, built: Table)
    requires NoRoleNames(Keys(c.hosts))
    ensures Keys(KeepHosts(c.hosts, Allowed(built))) == Keep(Keys(c.hosts), ToSet(Keys(built)))
  {
    KeepHostsKeys(c.hosts, Allowed(built));
    PurgeKeepsBuilt(Keys(c.hosts), built);
  }

  /**
   The saved host table holds exactly the built entries: first the surviving loaded hosts in their old order,
   then the new ones in the order in which they were built.
   */
  lemma SavedTable(s: Settings, c: Config, built: Table)
    requires Unique(c.hosts) && Unique(built) && NoRoleNames(Keys(c.hosts))
    ensures var saved := Assign(s, c, built).hosts;
      Keys(saved) == SavedOrder(Keys(c.hosts), Keys(built))
      && (forall e :: e in saved <==> e in built)
      && Unique(saved) && |saved| == |built|
  {
    hide Keys, Keep, PutAll, KeepHosts, NotIn;
    var kept := KeepHosts(c.hosts, Allowed(built));
    SavedHosts(s, c, built);
    KeptNames(c, built);
    UniqueKeys(c.hosts);
    UniqueKeys(built);
    UniqueKeys(kept);
    KeepDistinct(Keys(c.hosts), ToSet(Keys(built)));
    PutAllUnique(kept, built);
    PutAllKeys(kept, built);
    SavedOrderIsAddAll(Keys(c.hosts), Keys(built));
    SavedOrderDistinct(Keys(c.hosts), Keys(built));
    forall e ensures e in PutAll(kept, built) <==> e in built {
      PutAllEntries(kept, built, e);
      if e in kept {
        KeyOfEntry(kept, e);
        KeepIn(Keys(c.hosts), ToSet(Keys(built)), e.key);
      }
    }
  }

  lemma {:induction false} KeyOfEntry(t: Table, e: Entry<string, HostOpts>)
    requires e in t
    ensures e.key in Keys(t)
  {
    var j :| 0 <= j < |t| && t[j] == e;
    assert Keys(t)[j] == e.key;
  }

  lemma SameOrderSameTable(t: Table, t': Table)
    requires Keys(t) == Keys(t') && Unique(t) && forall e :: e in t' ==> e in t
    ensures t == t'
  {
    assert |t| == |Keys(t)| == |t'|;
    forall i | 0 <= i < |t| ensures t[i] == t'[i] {
      assert t'[i] in t;
      var j :| 0 <= j < |t| && t[j] == t'[i];
      assert t[j].key == Keys(t')[i] == Keys(t)[i] == t[i].key;
    }
  }

  /** The saved table is the built one, order included, exactly when the survivors kept their place in front. */
  lemma SavedTableIsBuiltTableIff(s: Settings, c: Config, built: Table)
    requires Unique(c.hosts) && Unique(built) && NoRoleNames(Keys(c.hosts))
    ensures Assign(s, c, built).hosts == built <==> InOrder(Keys(c.hosts), Keys(built))
  {
    hide Assign, Keys, SavedOrder;
    SavedTable(s, c, built);
    UniqueKeys(built);
    SavedOrderIsBuiltIff(Keys(c.hosts), Keys(built));
    if InOrder(Keys(c.hosts), Keys(built)) {
      SameOrderSameTable(built, Assign(s, c, built).hosts);
    }
  }

  // ---------- role groups ----------

  /** The hosts a run adds to a role. */
  ghost function Additions(s: Settings, c: Config, built: Table, role: Role): seq<string> {
    var names := Keys(built);
    match role
    case Etcd => Slice(names, 0, EtcdCount(|names|))
    case ControlPlane => ControlPlaneHosts(s, names)
    case Node => NodeHosts(s, BeforeNodes(s, c, built), names)
    case CalicoRr => if |names| >= s.scale then CalicoHosts(Slice(names, 0, EtcdCount(|names|))) else []
  }

  /** The configuration when `set_kube_node` starts. */
  ghost function BeforeNodes(s: Settings, c: Config, built: Table): Config {
    var names := Keys(built);
    Add(Add(SetAll(Purge(c, built), built), Etcd, Slice(names, 0, EtcdCount(|names|))),
        ControlPlane, ControlPlaneHosts(s, names))
  }

  lemma SavedMembers(s: Settings, c: Config, built: Table, role: Role)
    ensures Assign(s, c, built).Members(role)
         == AddAll(Keep(c.Members(role), Allowed(built)), Additions(s, c, built, role))
    ensures |BeforeNodes(s, c, built).hosts| == |Assign(s, c, built).hosts|
    ensures BeforeNodes(s, c, built).etcd == Assign(s, c, built).etcd
    ensures BeforeNodes(s, c, built).controlPlane == Assign(s, c, built).controlPlane
    ensures BeforeNodes(s, c, built).hosts == Assign(s, c, built).hosts
  {
  }

  lemma {:induction false} NodeHostsIn(s: Settings, c: Config, names: seq<string>, x: string)
    ensures x in NodeHosts(s, c, names) <==> x in names && !NotANode(s, c, x)
  {
    if names != [] {
      NodeHostsIn(s, c, names[1..], x);
      assert x in names <==> x == names[0] || x in names[1..];
    }
  }

  lemma {:induction false} CalicoHostsIn(names: seq<string>, x: string)
    ensures x in CalicoHosts(names) <==> x in names && x != "hosts"
  {
    if names != [] {
      CalicoHostsIn(names[1..], x);
      assert x in names <==> x == names[0] || x in names[1..];
    }
  }

  lemma AdditionsAreBuilt(s: Settings, c: Config, built: Table, role: Role, x: string)
    requires x in Additions(s, c, built, role)
    ensures x in Keys(built)
  {
    var names := Keys(built);
    match role {
      case Node => NodeHostsIn(s, BeforeNodes(s, c, built), names, x);
      case CalicoRr => CalicoHostsIn(Slice(names, 0, EtcdCount(|names|)), x);
      case _ =>
    }
  }

  lemma SavedMemberIn(s: Settings, c: Config, built: Table, role: Role, x: string)
    ensures x in Assign(s, c, built).Members(role)
       <==> (x in c.Members(role) && x in Allowed(built)) || x in Additions(s, c, built, role)
  {
    SavedMembers(s, c, built, role);
    AddAllIn(Keep(c.Members(role), Allowed(built)), Additions(s, c, built, role), x);
    KeepIn(c.Members(role), Allowed(built), x);
  }

  /**
   After every run: each role member is a host, each built host is in `etcd`, `kube_control_plane` or
   `kube_node`, and a host that is still there keeps every role it had.
   */
  lemma RolesCoverHosts(s: Settings, c: Config, built: Table)
    requires forall role: Role, x :: x in c.Members(role) ==> x in Keys(c.hosts)
    ensures var saved := Assign(s, c, built);
      (forall role: Role, x :: x in saved.Members(role) ==> x in Keys(saved.hosts))
      && (forall x :: x in Keys(built) ==> x in saved.etcd || x in saved.controlPlane || x in saved.node)
      && (forall role: Role, x :: x in c.Members(role) && x in Keys(built) ==> x in saved.Members(role))
  {
    var saved := Assign(s, c, built);
    forall role: Role, x | x in saved.Members(role) ensures x in Keys(saved.hosts) {
      SavedMemberIn(s, c, built, role, x);
      SavedNameIn(s, c, built, x);
      if x in Additions(s, c, built, role) {
        AdditionsAreBuilt(s, c, built, role, x);
      }
    }
    forall x | x in Keys(built) ensures x in saved.etcd || x in saved.controlPlane || x in saved.node {
      SavedMembers(s, c, built, Node);
      SavedMemberIn(s, c, built, Node, x);
      NodeHostsIn(s, BeforeNodes(s, c, built), Keys(built), x);
      assert saved.Members(Node) == saved.node;
    }
    forall role: Role, x | x in c.Members(role) && x in Keys(built) ensures x in saved.Members(role) {
      SavedMemberIn(s, c, built, role, x);
    }
  }

  lemma AssignKeepsWellFormed(s: Settings, c: Config, built: Table)
    requires WellFormed(c)
    ensures WellFormed(Assign(s, c, built))
  {
    SavedHosts(s, c, built);
    KeepHostsKeys(c.hosts, Allowed(built));
    UniqueKeys(c.hosts);
    KeepDistinct(Keys(c.hosts), Allowed(built));
    UniqueKeys(KeepHosts(c.hosts, Allowed(built)));
    PutAllUnique(KeepHosts(c.hosts, Allowed(built)), built);
    forall role: Role ensures Distinct(Assign(s, c, built).Members(role)) {
      SavedMembers(s, c, built, role);
      KeepDistinct(c.Members(role), Allowed(built));
      AddAllDistinct(Keep(c.Members(role), Allowed(built)), Additions(s, c, built, role));
    }
  }

  /** The purge keeps, of a list of hosts that are not named like roles, exactly the built ones. */
  lemma PurgeKeepsBuilt(names: seq<string>, built: Table)
    requires NoRoleNames(names)
    ensures Keep(names, Allowed(built)) == Keep(names, ToSet(Keys(built)))
  {
    KeepSame(names, Allowed(built), ToSet(Keys(built)));
  }

  lemma SavedEtcd(s: Settings, c: Config, built: Table)
    ensures Assign(s, c, built).etcd
         == AddAll(Keep(c.etcd, Allowed(built)), Slice(Keys(built), 0, EtcdCount(|built|)))
  {
  }

  lemma SavedControlPlane(s: Settings, c: Config, built: Table)
    ensures Assign(s, c, built).controlPlane
         == AddAll(Keep(c.controlPlane, Allowed(built)), ControlPlaneHosts(s, Keys(built)))
  {
  }

  lemma SavedNode(s: Settings, c: Config, built: Table)
    ensures Assign(s, c, built).node
         == AddAll(Keep(c.node, Allowed(built)), NodeHosts(s, BeforeNodes(s, c, built), Keys(built)))
  {
  }

  lemma SavedCalicoRr(s: Settings, c: Config, built: Table)
    requires |built| >= s.scale
    ensures Assign(s, c, built).calicoRr
         == AddAll(Keep(c.calicoRr, Allowed(built)), CalicoHosts(Slice(Keys(built), 0, EtcdCount(|built|))))
  {
  }

  /** A group of hosts after the purge and the addition of the first built hosts. */
  lemma GroupAfterRun(group: seq<string>, built: Table, k: nat)
    requires NoRoleNames(group)
    ensures AddAll(Keep(group, Allowed(built)), Slice(Keys(built), 0, k))
         == Regrouped(group, Keys(built), Min(k, |built|))
  {
    PurgeKeepsBuilt(group, built);
  }

  // ---------- etcd ----------

  /** `etcd` is a prefix of the host list: of three when there are three hosts, never more, never empty. */
  ghost predicate EtcdIsPrefix(c: Config) {
    var names := Keys(c.hosts);
    c.etcd <= names && |c.etcd| <= 3 && (|names| >= 3 ==> |c.etcd| == 3) && (names != [] ==> c.etcd != [])
  }

  /**
   What keeps `etcd` a prefix, told from the loaded file and the built table alone: with three hosts or more, the
   surviving members are among the first three built ones; and none of the hosts that join it overtakes another.
   */
  ghost predicate KeepsEtcdInFront(c: Config, built: Table) {
    var loaded, names := Keys(c.hosts), Keys(built);
    if |names| >= 3 then StaysInFront(loaded, c.etcd, names, 3) else OrderKept(loaded, c.etcd, names, Min(1, |names|))
  }

  lemma EtcdAfterRun(s: Settings, c: Config, built: Table)
    requires NoRoleNames(c.etcd)
    ensures Assign(s, c, built).etcd == Regrouped(c.etcd, Keys(built), Min(EtcdCount(|built|), |built|))
  {
    SavedEtcd(s, c, built);
    GroupAfterRun(c.etcd, built, EtcdCount(|built|));
  }

  lemma RegroupedIsSmall(group: seq<string>, built: seq<string>, k: nat)
    requires Distinct(group) && Distinct(built) && k <= |built|
    ensures k <= |Regrouped(group, built, k)| <= |built|
  {
    hide Keep, AddAll;
    var saved := Regrouped(group, built, k);
    RegroupedSizeIff(group, built, k);
    KeepDistinct(group, ToSet(built));
    AddAllDistinct(Keep(group, ToSet(built)), built[..k]);
    forall x | x in saved ensures x in built {
      AddAllIn(Keep(group, ToSet(built)), built[..k], x);
      KeepIn(group, ToSet(built), x);
    }
    DistinctSize(saved);
    DistinctSize(built);
    SubsetSize(ToSet(saved), ToSet(built));
  }

  /** One run keeps `etcd` a prefix of the saved hosts, and its size right, if and only if it keeps it in front. */
  lemma EtcdStaysPrefixIff(s: Settings, c: Config, built: Table)
    requires WellFormed(c) && EtcdIsPrefix(c) && NoRoleNames(Keys(c.hosts)) && Unique(built)
    ensures EtcdIsPrefix(Assign(s, c, built)) <==> KeepsEtcdInFront(c, built)
  {
    hide Assign, Keys, Regrouped, SavedOrder, OrderKept;
    var loaded, names := Keys(c.hosts), Keys(built);
    var k := Min(EtcdCount(|names|), |names|);
    assert c.Members(Etcd) == c.etcd;
    UniqueKeys(c.hosts);
    UniqueKeys(built);
    EtcdAfterRun(s, c, built);
    SavedTable(s, c, built);
    RegroupedIsPrefixIff(loaded, c.etcd, names, k);
    RegroupedSizeIff(c.etcd, names, k);
    RegroupedIsSmall(c.etcd, names, k);
  }

  /** Survivors in their old order, before all new hosts, are enough. */
  lemma OrderedBuildKeepsEtcdInFront(c: Config, built: Table)
    requires EtcdIsPrefix(c) && Unique(built) && InOrder(Keys(c.hosts), Keys(built))
    ensures KeepsEtcdInFront(c, built)
  {
    UniqueKeys(built);
    if |built| >= 3 {
      OrderedStaysInFront(Keys(c.hosts), c.etcd, Keys(built), 3);
    } else {
      OrderedIsKept(Keys(c.hosts), c.etcd, Keys(built), Min(1, |built|));
    }
  }

  /**
   Whatever the order of the built table, a run that ends with at least three hosts leaves exactly three
   etcd members if and only if every etcd member that is still there is among the first three built hosts:
   deleting one and adding it back further down is what breaks the limit.
   */
  lemma ThreeEtcdMembersIff(s: Settings, c: Config, built: Table)
    requires Distinct(c.etcd) && NoRoleNames(c.etcd) && Unique(built) && |built| >= 3
    ensures |Assign(s, c, built).etcd| >= 3
    ensures |Assign(s, c, built).etcd| == 3
       <==> (forall h :: h in c.etcd && h in Keys(built) ==> h in Keys(built)[..3])
  {
    hide Assign, Keys, Regrouped;
    EtcdAfterRun(s, c, built);
    UniqueKeys(built);
    RegroupedSizeIff(c.etcd, Keys(built), 3);
  }

  // ---------- control plane and nodes below the scale thresholds ----------

  ghost predicate SmallCluster(s: Settings, n: nat) {
    n < s.scale && n < s.massiveScale
  }

  /** The control plane is the first `k` hosts. */
  ghost predicate ControlPlaneIsFirst(k: nat, c: Config) {
    var names := Keys(c.hosts);
    c.controlPlane == names[..Min(k, |names|)]
  }

  /** Every host is a node, in the order of the hosts. */
  ghost predicate NodesAreHosts(c: Config) {
    c.node == Keys(c.hosts)
  }

  /** Below the scale threshold, the control plane stays the first hosts if and only if the run keeps it in front. */
  lemma ControlPlaneStaysFirstIff(s: Settings, c: Config, built: Table)
    requires WellFormed(c) && ControlPlaneIsFirst(s.controlHosts, c) && NoRoleNames(Keys(c.hosts))
    requires Unique(built) && |built| < s.scale
    ensures ControlPlaneIsFirst(s.controlHosts, Assign(s, c, built))
       <==> StaysInFront(Keys(c.hosts), c.controlPlane, Keys(built), Min(s.controlHosts, |built|))
  {
    hide Assign, Keys, Regrouped, SavedOrder, StaysInFront;
    assert c.Members(ControlPlane) == c.controlPlane;
    UniqueKeys(c.hosts);
    UniqueKeys(built);
    SavedControlPlane(s, c, built);
    GroupAfterRun(c.controlPlane, built, s.controlHosts);
    SavedTable(s, c, built);
    RegroupedIsFrontIff(Keys(c.hosts), c.controlPlane, Keys(built), Min(s.controlHosts, |built|));
  }

  lemma OrderedBuildKeepsControlPlane(s: Settings, c: Config, built: Table)
    requires ControlPlaneIsFirst(s.controlHosts, c) && Unique(built) && InOrder(Keys(c.hosts), Keys(built))
    ensures StaysInFront(Keys(c.hosts), c.controlPlane, Keys(built), Min(s.controlHosts, |built|))
  {
    UniqueKeys(built);
    OrderedStaysInFront(Keys(c.hosts), c.controlPlane, Keys(built), Min(s.controlHosts, |built|));
  }

  /** Below the thresholds, the nodes stay exactly the hosts, in the same order, whatever the run adds or deletes. */
  lemma NodesStayHosts(s: Settings, c: Config, built: Table)
    requires WellFormed(c) && NodesAreHosts(c) && NoRoleNames(Keys(c.hosts))
    requires Unique(built) && SmallCluster(s, |built|)
    ensures NodesAreHosts(Assign(s, c, built))
  {
    hide Assign, Keys, SavedOrder;
    UniqueKeys(built);
    SavedTable(s, c, built);
    SavedNode(s, c, built);
    SavedMembers(s, c, built, Node);
    NodeHostsAll(s, BeforeNodes(s, c, built), Keys(built));
    PurgeKeepsBuilt(c.node, built);
    SavedOrderIsAddAll(Keys(c.hosts), Keys(built));
  }

  lemma {:induction false} NodeHostsAll(s: Settings, c: Config, names: seq<string>)
    requires forall x :: x in names ==> !NotANode(s, c, x)
    ensures NodeHosts(s, c, names) == names
  {
    if names != [] {
      assert names[0] in names;
      assert forall x :: x in names[1..] ==> x in names;
      NodeHostsAll(s, c, names[1..]);
    }
  }

  // ---------- fresh runs at scale ----------

  lemma AddAllToNothing(hosts: seq<string>)
    requires Distinct(hosts)
    ensures AddAll([], hosts) == hosts
  {
    AddAllToPrefix(hosts, 0, 0, |hosts|);
    assert hosts[..0] == [] && hosts[0..|hosts|] == hosts && hosts[..|hosts|] == hosts;
  }

  lemma {:induction false} NodeHostsAppend(s: Settings, c: Config, a: seq<string>, b: seq<string>)
    ensures NodeHosts(s, c, a + b) == NodeHosts(s, c, a) + NodeHosts(s, c, b)
  {
    if a == [] {
      assert a + b == b;
    } else {
      assert (a + b)[0] == a[0] && (a + b)[1..] == a[1..] + b;
      NodeHostsAppend(s, c, a[1..], b);
    }
  }

  lemma {:induction false} NodeHostsNone(s: Settings, c: Config, names: seq<string>)
    requires forall x :: x in names ==> NotANode(s, c, x)
    ensures NodeHosts(s, c, names) == []
  {
    if names != [] {
      assert names[0] in names;
      assert forall x :: x in names[1..] ==> x in names;
      NodeHostsNone(s, c, names[1..]);
    }
  }

  lemma {:induction false} CalicoHostsAll(names: seq<string>)
    requires "hosts" !in names
    ensures CalicoHosts(names) == names
  {
    if names != [] {
      assert names[0] in names;
      CalicoHostsAll(names[1..]);
    }
  }

  lemma FreshHosts(s: Settings, built: Table)
    requires Unique(built)
    ensures Assign(s, EMPTY_CONFIG, built).hosts == built
  {
    SavedTableIsBuiltTableIff(s, EMPTY_CONFIG, built);
  }

  lemma {:induction false} NodeSlices(s: Settings, c: Config, names: seq<string>, e: nat, m: nat)
    requires Distinct(names) && e <= m <= |names| == |c.hosts| && |names| >= s.scale
    requires c.etcd == names[..e] && c.controlPlane == names[e..m]
    ensures NodeHosts(s, c, names) == if |names| >= s.massiveScale then names[m..] else names[e..]
  {
    hide NodeHosts;
    assert names == names[..e] + (names[e..m] + names[m..]);
    NodeHostsAppend(s, c, names[..e], names[e..m] + names[m..]);
    NodeHostsAppend(s, c, names[e..m], names[m..]);
    NodeHostsNone(s, c, names[..e]);
    NodeHostsAll(s, c, names[m..]);
    if |names| >= s.massiveScale {
      NodeHostsNone(s, c, names[e..m]);
    } else {
      NodeHostsAll(s, c, names[e..m]);
      assert names[e..m] + names[m..] == names[e..];
    }
  }

  /**
   The roles of a fresh large cluster, cut from the host list: etcd is the first `e` hosts, the control plane
   the next ones up to `m`, calico_rr the etcd hosts; the nodes are all others, the control plane included
   only while the cluster stays below the massive threshold.
   */
  ghost predicate Sliced(s: Settings, c: Config, names: seq<string>, e: nat, m: nat)
    requires e <= m <= |names|
  {
    c.etcd == names[..e] && c.controlPlane == names[e..m] && c.calicoRr == names[..e]
    && c.node == if |names| >= s.massiveScale then names[m..] else names[e..]
  }

  lemma FreshNodes(s: Settings, built: Table, names: seq<string>, e: nat, m: nat)
    requires Distinct(names) && names == Keys(built) && e <= m <= |names| && |names| >= s.scale
    requires Assign(s, EMPTY_CONFIG, built).hosts == built
    requires Assign(s, EMPTY_CONFIG, built).etcd == names[..e]
    requires Assign(s, EMPTY_CONFIG, built).controlPlane == names[e..m]
    ensures Assign(s, EMPTY_CONFIG, built).node == if |names| >= s.massiveScale then names[m..] else names[e..]
  {
    SavedMembers(s, EMPTY_CONFIG, built, Node);
    NodeSlices(s, BeforeNodes(s, EMPTY_CONFIG, built), names, e, m);
    SavedNode(s, EMPTY_CONFIG, built);
    AddAllToNothing(names[m..]);
    AddAllToNothing(names[e..]);
  }

  /** A fresh run at or above the scale threshold cuts its roles from the host list. */
  lemma FreshScaleSlices(s: Settings, built: Table, names: seq<string>, e: nat, m: nat)
    requires Unique(built) && names == Keys(built) && |names| >= s.scale && "hosts" !in names
    requires e == Min(EtcdCount(|names|), |names|) && m == Min(EtcdCount(|names|) + s.controlHosts, |names|)
    ensures Assign(s, EMPTY_CONFIG, built).hosts == built
    ensures Sliced(s, Assign(s, EMPTY_CONFIG, built), names, e, m)
  {
    UniqueKeys(built);
    FreshHosts(s, built);
    FreshGroups(s, built, names, e, m);
    FreshNodes(s, built, names, e, m);
  }

  lemma FreshGroups(s: Settings, built: Table, names: seq<string>, e: nat, m: nat)
    requires Distinct(names) && names == Keys(built) && |names| >= s.scale && "hosts" !in names
    requires e == Min(EtcdCount(|names|), |names|) && m == Min(EtcdCount(|names|) + s.controlHosts, |names|)
    ensures var saved := Assign(s, EMPTY_CONFIG, built);
      saved.etcd == names[..e] && saved.controlPlane == names[e..m] && saved.calicoRr == names[..e]
  {
    hide Assign, Keys, AddAll, CalicoHosts;
    SavedEtcd(s, EMPTY_CONFIG, built);
    SavedControlPlane(s, EMPTY_CONFIG, built);
    SavedCalicoRr(s, EMPTY_CONFIG, built);
    assert Slice(names, 0, EtcdCount(|names|)) == names[..e];
    AddAllToNothing(names[..e]);
    AddAllToNothing(names[e..m]);
    CalicoHostsAll(names[..e]);
  }

  // ---------- running again with the same table ----------

  /** Assigning the same table a second time changes nothing. */
  lemma AssignTwice(s: Settings, c: Config, built: Table)
    requires Unique(built) && Assign(s, c, built).hosts == built
    ensures Assign(s, Assign(s, c, built), built) == Assign(s, c, built)
  {
    var saved := Assign(s, c, built);
    var again := Assign(s, saved, built);
    SavedTableAgain(s, saved, built);
    forall role: Role | role != Node ensures again.Members(role) == saved.Members(role) {
      assert Additions(s, saved, built, role) == Additions(s, c, built, role);
      MembersAgain(s, c, built, role);
    }
    assert again.Members(Etcd) == saved.Members(Etcd) && again.Members(ControlPlane) == saved.Members(ControlPlane);
    SavedMembers(s, c, built, Node);
    SavedMembers(s, saved, built, Node);
    NodeHostsDependOn(s, BeforeNodes(s, c, built), BeforeNodes(s, saved, built), Keys(built));
    MembersAgain(s, c, built, Node);
    assert again.Members(Node) == saved.Members(Node) && again.Members(CalicoRr) == saved.Members(CalicoRr);
  }

  lemma SavedTableAgain(s: Settings, saved: Config, built: Table)
    requires Unique(built) && saved.hosts == built
    ensures Assign(s, saved, built).hosts == built
  {
    SavedHosts(s, saved, built);
    KeepHostsEverything(built, Allowed(built));
    assert built[0..] == built;
    PutAllOverPrefix(built, built, 0);
  }

  lemma {:induction false} KeepHostsEverything(t: Table, allowed: set<string>)
    requires forall x :: x in Keys(t) ==> x in allowed
    ensures KeepHosts(t, allowed) == t
  {
    if t != [] {
      assert Keys(t)[0] == t[0].key && Keys(t)[1..] == Keys(t[1..]);
      assert forall x :: x in Keys(t[1..]) ==> x in Keys(t);
      KeepHostsEverything(t[1..], allowed);
    }
  }

  lemma MembersAgain(s: Settings, c: Config, built: Table, role: Role)
    requires Additions(s, Assign(s, c, built), built, role) == Additions(s, c, built, role)
    ensures Assign(s, Assign(s, c, built), built).Members(role) == Assign(s, c, built).Members(role)
  {
    var saved := Assign(s, c, built);
    var members, added := saved.Members(role), Additions(s, c, built, role);
    forall x | x in members ensures x in Allowed(built) {
      SavedMemberIn(s, c, built, role, x);
      if x in added {
        AdditionsAreBuilt(s, c, built, role, x);
      }
    }
    KeepEverything(members, Allowed(built));
    forall x | x in added ensures x in members {
      SavedMemberIn(s, c, built, role, x);
    }
    AddAllKnown(members, added);
    SavedMembers(s, saved, built, role);
  }

  lemma {:induction false} NodeHostsDependOn(s: Settings, c: Config, d: Config, names: seq<string>)
    requires |c.hosts| == |d.hosts| && c.etcd == d.etcd && c.controlPlane == d.controlPlane
    ensures NodeHosts(s, c, names) == NodeHosts(s, d, names)
  {
    if names != [] {
      NodeHostsDependOn(s, c, d, names[1..]);
    }
  }
}
