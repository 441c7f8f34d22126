/** When the roles of a large cluster stay apart: the guards look at saved members, and members are never moved. */
module Separation {
  import opened OrderedDict
  import opened Inventory
  import opened NameLists
  import opened GroupOrder
  import opened RoleLaws

  /** No host is in both groups. */
  ghost predicate Apart(a: seq<string>, b: seq<string>) {
    forall x :: x in a ==> x !in b
  }

  /** Groups without repetition, and no host or member that is named like a role. */
  ghost predicate PlainConfig(c: Config) {
    WellFormed(c) && NoRoleNames(Keys(c.hosts)) && forall role: Role :: NoRoleNames(c.Members(role))
  }

  // ---------- who is in a group after the run ----------

  function FirstBuilt(built: Table): seq<string> {
    Slice(Keys(built), 0, EtcdCount(|built|))
  }

  ghost predicate InEtcd(c: Config, built: Table, x: string) {
    x in c.etcd || x in FirstBuilt(built)
  }

  ghost predicate InControlPlane(s: Settings, c: Config, built: Table, x: string) {
    x in c.controlPlane || x in ControlPlaneHosts(s, Keys(built))
  }

  ghost predicate InCalicoRr(c: Config, built: Table, x: string) {
    x in c.calicoRr || (x in FirstBuilt(built) && x != "hosts")
  }

  /** Whether the guards of `set_kube_node` keep a host out, told from the loaded file and the built table. */
  ghost predicate KeptOut(s: Settings, c: Config, built: Table, x: string) {
    InEtcd(c, built, x) || (|built| >= s.massiveScale && InControlPlane(s, c, built, x))
  }

  lemma MemberIsBuilt(s: Settings, c: Config, built: Table, role: Role, x: string)
    requires PlainConfig(c) && x in Assign(s, c, built).Members(role)
    ensures x in Keys(built)
  {
    hide Assign, Keys, Additions;
    SavedMemberIn(s, c, built, role, x);
    if x in Additions(s, c, built, role) {
      AdditionsAreBuilt(s, c, built, role, x);
    }
  }

  lemma MembersAfterRun(s: Settings, c: Config, built: Table, x: string)
    requires PlainConfig(c) && Unique(built) && |built| >= s.scale && x in Keys(built)
    ensures var saved := Assign(s, c, built);
      (x in saved.etcd <==> InEtcd(c, built, x))
      && (x in saved.controlPlane <==> InControlPlane(s, c, built, x))
      && (x in saved.calicoRr <==> InCalicoRr(c, built, x))
      && (x in saved.node <==> x in c.node || !KeptOut(s, c, built, x))
  {
    hide Assign, Keys, Slice, ControlPlaneHosts, PlainConfig, Unique;
    var saved := Assign(s, c, built);
    forall role: Role ensures x in saved.Members(role) <==> x in c.Members(role) || x in Additions(s, c, built, role) {
      SavedMemberIn(s, c, built, role, x);
    }
    assert saved.Members(Etcd) == saved.etcd && saved.Members(ControlPlane) == saved.controlPlane;
    assert saved.Members(CalicoRr) == saved.calicoRr && saved.Members(Node) == saved.node;
    CalicoHostsIn(FirstBuilt(built), x);
    PlainSavedTable(s, c, built);
    SavedMembers(s, c, built, Node);
    NodeHostsIn(s, BeforeNodes(s, c, built), Keys(built), x);
  }

  lemma PlainSavedTable(s: Settings, c: Config, built: Table)
    requires PlainConfig(c) && Unique(built)
    ensures |Assign(s, c, built).hosts| == |built|
  {
    hide Assign, Keys, SavedOrder;
    SavedTable(s, c, built);
  }

  // ---------- the conditions ----------

  /**
   At or above the scale threshold, etcd stays apart from the nodes if and only if no surviving node was, or becomes,
   an etcd host: the guards keep new nodes out and leave old ones in.
   */
  lemma EtcdApartFromNodesIff(s: Settings, c: Config, built: Table)
    requires PlainConfig(c) && Unique(built) && |built| >= s.scale
    ensures Apart(Assign(s, c, built).etcd, Assign(s, c, built).node)
       <==> forall x :: x in Keys(built) && x in c.node ==> !InEtcd(c, built, x)
  {
    hide Assign, Keys, PlainConfig, InEtcd, InControlPlane, InCalicoRr, Unique;
    var saved := Assign(s, c, built);
    forall x ensures (x in saved.etcd && x in saved.node)
                <==> (x in Keys(built) && x in c.node && InEtcd(c, built, x))
    {
      if x in Keys(built) {
        MembersAfterRun(s, c, built, x);
      } else if x in saved.etcd {
        MemberOfEtcdIsBuilt(s, c, built, x);
      }
    }
  }

  lemma MemberOfEtcdIsBuilt(s: Settings, c: Config, built: Table, x: string)
    requires PlainConfig(c) && x in Assign(s, c, built).etcd
    ensures x in Keys(built)
  {
    hide Assign, Keys, PlainConfig;
    assert Assign(s, c, built).Members(Etcd) == Assign(s, c, built).etcd;
    MemberIsBuilt(s, c, built, Etcd, x);
  }

  lemma MemberOfControlPlaneIsBuilt(s: Settings, c: Config, built: Table, x: string)
    requires PlainConfig(c) && x in Assign(s, c, built).controlPlane
    ensures x in Keys(built)
  {
    hide Assign, Keys, PlainConfig;
    assert Assign(s, c, built).Members(ControlPlane) == Assign(s, c, built).controlPlane;
    MemberIsBuilt(s, c, built, ControlPlane, x);
  }

  lemma MemberOfCalicoRrIsBuilt(s: Settings, c: Config, built: Table, x: string)
    requires PlainConfig(c) && x in Assign(s, c, built).calicoRr
    ensures x in Keys(built)
  {
    hide Assign, Keys, PlainConfig;
    assert Assign(s, c, built).Members(CalicoRr) == Assign(s, c, built).calicoRr;
    MemberIsBuilt(s, c, built, CalicoRr, x);
  }

  /** The built hosts that become etcd and control plane are different ones. */
  lemma NewRolesAreApart(s: Settings, built: Table, x: string)
    requires Unique(built) && |built| >= s.scale
    ensures !(x in FirstBuilt(built) && x in ControlPlaneHosts(s, Keys(built)))
  {
    hide Keys;
    UniqueKeys(built);
    var names, e := Keys(built), Min(EtcdCount(|built|), |built|);
    assert FirstBuilt(built) == names[..e];
    assert |ControlPlaneHosts(s, names)| <= |names| - e;
    assert forall i :: 0 <= i < |ControlPlaneHosts(s, names)| ==> ControlPlaneHosts(s, names)[i] == names[e + i];
  }

  /** Etcd and control plane stay apart if and only if no old member of one was, or becomes, a member of the other. */
  lemma EtcdApartFromControlPlaneIff(s: Settings, c: Config, built: Table)
    requires PlainConfig(c) && Unique(built) && |built| >= s.scale
    ensures Apart(Assign(s, c, built).etcd, Assign(s, c, built).controlPlane)
       <==> (forall x :: x in Keys(built) && x in c.etcd ==> !InControlPlane(s, c, built, x))
            && (forall x :: x in Keys(built) && x in c.controlPlane ==> !InEtcd(c, built, x))
  {
    hide Assign, Keys, PlainConfig, Unique, FirstBuilt, ControlPlaneHosts;
    var saved := Assign(s, c, built);
    forall x ensures (x in saved.etcd && x in saved.controlPlane)
                <==> x in Keys(built) && InEtcd(c, built, x) && InControlPlane(s, c, built, x)
    {
      if x in Keys(built) {
        MembersAfterRun(s, c, built, x);
      } else if x in saved.etcd {
        MemberOfEtcdIsBuilt(s, c, built, x);
      }
    }
    forall x ensures !(x in FirstBuilt(built) && x in ControlPlaneHosts(s, Keys(built))) {
      NewRolesAreApart(s, built, x);
    }
  }

  /**
   At or above both thresholds, the control plane stays apart from the nodes if and only if no surviving node was, or
   becomes, a control-plane host.
   */
  lemma ControlPlaneApartFromNodesIff(s: Settings, c: Config, built: Table)
    requires PlainConfig(c) && Unique(built) && |built| >= s.scale && |built| >= s.massiveScale
    ensures Apart(Assign(s, c, built).controlPlane, Assign(s, c, built).node)
       <==> forall x :: x in Keys(built) && x in c.node ==> !InControlPlane(s, c, built, x)
  {
    hide Assign, Keys, PlainConfig, InEtcd, InControlPlane, InCalicoRr, Unique;
    var saved := Assign(s, c, built);
    forall x ensures (x in saved.controlPlane && x in saved.node)
                <==> (x in Keys(built) && x in c.node && InControlPlane(s, c, built, x))
    {
      if x in Keys(built) {
        MembersAfterRun(s, c, built, x);
      } else if x in saved.controlPlane {
        MemberOfControlPlaneIsBuilt(s, c, built, x);
      }
    }
  }

  /**
   `set_calico_rr` means to keep calico_rr apart from the control plane. Its guard never holds, so this is so if and
   only if no old member of one was, or becomes, a member of the other.
   */
  lemma CalicoRrApartFromControlPlaneIff(s: Settings, c: Config, built: Table)
    requires PlainConfig(c) && Unique(built) && |built| >= s.scale
    ensures Apart(Assign(s, c, built).calicoRr, Assign(s, c, built).controlPlane)
       <==> (forall x :: x in Keys(built) && x in c.calicoRr ==> !InControlPlane(s, c, built, x))
            && (forall x :: x in Keys(built) && x in c.controlPlane ==> !InCalicoRr(c, built, x))
  {
    hide Assign, Keys, PlainConfig, Unique, FirstBuilt, ControlPlaneHosts;
    var saved := Assign(s, c, built);
    forall x ensures (x in saved.calicoRr && x in saved.controlPlane)
                <==> x in Keys(built) && InCalicoRr(c, built, x) && InControlPlane(s, c, built, x)
    {
      if x in Keys(built) {
        MembersAfterRun(s, c, built, x);
      } else if x in saved.calicoRr {
        MemberOfCalicoRrIsBuilt(s, c, built, x);
      }
    }
    forall x ensures !(x in FirstBuilt(built) && x in ControlPlaneHosts(s, Keys(built))) {
      NewRolesAreApart(s, built, x);
    }
  }

  /** ... and apart from the nodes if and only if no old node is in calico_rr and every old member is kept out. */
  lemma CalicoRrApartFromNodesIff(s: Settings, c: Config, built: Table)
    requires PlainConfig(c) && Unique(built) && |built| >= s.scale
    ensures Apart(Assign(s, c, built).calicoRr, Assign(s, c, built).node)
       <==> (forall x :: x in Keys(built) && x in c.node ==> !InCalicoRr(c, built, x))
            && (forall x :: x in Keys(built) && x in c.calicoRr ==> KeptOut(s, c, built, x))
  {
    hide Assign, Keys, PlainConfig, Unique, FirstBuilt, InControlPlane;
    var saved := Assign(s, c, built);
    forall x ensures (x in saved.calicoRr && x in saved.node)
                <==> (x in Keys(built) && InCalicoRr(c, built, x) && (x in c.node || !KeptOut(s, c, built, x)))
    {
      if x in Keys(built) {
        MembersAfterRun(s, c, built, x);
      } else if x in saved.calicoRr {
        MemberOfCalicoRrIsBuilt(s, c, built, x);
      }
    }
  }

  // ---------- roles by position ----------

  lemma PlaceInSlice(names: seq<string>, lo: nat, hi: nat, i: nat)
    requires Distinct(names) && lo <= hi && i < |names|
    ensures names[i] in Slice(names, lo, hi) <==> lo <= i < hi
  {
    var part, from := Slice(names, lo, hi), Min(lo, |names|);
    assert forall j :: 0 <= j < |part| ==> part[j] == names[from + j];
    if lo <= i < hi {
      assert part[i - from] == names[i];
    }
  }

  /**
   The groups after a run, from the loaded groups and the place of each host in the built table: three etcd hosts or
   one, the first `controlHosts` hosts in the control plane or, at scale, those behind etcd, calico_rr at scale only,
   and as nodes all that the guards let through.
   */
  lemma RolesByPlace(s: Settings, c: Config, built: Table, i: nat)
    requires PlainConfig(c) && Unique(built) && i < |built|
    ensures var n, x, saved := |built|, built[i].key, Assign(s, c, built);
      var e: nat := if n >= 3 then 3 else 1;
      (x in saved.etcd <==> x in c.etcd || i < e)
      && (x in saved.controlPlane <==>
            x in c.controlPlane || (if n >= s.scale then e <= i < e + s.controlHosts else i < s.controlHosts))
      && (x in saved.calicoRr <==> x in c.calicoRr || (n >= s.scale && i < e && x != "hosts"))
      && (x in saved.node <==>
            x in c.node || !((n >= s.scale && x in saved.etcd) || (n >= s.massiveScale && x in saved.controlPlane)))
  {
    hide Assign, Slice, PlainConfig, Unique, Keys;
    var saved, x := Assign(s, c, built), built[i].key;
    assert Keys(built)[i] == x;
    forall role: Role ensures x in saved.Members(role) <==> x in c.Members(role) || x in Additions(s, c, built, role) {
      SavedMemberIn(s, c, built, role, x);
    }
    assert saved.Members(Etcd) == saved.etcd && saved.Members(ControlPlane) == saved.controlPlane;
    assert saved.Members(CalicoRr) == saved.calicoRr && saved.Members(Node) == saved.node;
    UniqueKeys(built);
    var e := EtcdCount(|built|);
    PlaceInSlice(Keys(built), 0, e, i);
    PlaceInSlice(Keys(built), 0, s.controlHosts, i);
    PlaceInSlice(Keys(built), e, e + s.controlHosts, i);
    CalicoHostsIn(Slice(Keys(built), 0, e), x);
    PlainSavedTable(s, c, built);
    SavedMembers(s, c, built, Node);
    NodeHostsIn(s, BeforeNodes(s, c, built), Keys(built), x);
  }

  // ---------- a fresh run ----------

  lemma {:induction false} NodeHostsKeep(s: Settings, c: Config, names: seq<string>, kept: set<string>)
    requires forall x :: x in names ==> (x in kept <==> !NotANode(s, c, x))
    ensures NodeHosts(s, c, names) == Keep(names, kept)
  {
    if names != [] {
      assert names[0] in names;
      assert forall x :: x in names[1..] ==> x in names;
      NodeHostsKeep(s, c, names[1..], kept);
    }
  }

  lemma {:induction false} CalicoHostsKeep(names: seq<string>, all: set<string>)
    requires forall x :: x in names ==> x in all
    ensures CalicoHosts(names) == Keep(names, all - {"hosts"})
  {
    if names != [] {
      assert names[0] in names;
      assert forall x :: x in names[1..] ==> x in names;
      CalicoHostsKeep(names[1..], all);
    }
  }

  lemma DistinctKeepStays(names: seq<string>, kept: set<string>)
    requires Distinct(names)
    ensures AddAll([], Keep(names, kept)) == Keep(names, kept)
  {
    KeepDistinct(names, kept);
    AddAllToNothing(Keep(names, kept));
  }

  /** A fresh run of any size: every group, in order, from the host list. */
  lemma FreshRoles(s: Settings, built: Table)
    requires Unique(built)
    ensures var saved, names, n := Assign(s, EMPTY_CONFIG, built), Keys(built), |built|;
      var e: nat := if n >= 3 then 3 else 1;
      var outEtcd := if n >= s.scale then ToSet(saved.etcd) else {};
      var outControl := if n >= s.massiveScale then ToSet(saved.controlPlane) else {};
      saved.hosts == built && saved.etcd == names[..Min(e, n)]
      && saved.controlPlane == (if n >= s.scale then names[Min(e, n)..Min(e + s.controlHosts, n)]
                                else names[..Min(s.controlHosts, n)])
      && saved.node == Keep(names, ToSet(names) - outEtcd - outControl)
      && saved.calicoRr == if n >= s.scale then Keep(names[..Min(e, n)], ToSet(names) - {"hosts"}) else []
  {
    FreshHosts(s, built);
    UniqueKeys(built);
    FreshEtcdAndControlPlane(s, built);
    FreshNodesKeep(s, built);
    FreshCalicoRr(s, built);
  }

  lemma FreshEtcdAndControlPlane(s: Settings, built: Table)
    requires Unique(built)
    ensures var saved, names, n := Assign(s, EMPTY_CONFIG, built), Keys(built), |built|;
      var e := EtcdCount(n);
      saved.etcd == names[..Min(e, n)]
      && saved.controlPlane == (if n >= s.scale then names[Min(e, n)..Min(e + s.controlHosts, n)]
                                else names[..Min(s.controlHosts, n)])
  {
    hide Assign, Keys, AddAll, ControlPlaneHosts, Allowed;
    var names, n := Keys(built), |built|;
    UniqueKeys(built);
    SavedEtcd(s, EMPTY_CONFIG, built);
    SavedControlPlane(s, EMPTY_CONFIG, built);
    KeepOfNothing(Allowed(built));
    SliceIs(names, 0, EtcdCount(n));
    AddAllToNothing(Slice(names, 0, EtcdCount(n)));
    ControlPlaneHostsAre(s, names);
    AddAllToNothing(ControlPlaneHosts(s, names));
  }

  lemma SliceIs(names: seq<string>, lo: nat, hi: nat)
    requires Distinct(names) && lo <= hi
    ensures Slice(names, lo, hi) == names[Min(lo, |names|)..Min(hi, |names|)] && Distinct(Slice(names, lo, hi))
    ensures names[0..Min(hi, |names|)] == names[..Min(hi, |names|)]
  {
  }

  lemma ControlPlaneHostsAre(s: Settings, names: seq<string>)
    requires Distinct(names)
    ensures var e, n := EtcdCount(|names|), |names|;
      ControlPlaneHosts(s, names) == (if n >= s.scale then names[Min(e, n)..Min(e + s.controlHosts, n)]
                                      else names[..Min(s.controlHosts, n)])
      && Distinct(ControlPlaneHosts(s, names))
  {
    SliceIs(names, EtcdCount(|names|), EtcdCount(|names|) + s.controlHosts);
    SliceIs(names, 0, s.controlHosts);
  }

  lemma FreshNodesKeep(s: Settings, built: Table)
    requires Unique(built)
    ensures var saved, names, n := Assign(s, EMPTY_CONFIG, built), Keys(built), |built|;
      var outEtcd := if n >= s.scale then ToSet(saved.etcd) else {};
      var outControl := if n >= s.massiveScale then ToSet(saved.controlPlane) else {};
      saved.node == Keep(names, ToSet(names) - outEtcd - outControl)
  {
    hide Assign, Keys, AddAll, Keep, NodeHosts, BeforeNodes, Additions;
    var saved, names, n := Assign(s, EMPTY_CONFIG, built), Keys(built), |built|;
    var outEtcd := if n >= s.scale then ToSet(saved.etcd) else {};
    var outControl := if n >= s.massiveScale then ToSet(saved.controlPlane) else {};
    UniqueKeys(built);
    FreshHosts(s, built);
    SavedNode(s, EMPTY_CONFIG, built);
    SavedMembers(s, EMPTY_CONFIG, built, Node);
    GuardsKeep(s, BeforeNodes(s, EMPTY_CONFIG, built), names);
    DistinctKeepStays(names, ToSet(names) - outEtcd - outControl);
    KeepOfNothing(Allowed(built));
  }

  lemma GuardsKeep(s: Settings, c: Config, names: seq<string>)
    ensures var n := |c.hosts|;
      var outEtcd := if n >= s.scale then ToSet(c.etcd) else {};
      var outControl := if n >= s.massiveScale then ToSet(c.controlPlane) else {};
      NodeHosts(s, c, names) == Keep(names, ToSet(names) - outEtcd - outControl)
  {
    hide Keep, NodeHosts;
    var outEtcd := if |c.hosts| >= s.scale then ToSet(c.etcd) else {};
    var outControl := if |c.hosts| >= s.massiveScale then ToSet(c.controlPlane) else {};
    NodeHostsKeep(s, c, names, ToSet(names) - outEtcd - outControl);
  }

  lemma KeepOfNothing(allowed: set<string>)
    ensures Keep([], allowed) == []
  {
  }

  lemma FreshCalicoRr(s: Settings, built: Table)
    requires Unique(built)
    ensures var names, n := Keys(built), |built|;
      Assign(s, EMPTY_CONFIG, built).calicoRr
      == if n >= s.scale then Keep(names[..Min(EtcdCount(n), n)], ToSet(names) - {"hosts"}) else []
  {
    hide Assign, Keys, AddAll, Keep, CalicoHosts, Allowed, NodeHosts, ControlPlaneHosts, BeforeNodes;
    var names, n := Keys(built), |built|;
    UniqueKeys(built);
    KeepOfNothing(Allowed(built));
    SliceIs(names, 0, EtcdCount(n));
    SavedMembers(s, EMPTY_CONFIG, built, CalicoRr);
    assert Assign(s, EMPTY_CONFIG, built).Members(CalicoRr) == Assign(s, EMPTY_CONFIG, built).calicoRr;
    if n >= s.scale {
      CalicoHostsKeep(Slice(names, 0, EtcdCount(n)), ToSet(names));
      DistinctKeepStays(Slice(names, 0, EtcdCount(n)), ToSet(names) - {"hosts"});
    } else {
      AddAllToNothing([]);
    }
  }
}
