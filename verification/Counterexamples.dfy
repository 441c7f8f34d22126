/** Command lines on which a natural promise of the inventory builder fails. */
module Counterexamples {
  import opened Text
  import opened Outcomes
  import opened OrderedDict
  import opened Ranges
  import opened Inventory
  import opened NameLists
  import opened GroupOrder
  import opened BuildLaws
  import opened RoleLaws
  import opened RunLaws
  import opened AddressRuns
  import opened Separation

  function Simple(name: string, ip: string): Entry<string, HostOpts> {
    Entry(name, HostOpts(ip, ip, ip))
  }

  /** A host that is neither there by name nor by address is appended. */
  lemma NewHostAppends(prefix: string, b: Builder, name: string, ip: string)
    requires name != "" && IsAlpha(name[0]) && ',' !in name && ',' !in ip
    requires forall i :: 0 <= i < |b.table| ==> b.table[i].key != name && b.table[i].key != name + [','] + ip
    requires forall i :: 0 <= i < |b.table| ==> b.table[i].value.ip != ip
    ensures Step(prefix, b, name + [','] + ip)
         == Ok(Builder(b.table + [Simple(name, ip)], b.nextId, Some(name), Some(HostOpts(ip, ip, ip))))
  {
    hide Step;
    IndexIs(b.table, name, |b.table|);
    IndexIs(b.table, name + [','] + ip, |b.table|);
    assert !HasIp(b.table, ip);
    NamedAddressMeans(prefix, b, name, ip);
  }

  // ---------- etcd out of order ----------

  const FOUR_HOSTS := Config([Simple("a", "1"), Simple("b", "2"), Simple("c", "3"), Simple("d", "4")],
                             ["a", "b"], ["a", "b", "c", "d"], ["a", "b", "c"], [])

  const SWAPPING_ARGS := ["-c", "-d", "x,5", "d,6"]

  lemma KeysOfFour(w: Entry<string, HostOpts>, x: Entry<string, HostOpts>, y: Entry<string, HostOpts>,
                   z: Entry<string, HostOpts>)
    ensures Keys([w, x, y, z]) == [w.key, x.key, y.key, z.key]
  {
  }

  lemma FourGroups(role: Role)
    ensures Distinct(FOUR_HOSTS.Members(role))
    ensures forall x :: x in FOUR_HOSTS.Members(role) ==> x in FOUR_HOSTS.node
  {
    match role
    case ControlPlane =>
    case Node =>
    case Etcd =>
    case CalicoRr =>
  }

  lemma FourNames()
    ensures Keys(FOUR_HOSTS.hosts) == ["a", "b", "c", "d"] == FOUR_HOSTS.node
    ensures NoRoleNames(FOUR_HOSTS.node)
  {
    hide Keys;
    KeysOfFour(Simple("a", "1"), Simple("b", "2"), Simple("c", "3"), Simple("d", "4"));
    assert forall i :: 0 <= i < 4 ==> |FOUR_HOSTS.node[i]| == 1;
    assert forall r :: r in PROTECTED_NAMES ==> |r| > 1;
  }

  lemma FourEntries()
    ensures Unique(FOUR_HOSTS.hosts) && DistinctIps(FOUR_HOSTS.hosts)
  {
  }

  lemma FourHostsAreSound()
    ensures Keys(FOUR_HOSTS.hosts) == ["a", "b", "c", "d"]
    ensures Sound(FOUR_HOSTS) && EtcdIsPrefix(FOUR_HOSTS)
  {
    hide Keys, Unique, DistinctIps, NoRoleNames, Distinct;
    FourNames();
    FourEntries();
    forall role: Role
      ensures Distinct(FOUR_HOSTS.Members(role)) && forall x :: x in FOUR_HOSTS.Members(role) ==> x in FOUR_HOSTS.node
    {
      FourGroups(role);
    }
    assert FOUR_HOSTS.etcd == FOUR_HOSTS.node[..3];
  }

  lemma NoNodeNumbers(names: seq<string>)
    requires forall i :: 0 <= i < |names| ==> |names[i]| < 4
    ensures HighestId("node", names, 0) == Ok(0)
  {
    if names != [] {
      NoNodeNumbers(names[1..]);
    }
  }

  const AB := [Simple("a", "1"), Simple("b", "2")]

  lemma DeletingSteps(b0: Builder)
    requires b0.table == FOUR_HOSTS.hosts
    ensures Step("node", b0, "-c") == Ok(b0.(table := AB + [Simple("d", "4")]))
    ensures Step("node", b0.(table := AB + [Simple("d", "4")]), "-d") == Ok(b0.(table := AB))
  {
    hide Step;
    assert "-c" == ['-'] + "c" && "-d" == ['-'] + "d";
    DeleteNamed("node", b0, "c", 2);
    assert RemoveAt(b0.table, 2) == AB + [Simple("d", "4")];
    DeleteNamed("node", b0.(table := AB + [Simple("d", "4")]), "d", 2);
    assert RemoveAt(AB + [Simple("d", "4")], 2) == AB;
  }

  lemma AddingSteps(b: Builder, b': Builder)
    requires b.table == AB
    requires b' == Builder(AB + [Simple("x", "5")], b.nextId, Some("x"), Some(HostOpts("5", "5", "5")))
    ensures Step("node", b, "x,5") == Ok(b')
    ensures Step("node", b', "d,6").Ok?
    ensures Step("node", b', "d,6").value.table == AB + [Simple("x", "5")] + [Simple("d", "6")]
  {
    hide Step;
    assert "x,5" == "x" + [','] + "5" && "d,6" == "d" + [','] + "6";
    NewHostAppends("node", b, "x", "5");
    NewHostAppends("node", b', "d", "6");
  }

  lemma SwappingBuild()
    ensures Build("node", FOUR_HOSTS.hosts, SWAPPING_ARGS)
         == Ok([Simple("a", "1"), Simple("b", "2"), Simple("x", "5"), Simple("d", "6")])
  {
    hide Step, Keys, HighestId;
    FourNames();
    NoNodeNumbers(["a", "b", "c", "d"]);
    var b0 := Builder(FOUR_HOSTS.hosts, 1, None, None);
    var b3 := Builder(AB + [Simple("x", "5")], 1, Some("x"), Some(HostOpts("5", "5", "5")));
    DeletingSteps(b0);
    AddingSteps(b0.(table := AB), b3);
    var b4 := Step("node", b3, "d,6").value;
    FourSteps("node", b0, b0.(table := AB + [Simple("d", "4")]), b0.(table := AB), b3, b4, SWAPPING_ARGS);
    assert b4.table == [Simple("a", "1"), Simple("b", "2"), Simple("x", "5"), Simple("d", "6")];
  }

  lemma FourSteps(prefix: string, b0: Builder, b1: Builder, b2: Builder, b3: Builder, b4: Builder, args: seq<string>)
    requires |args| == 4 && Step(prefix, b0, args[0]) == Ok(b1) && Step(prefix, b1, args[1]) == Ok(b2)
    requires Step(prefix, b2, args[2]) == Ok(b3) && Step(prefix, b3, args[3]) == Ok(b4)
    ensures Steps(prefix, b0, args) == Ok(b4)
  {
    hide Step;
    assert args[1..][1..] == args[2..] && args[2..][1..] == args[3..] && args[3..][1..] == [];
    assert Steps(prefix, b3, args[3..]) == Ok(b4);
    assert Steps(prefix, b2, args[2..]) == Ok(b4);
    assert Steps(prefix, b1, args[1..]) == Ok(b4);
  }

  lemma SwappingArgsExpand()
    ensures ExpandAll(SWAPPING_ARGS) == Ok(SWAPPING_ARGS)
  {
    assert SWAPPING_ARGS == ["-c", "-d"] + ["x,5", "d,6"];
    assert SWAPPING_ARGS[2..] == ["x,5", "d,6"];
    ExpandTwo("x,5", "d,6");
    assert ExpandArgument("-d") == Ok(["-d"]) && ExpandArgument("-c") == Ok(["-c"]);
    assert SWAPPING_ARGS[1..][1..] == SWAPPING_ARGS[2..];
    assert ["-d"] + ["x,5", "d,6"] == SWAPPING_ARGS[1..];
    assert ExpandAll(SWAPPING_ARGS[1..]) == Ok(SWAPPING_ARGS[1..]);
    assert ["-c"] + SWAPPING_ARGS[1..] == SWAPPING_ARGS;
  }

  /**
   Deleting `c` and `d` and adding back `d` behind a new host: the first three built hosts hold every surviving
   member, `etcd` has exactly three, and it is still no prefix of the saved hosts, where `d` comes before `x`.
   */
  lemma ReaddingSwapsHosts(s: Settings)
    requires s.hostPrefix == "node"
    ensures Sound(FOUR_HOSTS) && EtcdIsPrefix(FOUR_HOSTS)
    ensures var run := Run(s, Some(FOUR_HOSTS), SWAPPING_ARGS);
      run.Ok? && |run.value.etcd| == 3 && !EtcdIsPrefix(run.value)
  {
    hide Assign, ExpandAll, Build, EtcdIsPrefix, Sound, Keys, Run, KeepsEtcdInFront;
    var built := [Simple("a", "1"), Simple("b", "2"), Simple("x", "5"), Simple("d", "6")];
    FourHostsAreSound();
    SwappingArgsExpand();
    SwappingBuild();
    assert SWAPPING_ARGS[0][0] == '-';
    RunSaves(s, Some(FOUR_HOSTS), SWAPPING_ARGS, FOUR_HOSTS, built);
    SwappedEtcd(s, built);
  }

  lemma SwappedEtcd(s: Settings, built: Table)
    requires built == [Simple("a", "1"), Simple("b", "2"), Simple("x", "5"), Simple("d", "6")]
    ensures |Assign(s, FOUR_HOSTS, built).etcd| == 3 && !EtcdIsPrefix(Assign(s, FOUR_HOSTS, built))
  {
    hide Assign, EtcdIsPrefix, Sound, Keys, SavedOrder, Precedes;
    KeysOfFour(built[0], built[1], built[2], built[3]);
    FourHostsAreSound();
    SoundMeans(FOUR_HOSTS);
    SwappedPair();
    var names := ["a", "b", "x", "d"];
    assert !OrderKept(["a", "b", "c", "d"], ["a", "b", "c"], names, 3);
    assert names[..3] == ["a", "b", "x"];
    ThreeEtcdMembersIff(s, FOUR_HOSTS, built);
    EtcdStaysPrefixIff(s, FOUR_HOSTS, built);
  }

  lemma SoundMeans(c: Config)
    requires Sound(c)
    ensures WellFormed(c) && NoRoleNames(Keys(c.hosts)) && NoRoleNames(c.etcd) && Distinct(c.etcd)
  {
    hide Keys, HostsHoldRoles, DistinctIps, Unique;
    assert c.Members(Etcd) == c.etcd;
  }

  lemma SwappedPair()
    ensures var loaded, built := ["a", "b", "c", "d"], ["a", "b", "x", "d"];
      Precedes(SavedOrder(loaded, built), "d", "x") && !Precedes(built, "d", "x")
      && "x" in built[..3] && "d" in built
  {
    var loaded, built := ["a", "b", "c", "d"], ["a", "b", "x", "d"];
    assert loaded == ["a"] + ["b", "c", "d"];
    var kept, added := Keep(loaded, ToSet(built)), NotIn(built, loaded);
    KeepIn(loaded, ToSet(built), "d");
    KeepIn(loaded, ToSet(built), "x");
    NotInIs(built, loaded, "x");
    BothSides(kept, added, "d", "x");
    assert built[..3][2] == "x" && built[3] == "d";
    assert built[1..] == ["b", "x", "d"] && ["b", "x", "d"][1..] == ["x", "d"] && ["x", "d"][1..] == ["d"];
    assert !Precedes(["d"], "d", "x");
  }

  lemma {:induction false} BothSides(a: seq<string>, b: seq<string>, y: string, x: string)
    requires y in a && x in b
    ensures Precedes(a + b, y, x)
  {
    var s := a + b;
    assert s[0] == a[0] && s[1..] == a[1..] + b;
    if y != a[0] {
      BothSides(a[1..], b, y, x);
    }
  }

  // ---------- roles that do not separate ----------

  /** The host is in every group. */
  ghost predicate HoldsEveryRole(c: Config, x: string) {
    x in c.etcd && x in c.controlPlane && x in c.node && x in c.calicoRr
  }

  /**
   When a small cluster reaches the scale threshold by one more host, its first host is in every group: etcd and
   calico_rr are apart neither from the control plane nor from the nodes.
   */
  lemma GrowingKeepsRolesTogether(s: Settings, c: Config, name: string, ip: string)
    requires Sound(c) && EtcdIsPrefix(c) && ControlPlaneIsFirst(s.controlHosts, c) && NodesAreHosts(c)
    requires c.hosts != [] && c.hosts[0].key != "hosts"
    requires s.controlHosts >= 1 && |c.hosts| + 1 >= s.scale && StartBuilder(s.hostPrefix, c.hosts).Ok?
    requires name != "" && IsAlpha(name[0]) && ',' !in name && ',' !in ip && !IsRange(name + [','] + ip)
    requires forall i :: 0 <= i < |c.hosts| ==> c.hosts[i].key != name && c.hosts[i].key != name + [','] + ip
    requires forall i :: 0 <= i < |c.hosts| ==> c.hosts[i].value.ip != ip
    ensures var run := Run(s, Some(c), ["add"] + [name + [','] + ip]);
      run.Ok? && HoldsEveryRole(run.value, c.hosts[0].key)
      && !Apart(run.value.etcd, run.value.node) && !Apart(run.value.etcd, run.value.controlPlane)
      && !Apart(run.value.calicoRr, run.value.node) && !Apart(run.value.calicoRr, run.value.controlPlane)
  {
    hide Run, Assign, Step, Sound, EtcdIsPrefix, Apart;
    var arg := name + [','] + ip;
    var built := c.hosts + [Simple(name, ip)];
    var b := StartBuilder(s.hostPrefix, c.hosts).value;
    NewHostAppends(s.hostPrefix, b, name, ip);
    assert [arg][1..] == [];
    assert Steps(s.hostPrefix, b, [arg]) == Step(s.hostPrefix, b, arg);
    ExpandAlone(arg);
    AddRunSaves(s, c, [arg], built);
    assert Unique(built) by { SoundMeans(c); }
    FirstHostHoldsEveryRole(s, c, built);
    NotApart(Assign(s, c, built), c.hosts[0].key);
  }

  lemma NotApart(c: Config, x: string)
    requires HoldsEveryRole(c, x)
    ensures !Apart(c.etcd, c.node) && !Apart(c.etcd, c.controlPlane)
    ensures !Apart(c.calicoRr, c.node) && !Apart(c.calicoRr, c.controlPlane)
  {
  }

  lemma SoundIsPlain(c: Config)
    requires Sound(c)
    ensures PlainConfig(c)
  {
    hide Keys, HostsHoldRoles, DistinctIps, Unique, Distinct;
  }

  lemma FirstHostHoldsEveryRole(s: Settings, c: Config, built: Table)
    requires Sound(c) && EtcdIsPrefix(c) && ControlPlaneIsFirst(s.controlHosts, c) && NodesAreHosts(c)
    requires c.hosts != [] && c.hosts[0].key != "hosts" && s.controlHosts >= 1
    requires Unique(built) && c.hosts <= built && |built| >= s.scale
    ensures HoldsEveryRole(Assign(s, c, built), c.hosts[0].key)
  {
    hide Assign, Keys, Sound, Unique, PlainConfig, ControlPlaneHosts, KeptOut;
    var x := c.hosts[0].key;
    SoundIsPlain(c);
    assert Keys(c.hosts)[0] == x && Keys(built)[0] == x;
    assert c.etcd[0] == x && c.controlPlane[0] == x && c.node[0] == x;
    assert FirstBuilt(built)[0] == x;
    MembersAfterRun(s, c, built, x);
  }

  /** In the four-host cluster with a scale threshold of five, one more host is enough. */
  lemma FourHostsGrow(s: Settings)
    requires s.hostPrefix == "node" && s.controlHosts == 2 && s.scale == 5
    ensures var run := Run(s, Some(FOUR_HOSTS), ["add", "x,5"]);
      run.Ok? && HoldsEveryRole(run.value, "a")
  {
    hide Run, Sound, EtcdIsPrefix, Keys, HighestId;
    FourHostsAreSound();
    NoNodeNumbers(["a", "b", "c", "d"]);
    assert "x" + [','] + "5" == "x,5" && ["add"] + ["x,5"] == ["add", "x,5"];
    GrowingKeepsRolesTogether(s, FOUR_HOSTS, "x", "5");
  }

  // ---------- a host named like a role ----------

  /** After `etcd,1` and then `-etcd` the file still has the host, although the second run builds none. */
  lemma RoleNameSurvivesDeletion(s: Settings)
    requires s.hostPrefix == "node"
    ensures var file := FileAfterAll(None, [Invocation(s, ["etcd,1"]), Invocation(s, ["-etcd"])]);
      Build("node", [Simple("etcd", "1")], ["-etcd"]) == Ok([])
      && file.Some? && file.value.hosts == [Simple("etcd", "1")]
  {
    hide Assign, ExpandAll, Build;
    var first, second := Invocation(s, ["etcd,1"]), Invocation(s, ["-etcd"]);
    NamedLikeRole();
    DeletedLikeRole();
    assert forall w :: w in OTHER_COMMANDS ==> w != "etcd,1" && w != "-etcd";
    var c := Assign(s, EMPTY_CONFIG, [Simple("etcd", "1")]);
    assert Run(s, None, first.args) == Ok(c);
    FreshHosts(s, [Simple("etcd", "1")]);
    assert Run(s, Some(c), second.args) == Ok(Assign(s, c, []));
    KeptForever(s, c);
    assert [first, second][1..] == [second] && [second][1..] == [];
    assert FileAfterAll(Some(c), [second]) == Some(Assign(s, c, []));
  }

  lemma NamedLikeRole()
    ensures ExpandAll(["etcd,1"]) == Ok(["etcd,1"])
    ensures Build("node", [], ["etcd,1"]) == Ok([Simple("etcd", "1")])
  {
    hide Step;
    ExpandAlone("etcd,1");
    var b := Builder([], 1, None, None);
    assert "etcd,1" == "etcd" + [','] + "1";
    NewHostAppends("node", b, "etcd", "1");
    assert [] + [Simple("etcd", "1")] == [Simple("etcd", "1")] && ["etcd,1"][1..] == [];
  }

  lemma ExpandAlone(a: string)
    requires !IsRange(a)
    ensures ExpandAll([a]) == Ok([a])
  {
    assert [a][1..] == [] && [a] + [] == [a];
  }

  lemma DeletedLikeRole()
    ensures ExpandAll(["-etcd"]) == Ok(["-etcd"])
    ensures Build("node", [Simple("etcd", "1")], ["-etcd"]) == Ok([])
  {
    hide Step, HighestId, Keys;
    ExpandAlone("-etcd");
    var t := [Simple("etcd", "1")];
    var b := Builder(t, 1, None, None);
    NoNumberInEtcd();
    assert "-etcd" == ['-'] + "etcd";
    DeleteNamed("node", b, "etcd", 0);
    assert RemoveAt(t, 0) == [] && ["-etcd"][1..] == [];
  }

  lemma NoNumberInEtcd()
    ensures HighestId("node", Keys([Simple("etcd", "1")]), 0) == Ok(0)
  {
    assert Keys([Simple("etcd", "1")]) == ["etcd"];
    assert "node"[0] != "etcd"[0] && ["etcd"][1..] == [];
  }

  lemma KeptForever(s: Settings, c: Config)
    requires c.hosts == [Simple("etcd", "1")]
    ensures Assign(s, c, []).hosts == c.hosts
  {
    SavedHosts(s, c, []);
    assert "etcd" in Allowed([]);
    assert c.hosts[1..] == [];
  }
}
