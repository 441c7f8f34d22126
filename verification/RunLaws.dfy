/** Invariants over whole sequences of invocations, each starting from the file the previous one left. */
module RunLaws {
  import opened Text
  import opened Outcomes
  import opened OrderedDict
  import opened Ranges
  import opened Inventory
  import opened NameLists
  import opened GroupOrder
  import opened BuildLaws
  import opened RoleLaws

  // ---------- the parts of a run that saves ----------

  ghost function StartOf(file: Option<Config>, args: seq<string>): Config
    requires Loaded(file, args).Ok?
  {
    Loaded(file, args).value
  }

  ghost function HostsOf(args: seq<string>): seq<string>
    requires ExpandAll(ChangedHosts(args)).Ok?
  {
    ExpandAll(ChangedHosts(args)).value
  }

  ghost function BuilderOf(s: Settings, file: Option<Config>, args: seq<string>): Builder
    requires Run(s, file, args).Ok?
  {
    StartBuilder(s.hostPrefix, StartOf(file, args).hosts).value
  }

  ghost function BuiltOf(s: Settings, file: Option<Config>, args: seq<string>): Table
    requires Run(s, file, args).Ok?
  {
    Build(s.hostPrefix, StartOf(file, args).hosts, HostsOf(args)).value
  }

  lemma RunParts(s: Settings, file: Option<Config>, args: seq<string>)
    requires Run(s, file, args).Ok?
    ensures Loaded(file, args).Ok? && ExpandAll(ChangedHosts(args)).Ok?
    ensures Run(s, file, args).value == Assign(s, StartOf(file, args), BuiltOf(s, file, args))
    ensures StartOf(file, args) == EMPTY_CONFIG || (file.Some? && StartOf(file, args) == file.value)
    ensures Steps(s.hostPrefix, BuilderOf(s, file, args), HostsOf(args)).Ok?
    ensures BuiltOf(s, file, args) == Steps(s.hostPrefix, BuilderOf(s, file, args), HostsOf(args)).value.table
    ensures BuilderOf(s, file, args).table == StartOf(file, args).hosts
  {
  }

  lemma NotACommand(arg: string)
    requires arg != "" && !IsAlpha(arg[0])
    ensures arg !in OTHER_COMMANDS && arg != "add"
  {
    forall w | w in OTHER_COMMANDS ensures w != "" && IsAlpha(w[0]) {
    }
  }

  lemma RunSaves(s: Settings, file: Option<Config>, args: seq<string>, start: Config, built: Table)
    requires args != [] && args[0] != "" && !IsAlpha(args[0][0])
    requires start == if args[0][0] == '-' && file.Some? then file.value else EMPTY_CONFIG
    requires args[0][0] == '-' ==> file.Some?
    requires ExpandAll(args).Ok? && Build(s.hostPrefix, start.hosts, ExpandAll(args).value) == Ok(built)
    ensures Run(s, file, args) == Ok(Assign(s, start, built))
  {
    NotACommand(args[0]);
  }

  // ---------- host names that are not role names ----------

  ghost function RoleNames(): iset<string> {
    iset n: string | n in PROTECTED_NAMES
  }

  lemma GeneratedIsNoRole(prefix: string, id: nat)
    ensures GeneratedName(prefix, id) !in PROTECTED_NAMES
  {
    var name := GeneratedName(prefix, id);
    assert name[|name| - 1] == ToDecimal(id)[|ToDecimal(id)| - 1];
    assert IsDigit(name[|name| - 1]);
    forall r | r in PROTECTED_NAMES ensures r != "" && !IsDigit(r[|r| - 1]) {
    }
  }

  lemma RangeGivesNoNames(lo: nat, hi: nat, forbidden: iset<string>)
    requires lo < ADDRESSES && hi < ADDRESSES
    ensures NamesAvoid(IpRange(lo, hi), forbidden)
  {
    var ips := IpRange(lo, hi);
    forall i | 0 <= i < |ips| ensures ips[i] != "" && !IsAlpha(ips[i][0]) {
      PrintedAddressShape(lo + i);
      assert ips[i] == PrintIp(lo + i);
    }
  }

  lemma ExpandOneAvoids(arg: string, forbidden: iset<string>)
    requires ExpandArgument(arg).Ok? && NamesAvoid([arg], forbidden)
    ensures NamesAvoid(ExpandArgument(arg).value, forbidden)
  {
    if IsRange(arg) {
      var ends := Split(Strip(arg), '-');
      RangeGivesNoNames(ParseIp(ends[0]).value, ParseIp(ends[1]).value, forbidden);
    }
  }

  lemma NamesAvoidAppend(a: seq<string>, b: seq<string>, forbidden: iset<string>)
    ensures NamesAvoid(a + b, forbidden) <==> NamesAvoid(a, forbidden) && NamesAvoid(b, forbidden)
  {
    assert forall i :: 0 <= i < |a| ==> (a + b)[i] == a[i];
    assert forall i :: 0 <= i < |b| ==> (a + b)[|a| + i] == b[i];
  }

  lemma {:induction false} ExpandAvoids(args: seq<string>, forbidden: iset<string>)
    requires ExpandAll(args).Ok? && NamesAvoid(args, forbidden)
    ensures NamesAvoid(ExpandAll(args).value, forbidden)
  {
    if args != [] {
      assert args == [args[0]] + args[1..];
      NamesAvoidAppend([args[0]], args[1..], forbidden);
      ExpandOneAvoids(args[0], forbidden);
      ExpandAvoids(args[1..], forbidden);
      NamesAvoidAppend(ExpandArgument(args[0]).value, ExpandAll(args[1..]).value, forbidden);
    }
  }

  lemma BuiltHasNoRoleNames(s: Settings, file: Option<Config>, args: seq<string>)
    requires Run(s, file, args).Ok? && NamesAvoid(ChangedHosts(args), RoleNames())
    requires NoRoleNames(Keys(StartOf(file, args).hosts))
    ensures NoRoleNames(Keys(BuiltOf(s, file, args)))
  {
    RunParts(s, file, args);
    ExpandAvoids(ChangedHosts(args), RoleNames());
    forall id: nat ensures GeneratedName(s.hostPrefix, id) !in RoleNames() {
      GeneratedIsNoRole(s.hostPrefix, id);
    }
    BuildAvoids(s.hostPrefix, BuilderOf(s, file, args), HostsOf(args), RoleNames());
  }

  // ---------- what every run keeps ----------

  ghost predicate RolesHoldHosts(c: Config) {
    forall role: Role, x :: x in c.Members(role) ==> x in Keys(c.hosts)
  }

  ghost predicate HostsHoldRoles(c: Config) {
    forall x :: x in Keys(c.hosts) ==> x in c.etcd || x in c.controlPlane || x in c.node
  }

  /** Unique names and addresses; roles hold only hosts, and each host holds a role. */
  ghost predicate Sound(c: Config) {
    WellFormed(c) && DistinctIps(c.hosts) && NoRoleNames(Keys(c.hosts)) && RolesHoldHosts(c) && HostsHoldRoles(c)
  }

  ghost predicate AvoidsRoleNames(runs: seq<Invocation>) {
    forall i :: 0 <= i < |runs| ==> NamesAvoid(ChangedHosts(runs[i].args), RoleNames())
  }

  /** The saved hosts are the built ones, perhaps in another order, so their addresses stay distinct. */
  lemma SavedAddressesDistinct(s: Settings, c: Config, built: Table)
    requires Unique(c.hosts) && NoRoleNames(Keys(c.hosts)) && Unique(built) && DistinctIps(built)
    ensures DistinctIps(Assign(s, c, built).hosts)
  {
    hide Assign, Keys, SavedOrder;
    SavedTable(s, c, built);
    var saved := Assign(s, c, built).hosts;
    forall i, j | 0 <= i < j < |saved| ensures saved[i].value.ip != saved[j].value.ip {
      assert saved[i] in saved && saved[j] in saved;
      var m :| 0 <= m < |built| && built[m] == saved[i];
      var n :| 0 <= n < |built| && built[n] == saved[j];
      assert m != n;
    }
  }

  lemma EmptyIsSound()
    ensures Sound(EMPTY_CONFIG)
  {
  }

  lemma RunKeepsSound(s: Settings, file: Option<Config>, args: seq<string>)
    requires file.Some? ==> Sound(file.value)
    requires Run(s, file, args).Ok? && NamesAvoid(ChangedHosts(args), RoleNames())
    ensures Sound(Run(s, file, args).value)
  {
    var c, built := StartOf(file, args), BuiltOf(s, file, args);
    RunParts(s, file, args);
    EmptyIsSound();
    BuildKeepsDistinctAddresses(s.hostPrefix, BuilderOf(s, file, args), HostsOf(args));
    BuiltHasNoRoleNames(s, file, args);
    AssignKeepsWellFormed(s, c, built);
    SavedAddressesDistinct(s, c, built);
    SavedNamesAreBuiltNames(s, c, built);
    RolesCoverHosts(s, c, built);
  }

  /** Whatever is run, in whatever order, under whatever settings, as long as no host is given a role's name. */
  lemma {:induction false} EveryRunIsSound(file: Option<Config>, runs: seq<Invocation>)
    requires file.Some? ==> Sound(file.value)
    requires AvoidsRoleNames(runs)
    ensures FileAfterAll(file, runs).Some? ==> Sound(FileAfterAll(file, runs).value)
    decreases |runs|
  {
    hide Sound, Run, NamesAvoid;
    if runs != [] {
      var s, args := runs[0].settings, runs[0].args;
      if Run(s, file, args).Ok? {
        RunKeepsSound(s, file, args);
      }
      EveryRunIsSound(FileAfter(s, file, args), runs[1..]);
    }
  }

  /** The saved hosts of a run are the built ones, and surviving hosts keep all their roles. */
  lemma RunSavesBuiltHosts(s: Settings, file: Option<Config>, args: seq<string>)
    requires file.Some? ==> Sound(file.value)
    requires Run(s, file, args).Ok? && NamesAvoid(ChangedHosts(args), RoleNames())
    ensures var saved := Run(s, file, args).value;
      (forall x :: x in Keys(saved.hosts) <==> x in Keys(BuiltOf(s, file, args)))
      && (forall role: Role, x :: x in StartOf(file, args).Members(role) && x in Keys(saved.hosts)
           ==> x in saved.Members(role))
  {
    RunParts(s, file, args);
    EmptyIsSound();
    SavedNamesAreBuiltNames(s, StartOf(file, args), BuiltOf(s, file, args));
    RolesCoverHosts(s, StartOf(file, args), BuiltOf(s, file, args));
  }

  // ---------- what every run keeps that does not re-add a deleted name ----------

  /** If this run saves, it gives no host a role's name and adds back nothing it deleted. */
  ghost predicate Careful(s: Settings, file: Option<Config>, args: seq<string>) {
    Run(s, file, args).Ok? ==>
      NamesAvoid(ChangedHosts(args), RoleNames())
      && NeverReadds(s.hostPrefix, Keys(StartOf(file, args).hosts), BuilderOf(s, file, args), HostsOf(args))
  }

  ghost predicate AllCareful(file: Option<Config>, runs: seq<Invocation>)
    decreases |runs|
  {
    runs != [] ==>
      Careful(runs[0].settings, file, runs[0].args)
      && AllCareful(FileAfter(runs[0].settings, file, runs[0].args), runs[1..])
  }

  lemma RunStartsSound(s: Settings, file: Option<Config>, args: seq<string>)
    requires file.Some? ==> Sound(file.value)
    requires Run(s, file, args).Ok?
    ensures Sound(StartOf(file, args)) && Unique(BuiltOf(s, file, args))
  {
    RunParts(s, file, args);
    EmptyIsSound();
    BuildKeepsDistinctAddresses(s.hostPrefix, BuilderOf(s, file, args), HostsOf(args));
  }

  lemma CarefulRunBuildsInOrder(s: Settings, file: Option<Config>, args: seq<string>)
    requires file.Some? ==> Sound(file.value)
    requires Run(s, file, args).Ok? && Careful(s, file, args)
    ensures InOrder(Keys(StartOf(file, args).hosts), Keys(BuiltOf(s, file, args)))
  {
    hide Run, Keys, Build, Steps, NeverReadds, InOrder;
    RunParts(s, file, args);
    var c := StartOf(file, args);
    RunStartsSound(s, file, args);
    InOrderRefl(Keys(c.hosts));
    BuildInOrder(s.hostPrefix, Keys(c.hosts), BuilderOf(s, file, args), HostsOf(args));
  }

  // ---------- etcd over runs ----------

  /** The condition of one run under which `etcd` stays a prefix of the hosts. */
  ghost predicate RunKeepsEtcdInFront(s: Settings, file: Option<Config>, args: seq<string>) {
    Run(s, file, args).Ok? ==> KeepsEtcdInFront(StartOf(file, args), BuiltOf(s, file, args))
  }

  ghost predicate FileHasEtcdPrefix(file: Option<Config>) {
    file.Some? ==> EtcdIsPrefix(file.value)
  }

  /** After one run `etcd` is again a prefix of the saved hosts if and only if the built table keeps it in front. */
  lemma EtcdPrefixAfterRunIff(s: Settings, file: Option<Config>, args: seq<string>)
    requires file.Some? ==> Sound(file.value)
    requires FileHasEtcdPrefix(file)
    ensures FileHasEtcdPrefix(FileAfter(s, file, args)) <==> RunKeepsEtcdInFront(s, file, args)
  {
    hide Run, Assign, Build, KeepsEtcdInFront, EtcdIsPrefix;
    if Run(s, file, args).Ok? {
      RunParts(s, file, args);
      RunStartsSound(s, file, args);
      EmptyHasEtcdPrefix();
      EtcdStaysPrefixIff(s, StartOf(file, args), BuiltOf(s, file, args));
    }
  }

  lemma EmptyHasEtcdPrefix()
    ensures EtcdIsPrefix(EMPTY_CONFIG)
  {
  }

  /** `etcd` is a prefix of the hosts now and after every run. */
  ghost predicate AlwaysEtcdPrefix(file: Option<Config>, runs: seq<Invocation>)
    decreases |runs|
  {
    FileHasEtcdPrefix(file)
    && (runs != [] ==> AlwaysEtcdPrefix(FileAfter(runs[0].settings, file, runs[0].args), runs[1..]))
  }

  ghost predicate AllKeepEtcdInFront(file: Option<Config>, runs: seq<Invocation>)
    decreases |runs|
  {
    runs != [] ==>
      RunKeepsEtcdInFront(runs[0].settings, file, runs[0].args)
      && AllKeepEtcdInFront(FileAfter(runs[0].settings, file, runs[0].args), runs[1..])
  }

  /**
   Over every sequence of runs, fresh, adding or deleting: `etcd` is a prefix of the host list after every one of
   them, three members when there are three hosts or more, never more, never empty, if and only if every single
   run keeps it in front.
   */
  lemma {:induction false} EtcdAlwaysPrefixIff(file: Option<Config>, runs: seq<Invocation>)
    requires file.Some? ==> Sound(file.value)
    requires FileHasEtcdPrefix(file) && AvoidsRoleNames(runs)
    ensures AlwaysEtcdPrefix(file, runs) <==> AllKeepEtcdInFront(file, runs)
    decreases |runs|
  {
    hide Sound, Run, NamesAvoid, FileHasEtcdPrefix, RunKeepsEtcdInFront;
    if runs != [] {
      var s, args := runs[0].settings, runs[0].args;
      var next := FileAfter(s, file, args);
      EtcdPrefixAfterRunIff(s, file, args);
      if Run(s, file, args).Ok? {
        RunKeepsSound(s, file, args);
      }
      if FileHasEtcdPrefix(next) {
        EtcdAlwaysPrefixIff(next, runs[1..]);
      } else {
        NotAlways(next, runs[1..]);
      }
    }
  }

  lemma NotAlways(file: Option<Config>, runs: seq<Invocation>)
    requires !FileHasEtcdPrefix(file)
    ensures !AlwaysEtcdPrefix(file, runs)
  {
  }

  lemma CarefulKeepsEtcdInFront(s: Settings, file: Option<Config>, args: seq<string>)
    requires file.Some? ==> Sound(file.value)
    requires FileHasEtcdPrefix(file) && Careful(s, file, args)
    ensures RunKeepsEtcdInFront(s, file, args)
  {
    hide Run, Build, KeepsEtcdInFront, EtcdIsPrefix, InOrder;
    if Run(s, file, args).Ok? {
      RunParts(s, file, args);
      RunStartsSound(s, file, args);
      CarefulRunBuildsInOrder(s, file, args);
      EmptyHasEtcdPrefix();
      OrderedBuildKeepsEtcdInFront(StartOf(file, args), BuiltOf(s, file, args));
    }
  }

  /**
   Over every sequence of careful runs, fresh, adding or deleting, `etcd` is a prefix of the host list: three
   members when there are three hosts or more, never more than three, at least one when there is a host.
   */
  lemma {:induction false} EtcdPrefixOverRuns(file: Option<Config>, runs: seq<Invocation>)
    requires file.Some? ==> Sound(file.value) && EtcdIsPrefix(file.value)
    requires AllCareful(file, runs)
    ensures var last := FileAfterAll(file, runs); last.Some? ==> Sound(last.value) && EtcdIsPrefix(last.value)
    decreases |runs|
  {
    hide Sound, Run, EtcdIsPrefix, RunKeepsEtcdInFront, NamesAvoid, NeverReadds;
    if runs != [] {
      var s, args := runs[0].settings, runs[0].args;
      CarefulKeepsEtcdInFront(s, file, args);
      EtcdPrefixAfterRunIff(s, file, args);
      if Run(s, file, args).Ok? {
        RunKeepsSound(s, file, args);
      }
      EtcdPrefixOverRuns(FileAfter(s, file, args), runs[1..]);
    }
  }

  // ---------- control plane and nodes over runs ----------

  /** The cluster is below the scale threshold after every run. */
  ghost predicate AllBelowScale(file: Option<Config>, runs: seq<Invocation>)
    decreases |runs|
  {
    runs != [] ==>
      var s, args := runs[0].settings, runs[0].args;
      (Run(s, file, args).Ok? ==> |Run(s, file, args).value.hosts| < s.scale)
      && AllBelowScale(FileAfter(s, file, args), runs[1..])
  }

  /** And below the massive threshold as well. */
  ghost predicate AllSmall(file: Option<Config>, runs: seq<Invocation>)
    decreases |runs|
  {
    runs != [] ==>
      var s, args := runs[0].settings, runs[0].args;
      (Run(s, file, args).Ok? ==> SmallCluster(s, |Run(s, file, args).value.hosts|))
      && AllSmall(FileAfter(s, file, args), runs[1..])
  }

  lemma EmptyHasFlatRoles(k: nat)
    ensures NodesAreHosts(EMPTY_CONFIG) && ControlPlaneIsFirst(k, EMPTY_CONFIG)
  {
  }

  lemma SavedAsManyAsBuilt(s: Settings, file: Option<Config>, args: seq<string>)
    requires file.Some? ==> Sound(file.value)
    requires Run(s, file, args).Ok?
    ensures |Run(s, file, args).value.hosts| == |BuiltOf(s, file, args)|
  {
    hide Run, Assign, Build, Keys, SavedOrder;
    RunParts(s, file, args);
    RunStartsSound(s, file, args);
    SavedTable(s, StartOf(file, args), BuiltOf(s, file, args));
  }

  lemma RunKeepsNodes(s: Settings, file: Option<Config>, args: seq<string>)
    requires file.Some? ==> Sound(file.value) && NodesAreHosts(file.value)
    requires Run(s, file, args).Ok? && SmallCluster(s, |Run(s, file, args).value.hosts|)
    ensures NodesAreHosts(Run(s, file, args).value)
  {
    hide Run, Assign, Build, NodesAreHosts;
    RunParts(s, file, args);
    RunStartsSound(s, file, args);
    SavedAsManyAsBuilt(s, file, args);
    EmptyHasFlatRoles(0);
    NodesStayHosts(s, StartOf(file, args), BuiltOf(s, file, args));
  }

  /** Over every sequence of runs below both thresholds, the nodes are exactly all hosts, in the order of the hosts. */
  lemma {:induction false} NodesOverRuns(file: Option<Config>, runs: seq<Invocation>)
    requires file.Some? ==> Sound(file.value) && NodesAreHosts(file.value)
    requires AvoidsRoleNames(runs) && AllSmall(file, runs)
    ensures var last := FileAfterAll(file, runs); last.Some? ==> NodesAreHosts(last.value)
    decreases |runs|
  {
    hide Sound, Run, NamesAvoid, NodesAreHosts, SmallCluster;
    if runs != [] {
      var s, args := runs[0].settings, runs[0].args;
      if Run(s, file, args).Ok? {
        RunKeepsSound(s, file, args);
        RunKeepsNodes(s, file, args);
      }
      NodesOverRuns(FileAfter(s, file, args), runs[1..]);
    }
  }

  /** The condition of one run under which the control plane stays the first hosts. */
  ghost predicate RunKeepsControlPlane(s: Settings, file: Option<Config>, args: seq<string>) {
    Run(s, file, args).Ok? ==>
      var c, built := StartOf(file, args), BuiltOf(s, file, args);
      StaysInFront(Keys(c.hosts), c.controlPlane, Keys(built), Min(s.controlHosts, |built|))
  }

  /** Below the scale threshold, the control plane is again the first hosts after a run iff that keeps it in front. */
  lemma ControlPlaneAfterRunIff(s: Settings, file: Option<Config>, args: seq<string>)
    requires file.Some? ==> Sound(file.value) && ControlPlaneIsFirst(s.controlHosts, file.value)
    requires Run(s, file, args).Ok? && |Run(s, file, args).value.hosts| < s.scale
    ensures ControlPlaneIsFirst(s.controlHosts, Run(s, file, args).value) <==> RunKeepsControlPlane(s, file, args)
  {
    hide Run, Assign, Build, ControlPlaneIsFirst, StaysInFront, Keys;
    RunParts(s, file, args);
    RunStartsSound(s, file, args);
    SavedAsManyAsBuilt(s, file, args);
    EmptyHasFlatRoles(s.controlHosts);
    ControlPlaneStaysFirstIff(s, StartOf(file, args), BuiltOf(s, file, args));
  }

  lemma CarefulKeepsControlPlane(s: Settings, file: Option<Config>, args: seq<string>)
    requires file.Some? ==> Sound(file.value) && ControlPlaneIsFirst(s.controlHosts, file.value)
    requires Run(s, file, args).Ok? && Careful(s, file, args)
    ensures RunKeepsControlPlane(s, file, args)
  {
    hide Run, Build, ControlPlaneIsFirst, StaysInFront, Keys, InOrder;
    RunParts(s, file, args);
    RunStartsSound(s, file, args);
    CarefulRunBuildsInOrder(s, file, args);
    EmptyHasFlatRoles(s.controlHosts);
    OrderedBuildKeepsControlPlane(s, StartOf(file, args), BuiltOf(s, file, args));
  }

  ghost predicate AllControl(k: nat, runs: seq<Invocation>) {
    forall i :: 0 <= i < |runs| ==> runs[i].settings.controlHosts == k
  }

  ghost predicate FileHasControlPlaneFirst(file: Option<Config>, k: nat) {
    file.Some? ==> ControlPlaneIsFirst(k, file.value)
  }

  /** The control plane is the first `k` hosts now and after every run. */
  ghost predicate AlwaysControlPlaneFirst(file: Option<Config>, runs: seq<Invocation>, k: nat)
    decreases |runs|
  {
    FileHasControlPlaneFirst(file, k)
    && (runs != [] ==> AlwaysControlPlaneFirst(FileAfter(runs[0].settings, file, runs[0].args), runs[1..], k))
  }

  ghost predicate AllKeepControlPlane(file: Option<Config>, runs: seq<Invocation>)
    decreases |runs|
  {
    runs != [] ==>
      RunKeepsControlPlane(runs[0].settings, file, runs[0].args)
      && AllKeepControlPlane(FileAfter(runs[0].settings, file, runs[0].args), runs[1..])
  }

  lemma FileControlPlaneIff(s: Settings, file: Option<Config>, args: seq<string>)
    requires file.Some? ==> Sound(file.value)
    requires FileHasControlPlaneFirst(file, s.controlHosts)
    requires Run(s, file, args).Ok? ==> |Run(s, file, args).value.hosts| < s.scale
    ensures FileHasControlPlaneFirst(FileAfter(s, file, args), s.controlHosts) <==> RunKeepsControlPlane(s, file, args)
  {
    hide Run, Sound, ControlPlaneIsFirst, RunKeepsControlPlane;
    if Run(s, file, args).Ok? {
      ControlPlaneAfterRunIff(s, file, args);
    } else {
      IdleKeepsControlPlane(s, file, args);
    }
  }

  lemma IdleKeepsControlPlane(s: Settings, file: Option<Config>, args: seq<string>)
    requires !Run(s, file, args).Ok?
    ensures RunKeepsControlPlane(s, file, args)
  {
  }

  lemma NotAlwaysFirst(file: Option<Config>, runs: seq<Invocation>, k: nat)
    requires !FileHasControlPlaneFirst(file, k)
    ensures !AlwaysControlPlaneFirst(file, runs, k)
  {
  }

  /**
   Over every sequence of runs below the scale threshold that ask for `k` control-plane hosts: the control plane is
   exactly the first `k` hosts after every one of them if and only if every single run keeps it in front.
   */
  lemma {:induction false} ControlPlaneAlwaysFirstIff(file: Option<Config>, runs: seq<Invocation>, k: nat)
    requires file.Some? ==> Sound(file.value)
    requires FileHasControlPlaneFirst(file, k) && AvoidsRoleNames(runs)
    requires AllBelowScale(file, runs) && AllControl(k, runs)
    ensures AlwaysControlPlaneFirst(file, runs, k) <==> AllKeepControlPlane(file, runs)
    decreases |runs|
  {
    hide Sound, Run, NamesAvoid, FileHasControlPlaneFirst, RunKeepsControlPlane;
    if runs != [] {
      var s, args := runs[0].settings, runs[0].args;
      var next := FileAfter(s, file, args);
      FileControlPlaneIff(s, file, args);
      if Run(s, file, args).Ok? {
        RunKeepsSound(s, file, args);
      }
      if FileHasControlPlaneFirst(next, k) {
        ControlPlaneAlwaysFirstIff(next, runs[1..], k);
      } else {
        NotAlwaysFirst(next, runs[1..], k);
      }
    }
  }

  /**
   Over every sequence of careful runs below the scale threshold that ask for `k` control-plane hosts, the control
   plane is exactly the first `k` hosts, although groups are only added to and purged.
   */
  lemma {:induction false} ControlPlaneOverRuns(file: Option<Config>, runs: seq<Invocation>, k: nat)
    requires file.Some? ==> Sound(file.value) && ControlPlaneIsFirst(k, file.value)
    requires AllCareful(file, runs) && AllBelowScale(file, runs) && AllControl(k, runs)
    ensures var last := FileAfterAll(file, runs); last.Some? ==> ControlPlaneIsFirst(k, last.value)
    decreases |runs|
  {
    hide Sound, Run, NamesAvoid, NeverReadds, ControlPlaneIsFirst, RunKeepsControlPlane;
    if runs != [] {
      var s, args := runs[0].settings, runs[0].args;
      if Run(s, file, args).Ok? {
        RunKeepsSound(s, file, args);
        CarefulKeepsControlPlane(s, file, args);
        ControlPlaneAfterRunIff(s, file, args);
      }
      ControlPlaneOverRuns(FileAfter(s, file, args), runs[1..], k);
    }
  }

  // ---------- re-adding breaks the etcd prefix and the control plane ----------

  lemma DeleteThenReadd(prefix: string, t: Table, ip: string)
    requires t != [] && StartBuilder(prefix, t).Ok? && Unique(t)
    requires t[0].key != "" && IsAlpha(t[0].key[0]) && ',' !in t[0].key && ',' !in ip
    requires !HasIp(t[1..], ip) && !Has(t, t[0].key + [','] + ip)
    ensures Build(prefix, t, [['-'] + t[0].key, t[0].key + [','] + ip])
         == Ok(t[1..] + [Entry(t[0].key, HostOpts(ip, ip, ip))])
  {
    hide Split, Keys, HasIp, Step;
    var k := t[0].key;
    var first, second := ['-'] + k, k + [','] + ip;
    var b := StartBuilder(prefix, t).value;
    DeleteNamed(prefix, b, k, 0);
    assert RemoveAt(t, 0) == t[1..];
    var b' := b.(table := t[1..]);
    ReaddMoved(prefix, b', t, ip);
    var opts := HostOpts(ip, ip, ip);
    var b2 := Builder(t[1..] + [Entry(k, opts)], b.nextId, Some(k), Some(opts));
    assert [first, second][1..] == [second] && [second][1..] == [];
    assert Steps(prefix, b', [second]) == Steps(prefix, b2, []);
  }

  lemma DeleteNamed(prefix: string, b: Builder, name: string, i: nat)
    requires Unique(b.table) && i < |b.table| && b.table[i].key == name
    ensures Step(prefix, b, ['-'] + name) == Ok(b.(table := RemoveAt(b.table, i)))
  {
    assert (['-'] + name)[1..] == name;
    IndexIs(b.table, name, i);
  }

  lemma ReaddMoved(prefix: string, b: Builder, t: Table, ip: string)
    requires t != [] && Unique(t) && b.table == t[1..]
    requires var k := t[0].key;
      k != "" && IsAlpha(k[0]) && ',' !in k && ',' !in ip && !Has(t, k + [','] + ip) && !HasIp(t[1..], ip)
    ensures var k, opts := t[0].key, HostOpts(ip, ip, ip);
      Step(prefix, b, k + [','] + ip) == Ok(Builder(t[1..] + [Entry(k, opts)], b.nextId, Some(k), Some(opts)))
  {
    hide Step, HasIp;
    var k := t[0].key;
    var arg := k + [','] + ip;
    assert IndexOf(t, arg) == |t|;
    forall j | 0 <= j < |t[1..]| ensures t[1..][j].key != arg && t[1..][j].key != k {
      assert t[1..][j] == t[j + 1];
    }
    IndexIs(t[1..], arg, |t| - 1);
    IndexIs(t[1..], k, |t| - 1);
    NamedAddressMeans(prefix, b, k, ip);
  }

  lemma ExpandTwo(a: string, b: string)
    requires !IsRange(a) && !IsRange(b)
    ensures ExpandAll([a, b]) == Ok([a, b])
  {
    assert [a, b][1..] == [b] && [b][1..] == [];
    assert ExpandAll([b]) == Ok([b] + []);
    assert [a] + [b] == [a, b] && [b] + [] == [b];
  }

  /** Moving the first host to the end puts it outside the first three. */
  lemma MovedToTheEnd(t: Table, o: HostOpts)
    requires Unique(t) && |t| >= 4
    ensures var k := t[0].key;
      var built := t[1..] + [Entry(k, o)];
      Unique(built) && k == Keys(t)[0] && k in Keys(built) && k !in Keys(built)[..3]
  {
    var k := t[0].key;
    var built := t[1..] + [Entry(k, o)];
    hide Keys;
    assert Keys(built)[|built| - 1] == built[|built| - 1].key == k;
    MovedIsUnique(t, o);
    forall i | 0 <= i < 3 ensures Keys(built)[..3][i] != k {
      assert Keys(built)[..3][i] == built[i].key;
    }
  }

  lemma MovedIsUnique(t: Table, o: HostOpts)
    requires Unique(t) && t != []
    ensures var built := t[1..] + [Entry(t[0].key, o)];
      Unique(built) && forall i :: 0 <= i < |t| - 1 ==> built[i].key != t[0].key
  {
    var built := t[1..] + [Entry(t[0].key, o)];
    assert forall i :: 0 <= i < |t| - 1 ==> built[i] == t[i + 1];
  }

  /**
   From any inventory of four hosts or more that satisfies every invariant above, deleting the first host and
   adding it back by name in one run saves more than three etcd members.
   */
  lemma ReaddingAnEtcdHostExceedsThree(s: Settings, c: Config, ip: string)
    requires Sound(c) && EtcdIsPrefix(c) && |c.hosts| >= 4
    requires StartBuilder(s.hostPrefix, c.hosts).Ok?
    requires var k := c.hosts[0].key;
      k != "" && IsAlpha(k[0]) && ',' !in k && ',' !in ip && !Has(c.hosts, k + [','] + ip)
    requires !HasIp(c.hosts[1..], ip)
    ensures var k := c.hosts[0].key;
      var run := Run(s, Some(c), [['-'] + k, k + [','] + ip]);
      run.Ok? && |run.value.etcd| > 3
  {
    var k, o := c.hosts[0].key, HostOpts(ip, ip, ip);
    var built := c.hosts[1..] + [Entry(k, o)];
    ReaddingRunSaves(s, c, ip);
    MovedToTheEnd(c.hosts, o);
    assert k == c.etcd[0];
    assert c.Members(Etcd) == c.etcd;
    assert forall x :: x in c.etcd ==> x in Keys(c.hosts);
    ThreeEtcdMembersIff(s, c, built);
  }

  /**
   In the same way the first control-plane host keeps its role behind the first hosts, so that the control plane is
   no longer made of these.
   */
  lemma ReaddingDisplacesControlPlane(s: Settings, c: Config, ip: string)
    requires Sound(c) && ControlPlaneIsFirst(s.controlHosts, c) && 1 <= s.controlHosts < |c.hosts| < s.scale
    requires StartBuilder(s.hostPrefix, c.hosts).Ok?
    requires var k := c.hosts[0].key;
      k != "" && IsAlpha(k[0]) && ',' !in k && ',' !in ip && !Has(c.hosts, k + [','] + ip)
    requires !HasIp(c.hosts[1..], ip)
    ensures var k := c.hosts[0].key;
      var run := Run(s, Some(c), [['-'] + k, k + [','] + ip]);
      run.Ok? && !ControlPlaneIsFirst(s.controlHosts, run.value)
  {
    hide Run, Assign, Keys, Unique, DistinctIps, HostsHoldRoles, RolesHoldHosts, OrderKept;
    var k, o := c.hosts[0].key, HostOpts(ip, ip, ip);
    var built := c.hosts[1..] + [Entry(k, o)];
    ReaddingRunSaves(s, c, ip);
    MovedIsUnique(c.hosts, o);
    assert Keys(built)[|built| - 1] == k && Keys(c.hosts)[0] == c.controlPlane[0] == k;
    forall i | 0 <= i < s.controlHosts ensures Keys(built)[..s.controlHosts][i] != k {
      assert Keys(built)[..s.controlHosts][i] == built[i].key;
    }
    assert Min(s.controlHosts, |built|) == s.controlHosts;
    assert k in c.controlPlane && k in Keys(built) && k !in Keys(built)[..s.controlHosts];
    ControlPlaneStaysFirstIff(s, c, built);
  }

  lemma ReaddingRunSaves(s: Settings, c: Config, ip: string)
    requires c.hosts != [] && StartBuilder(s.hostPrefix, c.hosts).Ok? && Unique(c.hosts)
    requires var k := c.hosts[0].key;
      k != "" && IsAlpha(k[0]) && ',' !in k && ',' !in ip && !Has(c.hosts, k + [','] + ip)
    requires !HasIp(c.hosts[1..], ip)
    ensures var k := c.hosts[0].key;
      Run(s, Some(c), [['-'] + k, k + [','] + ip])
      == Ok(Assign(s, c, c.hosts[1..] + [Entry(k, HostOpts(ip, ip, ip))]))
  {
    var k := c.hosts[0].key;
    var args := [['-'] + k, k + [','] + ip];
    DeleteThenReadd(s.hostPrefix, c.hosts, ip);
    assert args[0][0] == '-' && args[1][0] == k[0];
    ExpandTwo(args[0], args[1]);
    RunSaves(s, Some(c), args, c, c.hosts[1..] + [Entry(k, HostOpts(ip, ip, ip))]);
  }
}
