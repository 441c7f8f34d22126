/**
 The inventory builder on values: what one invocation computes from the saved inventory and its arguments.
 `KubesprayInventory.dfy` is the program that works in place; it is proved to compute these functions.
 */
module Inventory {
  import opened Text
  import opened Outcomes
  import opened OrderedDict
  import opened Ranges

  // ---------- data ----------

  /** Environment variables of the program. */
  datatype Settings = Settings(hostPrefix: string, controlHosts: nat, scale: nat, massiveScale: nat)

  datatype HostOpts = HostOpts(ansibleHost: string, ip: string, accessIp: string)

  type Table = Dict<string, HostOpts>

  /** Roles that hold hosts; `all` is the host table and `k8s_cluster` only holds two child groups. */
  datatype Role = ControlPlane | Node | Etcd | CalicoRr

  /** The saved file: the `hosts` of group `all` and the `hosts` of each role. */
  datatype Config = Config(hosts: Table, controlPlane: seq<string>, node: seq<string>,
                           etcd: seq<string>, calicoRr: seq<string>)
  {
    function Members(role: Role): seq<string> {
      match role
      case ControlPlane => controlPlane
      case Node => node
      case Etcd => etcd
      case CalicoRr => calicoRr
    }

    function WithMembers(role: Role, members: seq<string>): Config {
      match role
      case ControlPlane => this.(controlPlane := members)
      case Node => this.(node := members)
      case Etcd => this.(etcd := members)
      case CalicoRr => this.(calicoRr := members)
    }
  }

  const EMPTY_CONFIG := Config([], [], [], [], [])

  const PROTECTED_NAMES := {"all", "kube_control_plane", "kube_node", "etcd", "k8s_cluster", "calico_rr"}

  // ---------- building the host table ----------

  function HostId(host: string): Option<nat> {
    var digits := TrailingDigits(Split(host, '.')[0]);
    if digits == "" then None else Some(FromDecimal(digits))
  }

  /** The largest number on a loaded host that carries the generated prefix, starting from `highest`. */
  function HighestId(prefix: string, names: seq<string>, highest: nat): Outcome<nat> {
    if names == [] then Ok(highest)
    else if prefix <= names[0] then
      if HostId(names[0]).None? then Fail(BadHostName)
      else
        var id := HostId(names[0]).value;
        HighestId(prefix, names[1..], if id > highest then id else highest)
    else HighestId(prefix, names[1..], highest)
  }

  function GeneratedName(prefix: string, id: nat): string {
    prefix + ToDecimal(id)
  }

  /** The first host with the given address. */
  function IndexOfIp(t: Table, ip: string): (i: nat)
    ensures i <= |t|
    ensures i < |t| ==> t[i].value.ip == ip
    ensures forall j :: 0 <= j < i ==> t[j].value.ip != ip
  {
    if t == [] then 0 else if t[0].value.ip == ip then 0 else 1 + IndexOfIp(t[1..], ip)
  }

  predicate HasIp(t: Table, ip: string) {
    IndexOfIp(t, ip) < |t|
  }

  function RemoveAt(t: Table, i: nat): Table
    requires i < |t|
  {
    t[..i] + t[i + 1..]
  }

  /**
   The loop state of `build_hostnames`: the table so far, the next number for a generated name, and the
   variables that an argument without a comma reads as the previous argument left them.
   */
  datatype Builder = Builder(table: Table, nextId: nat, hostname: Option<string>, address: Option<HostOpts>)

  function Deleted(t: Table, name: string): Table {
    if Has(t, name) then Remove(t, name)
    else if HasIp(t, name) then RemoveAt(t, IndexOfIp(t, name))
    else t
  }

  function DeleteStep(b: Builder, arg: string): Builder
    requires arg != ""
  {
    b.(table := Deleted(b.table, arg[1..]))
  }

  function AddressStep(prefix: string, b: Builder, arg: string): Outcome<Builder> {
    var fields := Split(arg, ',');
    if |fields| > 2 then Fail(TooManyFields)
    else
      var access := fields[|fields| - 1];
      var opts := HostOpts(access, fields[0], access);
      var read := b.(address := Some(opts));
      if Has(b.table, arg) || HasIp(b.table, opts.ip) then Ok(read)
      else Ok(read.(table := Put(b.table, GeneratedName(prefix, b.nextId), opts), nextId := b.nextId + 1))
  }

  function NameStep(b: Builder, arg: string): Outcome<Builder> {
    var fields := Split(arg, ',');
    if |fields| > 3 then Fail(TooManyFields)
    else
      var access := fields[|fields| - 1];
      var read := if |fields| == 1 then b
                  else b.(hostname := Some(fields[0]), address := Some(HostOpts(access, fields[1], access)));
      if Has(read.table, arg) then Ok(read)
      else if read.address.None? then Fail(UnboundVariable)
      else if HasIp(read.table, read.address.value.ip) then Ok(read)
      else if read.hostname.None? then Fail(UnboundVariable)
      else Ok(read.(table := Put(read.table, read.hostname.value, read.address.value)))
  }

  function Step(prefix: string, b: Builder, arg: string): Outcome<Builder> {
    if arg == "" then Fail(EmptyArgument)
    else if arg[0] == '-' then Ok(DeleteStep(b, arg))
    else if IsDigit(arg[0]) then AddressStep(prefix, b, arg)
    else if IsAlpha(arg[0]) then NameStep(b, arg)
    else Ok(b)
  }

  function Steps(prefix: string, b: Builder, args: seq<string>): Outcome<Builder>
    decreases |args|
  {
    if args == [] then Ok(b)
    else
      var b' :- Step(prefix, b, args[0]);
      Steps(prefix, b', args[1..])
  }

  function StartBuilder(prefix: string, existing: Table): Outcome<Builder> {
    var highest :- HighestId(prefix, Keys(existing), 0);
    Ok(Builder(existing, highest + 1, None, None))
  }

  function Build(prefix: string, existing: Table, args: seq<string>): Outcome<Table> {
    var b :- StartBuilder(prefix, existing);
    var last :- Steps(prefix, b, args);
    Ok(last.table)
  }

  // ---------- purging and assigning roles ----------

  function Keep(names: seq<string>, allowed: set<string>): seq<string> {
    if names == [] then []
    else if names[0] in allowed then [names[0]] + Keep(names[1..], allowed)
    else Keep(names[1..], allowed)
  }

  function KeepHosts(t: Table, allowed: set<string>): Table {
    if t == [] then []
    else if t[0].key in allowed then [t[0]] + KeepHosts(t[1..], allowed)
    else KeepHosts(t[1..], allowed)
  }

  /** Names that the purge leaves alone. */
  function Allowed(built: Table): set<string> {
    ToSet(Keys(built)) + PROTECTED_NAMES
  }

  function Purge(c: Config, built: Table): Config {
    Config(KeepHosts(c.hosts, Allowed(built)), Keep(c.controlPlane, Allowed(built)), Keep(c.node, Allowed(built)),
           Keep(c.etcd, Allowed(built)), Keep(c.calicoRr, Allowed(built)))
  }

  function AddMember(members: seq<string>, host: string): seq<string> {
    if host in members then members else members + [host]
  }

  function AddAll(members: seq<string>, hosts: seq<string>): seq<string>
    decreases |hosts|
  {
    if hosts == [] then members else AddAll(AddMember(members, hosts[0]), hosts[1..])
  }

  /** `s[lo..hi]` with Python's clipping of bounds beyond the end. */
  function Slice(s: seq<string>, lo: nat, hi: nat): seq<string>
    requires lo <= hi
  {
    s[Min(lo, |s|)..Min(hi, |s|)]
  }

  function Min(a: nat, b: nat): nat {
    if a <= b then a else b
  }

  function Max(a: nat, b: nat): nat {
    if a >= b then a else b
  }

  function EtcdCount(n: nat): nat {
    if n >= 3 then 3 else 1
  }

  function ControlPlaneHosts(s: Settings, names: seq<string>): seq<string> {
    var e := EtcdCount(|names|);
    if |names| >= s.scale then Slice(names, e, e + s.controlHosts) else Slice(names, 0, s.controlHosts)
  }

  /** Whether `set_kube_node` passes over a host. */
  predicate NotANode(s: Settings, c: Config, host: string) {
    (|c.hosts| >= s.scale && host in c.etcd) || (|c.hosts| >= s.massiveScale && host in c.controlPlane)
  }

  function NodeHosts(s: Settings, c: Config, names: seq<string>): seq<string> {
    if names == [] then []
    else if NotANode(s, c, names[0]) then NodeHosts(s, c, names[1..])
    else [names[0]] + NodeHosts(s, c, names[1..])
  }

  /** `set_calico_rr` looks the host up in the group record, whose only key is "hosts". */
  function CalicoHosts(names: seq<string>): seq<string> {
    if names == [] then []
    else if names[0] == "hosts" then CalicoHosts(names[1..])
    else [names[0]] + CalicoHosts(names[1..])
  }

  function SetAll(c: Config, built: Table): Config {
    c.(hosts := PutAll(c.hosts, built))
  }

  function Add(c: Config, role: Role, hosts: seq<string>): Config {
    c.WithMembers(role, AddAll(c.Members(role), hosts))
  }

  function SetNodes(s: Settings, c: Config, names: seq<string>): Config {
    Add(c, Node, NodeHosts(s, c, names))
  }

  /** Everything a run does to the configuration once the host table is built. */
  function Assign(s: Settings, c: Config, built: Table): Config {
    var names := Keys(built);
    var e := EtcdCount(|names|);
    var c1 := SetAll(Purge(c, built), built);
    var c2 := Add(c1, Etcd, Slice(names, 0, e));
    var c3 := Add(c2, ControlPlane, ControlPlaneHosts(s, names));
    var c4 := SetNodes(s, c3, names);
    if |names| >= s.scale then Add(c4, CalicoRr, CalicoHosts(Slice(names, 0, e))) else c4
  }

  // ---------- one invocation ----------

  /** Commands that never reach the builder; all but `load`, which is not part of this model, only print. */
  const OTHER_COMMANDS := {"help", "print_cfg", "print_ips", "print_hostnames", "load"}

  predicate LoadsPrevious(args: seq<string>) {
    args != [] && (args[0] == "add" || (args[0] != "" && args[0][0] == '-'))
  }

  /** The hosts named on the command line, without the `add` command. */
  function ChangedHosts(args: seq<string>): seq<string> {
    if args != [] && args[0] == "add" then args[1..] else args
  }

  /** The configuration a run starts from. */
  function Loaded(file: Option<Config>, args: seq<string>): Outcome<Config> {
    if !LoadsPrevious(args) then Ok(EMPTY_CONFIG)
    else if file.None? then Fail(NoConfigFile) else Ok(file.value)
  }

  /** What is saved by one invocation, or why nothing is. */
  function Run(s: Settings, file: Option<Config>, args: seq<string>): Outcome<Config> {
    if args != [] && args[0] in OTHER_COMMANDS then Fail(CommandOnly)
    else if ChangedHosts(args) != [] && ChangedHosts(args)[0] == "" then Fail(EmptyArgument)
    else
      var start :- Loaded(file, args);
      if ChangedHosts(args) == [] then Fail(HelpShown)
      else
        var hosts :- ExpandAll(ChangedHosts(args));
        var built :- Build(s.hostPrefix, start.hosts, hosts);
        Ok(Assign(s, start, built))
  }

  /** The file after an invocation: rewritten only when the run gets to its end. */
  function FileAfter(s: Settings, file: Option<Config>, args: seq<string>): Option<Config> {
    var outcome := Run(s, file, args);
    if outcome.Ok? then Some(outcome.value) else file
  }

  /** One start of the program: it reads its environment and its arguments anew. */
  datatype Invocation = Invocation(settings: Settings, args: seq<string>)

  /** The file after any sequence of invocations. */
  function FileAfterAll(file: Option<Config>, runs: seq<Invocation>): Option<Config>
    decreases |runs|
  {
    if runs == [] then file else FileAfterAll(FileAfter(runs[0].settings, file, runs[0].args), runs[1..])
  }
}
