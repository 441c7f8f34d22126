/** The inventory builder as it works: loops over arguments, hosts and roles that update the configuration in place. */
module KubesprayBuilder {
  import opened Text
  import opened Outcomes
  import opened OrderedDict
  import opened Ranges
  import opened Inventory
  import opened NameLists
  import opened BuildLaws
  import opened RoleLaws

  const ROLES_WITH_HOSTS := [ControlPlane, Node, Etcd, CalicoRr]

  /** `del d[name]` on the keys of a group. */
  function RemoveName(s: seq<string>, name: string): seq<string> {
    if s == [] then [] else if s[0] == name then s[1..] else [s[0]] + RemoveName(s[1..], name)
  }

  lemma {:induction false} RemoveNameAt(a: seq<string>, name: string, b: seq<string>)
    requires name !in a
    ensures RemoveName(a + [name] + b, name) == a + b
  {
    var s := a + [name] + b;
    if a == [] {
      assert s[0] == name && s[1..] == b;
    } else {
      assert s[0] == a[0] && s[1..] == a[1..] + [name] + b;
      RemoveNameAt(a[1..], name, b);
    }
  }

  lemma RemoveHostAt(a: Table, e: Entry<string, HostOpts>, b: Table)
    requires e.key !in Keys(a)
    ensures Remove(a + [e] + b, e.key) == a + b
  {
    var t := a + [e] + b;
    assert forall j :: 0 <= j < |a| ==> t[j] == a[j] && Keys(a)[j] == a[j].key;
    assert t[|a|] == e;
    IndexIs(t, e.key, |a|);
  }

  lemma {:induction false} KeepHostsAppend(a: Table, b: Table, allowed: set<string>)
    ensures KeepHosts(a + b, allowed) == KeepHosts(a, allowed) + KeepHosts(b, allowed)
  {
    if a == [] {
      assert a + b == b;
    } else {
      assert (a + b)[0] == a[0] && (a + b)[1..] == a[1..] + b;
      KeepHostsAppend(a[1..], b, allowed);
    }
  }

  /** One step of the purge of a group: what is done is filtered, what is ahead is untouched. */
  lemma {:induction false} PurgeStep(all: seq<string>, i: nat, allowed: set<string>)
    requires i < |all| && Distinct(all)
    ensures var now := Keep(all[..i], allowed) + all[i..];
      Keep(all[..i + 1], allowed) + all[i + 1..] == if all[i] in allowed then now else RemoveName(now, all[i])
  {
    KeepNext(all, i, allowed);
    hide Keep, RemoveName;
    assert all[i..] == [all[i]] + all[i + 1..];
    KeepIn(all[..i], allowed, all[i]);
    RemoveNameAt(Keep(all[..i], allowed), all[i], all[i + 1..]);
    assert Keep(all[..i], allowed) + [all[i]] + all[i + 1..] == Keep(all[..i], allowed) + all[i..];
  }

  lemma {:induction false} KeepNext(all: seq<string>, i: nat, allowed: set<string>)
    requires i < |all|
    ensures Keep(all[..i + 1], allowed) == Keep(all[..i], allowed) + if all[i] in allowed then [all[i]] else []
  {
    assert all[..i + 1] == all[..i] + [all[i]];
    KeepAppend(all[..i], [all[i]], allowed);
    assert [all[i]][1..] == [];
  }

  lemma KeptLacksNext(all: Table, i: nat, allowed: set<string>)
    requires i < |all| && Unique(all)
    ensures all[i].key !in Keys(KeepHosts(all[..i], allowed))
  {
    forall j | 0 <= j < i ensures Keys(all[..i])[j] != all[i].key {
      assert Keys(all[..i])[j] == all[..i][j].key == all[j].key;
    }
    KeepHostsKeys(all[..i], allowed);
    KeepIn(Keys(all[..i]), allowed, all[i].key);
  }

  lemma KeepHostsNext(all: Table, i: nat, allowed: set<string>)
    requires i < |all|
    ensures KeepHosts(all[..i + 1], allowed)
         == KeepHosts(all[..i], allowed) + if all[i].key in allowed then [all[i]] else []
  {
    var next := [all[i]];
    assert all[..i + 1] == all[..i] + next;
    KeepHostsAppend(all[..i], next, allowed);
    assert next[1..] == [];
    assert KeepHosts(next, allowed) == if all[i].key in allowed then next else [];
  }

  lemma PurgeHostsStep(all: Table, i: nat, allowed: set<string>)
    requires i < |all| && Unique(all)
    ensures var now := KeepHosts(all[..i], allowed) + all[i..];
      KeepHosts(all[..i + 1], allowed) + all[i + 1..] == if all[i].key in allowed then now else Remove(now, all[i].key)
  {
    var kept, next, ahead := KeepHosts(all[..i], allowed), all[i], all[i + 1..];
    KeepHostsNext(all, i, allowed);
    assert kept + all[i..] == kept + [next] + ahead;
    if next.key !in allowed {
      KeptLacksNext(all, i, allowed);
      RemoveHostAt(kept, next, ahead);
    }
  }

  /** The groups of a configuration, by role. */
  function Groups(c: Config): map<Role, seq<string>> {
    map[ControlPlane := c.controlPlane, Node := c.node, Etcd := c.etcd, CalicoRr := c.calicoRr]
  }

  lemma GroupsHoldMembers(c: Config)
    ensures forall role: Role :: role in Groups(c) && Groups(c)[role] == c.Members(role)
  {
    forall role: Role ensures role in Groups(c) && Groups(c)[role] == c.Members(role) {
      match role {
        case ControlPlane =>
        case Node =>
        case Etcd =>
        case CalicoRr =>
      }
    }
  }

  class KubesprayInventory {
    const settings: Settings
    /** The content of the configuration file, if it exists. */
    var file: Option<Config>
    /** `yaml_config['all']['hosts']` */
    var allHosts: Table
    /** the `hosts` of each role in `yaml_config['all']['children']` */
    var children: map<Role, seq<string>>

    /** Dictionaries have unique keys, and every role has a group. */
    ghost predicate Valid()
      reads this
    {
      (forall role: Role :: role in children && Distinct(children[role])) && Unique(allHosts)
      && (file.Some? ==> WellFormed(file.value))
    }

    ghost function Contents(): (c: Config)
      requires Valid()
      reads this
      ensures c.hosts == allHosts && forall role: Role :: c.Members(role) == children[role]
    {
      Config(allHosts, children[ControlPlane], children[Node], children[Etcd], children[CalicoRr])
    }

    constructor (settings: Settings, file: Option<Config>)
      requires file.Some? ==> WellFormed(file.value)
      ensures Valid() && this.settings == settings && this.file == file && Contents() == EMPTY_CONFIG
    {
      this.settings := settings;
      this.file := file;
      allHosts := [];
      children := Groups(EMPTY_CONFIG);
      GroupsHoldMembers(EMPTY_CONFIG);
    }

    method ExistsIp(existing: Table, ip: string) returns (found: bool)
      ensures found <==> exists i :: 0 <= i < |existing| && existing[i].value.ip == ip
    {
      for i := 0 to |existing|
        invariant forall j :: 0 <= j < i ==> existing[j].value.ip != ip
      {
        if existing[i].value.ip == ip {
          return true;
        }
      }
      return false;
    }

    /** Deletes the first host with the address; `None` stands for the error when there is none. */
    method DeleteHostByIp(existing: Table, ip: string) returns (left: Option<Table>)
      ensures HasIp(existing, ip) ==> left == Some(RemoveAt(existing, IndexOfIp(existing, ip)))
      ensures !HasIp(existing, ip) ==> left == None
    {
      for i := 0 to |existing|
        invariant forall j :: 0 <= j < i ==> existing[j].value.ip != ip
      {
        if existing[i].value.ip == ip {
          return Some(existing[..i] + existing[i + 1..]);
        }
      }
      return None;
    }

    /** The largest number of a host with the prefix; it fails exactly when such a host has none. */
    method HighestHostId(names: seq<string>) returns (highest: Outcome<nat>)
      ensures highest == HighestId(settings.hostPrefix, names, 0)
      ensures highest.Ok? ==> IsHighest(settings.hostPrefix, names, highest.value)
      ensures highest.Fail? <==> exists n :: n in names && settings.hostPrefix <= n && HostId(n).None?
    {
      HighestIdIsMaximum(settings.hostPrefix, names);
      var id := 0;
      assert names[0..] == names;
      for i := 0 to |names|
        invariant HighestId(settings.hostPrefix, names, 0) == HighestId(settings.hostPrefix, names[i..], id)
      {
        assert names[i..][0] == names[i] && names[i..][1..] == names[i + 1..];
        if settings.hostPrefix <= names[i] {
          var hostId := HostId(names[i]);
          if hostId.None? {
            return Fail(BadHostName);
          }
          if hostId.value > id {
            id := hostId.value;
          }
        }
      }
      return Ok(id);
    }

    /** `build_hostnames`: keeps the loaded hosts, then adds and deletes as the arguments say. */
    method BuildHostnames(changed: seq<string>, load: bool) returns (built: Outcome<Table>)
      requires Valid()
      ensures built == Build(settings.hostPrefix, if load then allHosts else [], changed)
    {
      hide Step, HighestId, Keys;
      var existing := if load then allHosts else [];
      var highest := HighestHostId(Keys(existing));
      if highest.Fail? {
        return Fail(highest.error);
      }
      var b := Builder(existing, highest.value + 1, None, None);
      ghost var start := b;
      assert changed[0..] == changed;
      for i := 0 to |changed|
        invariant Steps(settings.hostPrefix, start, changed) == Steps(settings.hostPrefix, b, changed[i..])
      {
        assert changed[i..][0] == changed[i] && changed[i..][1..] == changed[i + 1..];
        var next := BuildHostname(b, changed[i]);
        if next.Fail? {
          return Fail(next.error);
        }
        b := next.value;
      }
      return Ok(b.table);
    }

    /** One round of the loop; `b` holds its variables. */
    method BuildHostname(b: Builder, host: string) returns (next: Outcome<Builder>)
      ensures next == Step(settings.hostPrefix, b, host)
    {
      if host == "" {
        return Fail(EmptyArgument);
      }
      if host[0] == '-' {
        var left := Delete(b.table, host[1..]);
        return Ok(b.(table := left));
      }
      if IsDigit(host[0]) {
        next := AddAddress(b, host);
      } else if IsAlpha(host[0]) {
        next := AddName(b, host);
      } else {
        next := Ok(b);
      }
    }

    method AddAddress(b: Builder, host: string) returns (next: Outcome<Builder>)
      ensures next == AddressStep(settings.hostPrefix, b, host)
    {
      hide Put, Has, Split, GeneratedName;
      var all, nextId := b.table, b.nextId;
      var fields := Split(host, ',');
      if |fields| > 2 {
        return Fail(TooManyFields);
      }
      var ip, access := fields[0], fields[|fields| - 1];
      var address := HostOpts(access, ip, access);
      var known := ExistsIp(all, ip);
      if !Has(all, host) && !known {
        all := Put(all, GeneratedName(settings.hostPrefix, nextId), address);
        nextId := nextId + 1;
      }
      return Ok(Builder(all, nextId, b.hostname, Some(address)));
    }

    method AddName(b: Builder, host: string) returns (next: Outcome<Builder>)
      ensures next == NameStep(b, host)
    {
      hide Put, Has, Split;
      var all, hostname, address := b.table, b.hostname, b.address;
      var fields := Split(host, ',');
      if |fields| > 3 {
        return Fail(TooManyFields);
      }
      if |fields| > 1 {
        var access := fields[|fields| - 1];
        hostname, address := Some(fields[0]), Some(HostOpts(access, fields[1], access));
      }
      if !Has(all, host) {
        if address.None? {
          return Fail(UnboundVariable);
        }
        var known := ExistsIp(all, address.value.ip);
        if !known {
          if hostname.None? {
            return Fail(UnboundVariable);
          }
          all := Put(all, hostname.value, address.value);
        }
      }
      return Ok(Builder(all, b.nextId, hostname, address));
    }

    method Delete(existing: Table, name: string) returns (left: Table)
      ensures left == Deleted(existing, name)
    {
      left := existing;
      if Has(existing, name) {
        left := Remove(existing, name);
      } else {
        var known := ExistsIp(existing, name);
        if known {
          var found := DeleteHostByIp(existing, name);
          left := found.value;
        }
      }
    }

    /** Deletes from every role, and from `all`, the hosts that were not built. */
    method PurgeInvalidHosts(built: Table)
      requires Valid()
      modifies this`allHosts, this`children
      ensures Valid() && Contents() == Purge(old(Contents()), built)
    {
      var allowed := Allowed(built);
      ghost var before := children;
      for r := 0 to |ROLES_WITH_HOSTS|
        invariant forall role: Role :: role in children && Distinct(children[role])
        invariant allHosts == old(allHosts)
        invariant forall q :: 0 <= q < r ==> children[ROLES_WITH_HOSTS[q]] == Keep(before[ROLES_WITH_HOSTS[q]], allowed)
        invariant forall q :: r <= q < |ROLES_WITH_HOSTS| ==>
          children[ROLES_WITH_HOSTS[q]] == before[ROLES_WITH_HOSTS[q]]
      {
        PurgeRole(ROLES_WITH_HOSTS[r], allowed);
      }
      assert ROLES_WITH_HOSTS[0] == ControlPlane && ROLES_WITH_HOSTS[1] == Node;
      assert ROLES_WITH_HOSTS[2] == Etcd && ROLES_WITH_HOSTS[3] == CalicoRr;
      PurgeAll(allowed);
    }

    method PurgeRole(role: Role, allowed: set<string>)
      requires forall r: Role :: r in children && Distinct(children[r])
      modifies this`children
      ensures forall r: Role :: r in children && Distinct(children[r])
      ensures children == old(children)[role := Keep(old(children)[role], allowed)]
    {
      var copy := children[role];
      ghost var before := children;
      assert copy[..0] == [] && Keep([], allowed) + copy[0..] == copy;
      for i := 0 to |copy|
        invariant children == before[role := Keep(copy[..i], allowed) + copy[i..]]
      {
        PurgeStep(copy, i, allowed);
        if copy[i] !in allowed {
          children := children[role := RemoveName(children[role], copy[i])];
        }
      }
      assert copy[..|copy|] == copy && Keep(copy, allowed) + copy[|copy|..] == Keep(copy, allowed);
      KeepDistinct(copy, allowed);
    }

    method PurgeAll(allowed: set<string>)
      requires Unique(allHosts)
      modifies this`allHosts
      ensures Unique(allHosts) && allHosts == KeepHosts(old(allHosts), allowed)
    {
      var copy := allHosts;
      for i := 0 to |copy|
        invariant allHosts == KeepHosts(copy[..i], allowed) + copy[i..]
      {
        PurgeHostsStep(copy, i, allowed);
        if copy[i].key !in allowed {
          allHosts := Remove(allHosts, copy[i].key);
        }
      }
      assert copy[..|copy|] == copy;
      KeepHostsKeys(copy, allowed);
      UniqueKeys(copy);
      KeepDistinct(Keys(copy), allowed);
      UniqueKeys(allHosts);
    }

    method SetAllHosts(built: Table)
      requires Valid()
      modifies this`allHosts
      ensures Valid() && Contents() == SetAll(old(Contents()), built)
    {
      assert built[0..] == built;
      for i := 0 to |built|
        invariant PutAll(allHosts, built[i..]) == PutAll(old(allHosts), built) && Unique(allHosts)
      {
        assert built[i..][0] == built[i] && built[i..][1..] == built[i + 1..];
        PutKeys(allHosts, built[i].key, built[i].value);
        allHosts := Put(allHosts, built[i].key, built[i].value);
      }
    }

    /** `add_host_to_group` for a role: writing a key that is there changes nothing. */
    method AddHostToGroup(role: Role, host: string)
      requires Valid()
      modifies this`children
      ensures Valid() && Contents() == old(Contents()).WithMembers(role, AddMember(old(Contents()).Members(role), host))
    {
      if host !in children[role] {
        children := children[role := children[role] + [host]];
      }
    }

    /** `set_etcd` and `set_kube_control_plane`. */
    method SetRole(role: Role, hosts: seq<string>)
      requires Valid()
      modifies this`children
      ensures Valid() && Contents() == Add(old(Contents()), role, hosts)
    {
      ghost var before := Contents();
      assert hosts[0..] == hosts;
      for i := 0 to |hosts|
        invariant Valid() && Contents() == before.WithMembers(role, children[role])
        invariant AddAll(children[role], hosts[i..]) == AddAll(before.Members(role), hosts)
      {
        assert hosts[i..][0] == hosts[i] && hosts[i..][1..] == hosts[i + 1..];
        AddHostToGroup(role, hosts[i]);
      }
    }

    method SetKubeNode(hosts: seq<string>)
      requires Valid()
      modifies this`children
      ensures Valid() && Contents() == SetNodes(settings, old(Contents()), hosts)
    {
      ghost var before := Contents();
      assert hosts[0..] == hosts;
      for i := 0 to |hosts|
        invariant Valid() && Contents() == before.WithMembers(Node, children[Node])
        invariant AddAll(children[Node], NodeHosts(settings, before, hosts[i..]))
               == AddAll(before.Members(Node), NodeHosts(settings, before, hosts))
      {
        assert hosts[i..][0] == hosts[i] && hosts[i..][1..] == hosts[i + 1..];
        assert children[Etcd] == before.etcd && children[ControlPlane] == before.controlPlane by {
          assert Contents().etcd == before.etcd && Contents().controlPlane == before.controlPlane;
        }
        if |allHosts| >= settings.scale && hosts[i] in children[Etcd] {
          continue;
        }
        if |allHosts| >= settings.massiveScale && hosts[i] in children[ControlPlane] {
          continue;
        }
        ghost var rest := NodeHosts(settings, before, hosts[i + 1..]);
        assert NodeHosts(settings, before, hosts[i..]) == [hosts[i]] + rest;
        assert ([hosts[i]] + rest)[1..] == rest;
        AddHostToGroup(Node, hosts[i]);
      }
    }

    method SetCalicoRr(hosts: seq<string>)
      requires Valid()
      modifies this`children
      ensures Valid() && Contents() == Add(old(Contents()), CalicoRr, CalicoHosts(hosts))
    {
      ghost var before := Contents();
      assert hosts[0..] == hosts;
      for i := 0 to |hosts|
        invariant Valid() && Contents() == before.WithMembers(CalicoRr, children[CalicoRr])
        invariant AddAll(children[CalicoRr], CalicoHosts(hosts[i..]))
               == AddAll(before.Members(CalicoRr), CalicoHosts(hosts))
      {
        assert hosts[i..][0] == hosts[i] && hosts[i..][1..] == hosts[i + 1..];
        if hosts[i] == "hosts" {
          continue;
        }
        ghost var rest := CalicoHosts(hosts[i + 1..]);
        assert CalicoHosts(hosts[i..]) == [hosts[i]] + rest;
        assert ([hosts[i]] + rest)[1..] == rest;
        AddHostToGroup(CalicoRr, hosts[i]);
      }
    }

    /** Purging and role assignment for a built table. */
    method AssignRoles(built: Table)
      requires Valid()
      modifies this`allHosts, this`children
      ensures Valid() && Contents() == Assign(settings, old(Contents()), built)
    {
      var names := Keys(built);
      ghost var c0 := Contents();
      PurgeInvalidHosts(built);
      SetAllHosts(built);
      ghost var c1 := Contents();
      assert c1 == SetAll(Purge(c0, built), built);
      SetEtcdAndControlPlane(names);
      ghost var c3 := Contents();
      assert c3 == Add(Add(c1, Etcd, Slice(names, 0, EtcdCount(|names|))),
                       ControlPlane, ControlPlaneHosts(settings, names));
      SetKubeNode(names);
      if |names| >= settings.scale {
        SetCalicoRr(Slice(names, 0, EtcdCount(|names|)));
      }
    }

    method SetEtcdAndControlPlane(names: seq<string>)
      requires Valid()
      modifies this`children
      ensures Valid()
      ensures Contents() == Add(Add(old(Contents()), Etcd, Slice(names, 0, EtcdCount(|names|))),
                                ControlPlane, ControlPlaneHosts(settings, names))
    {
      var etcdCount := EtcdCount(|names|);
      SetRole(Etcd, Slice(names, 0, etcdCount));
      if |names| >= settings.scale {
        SetRole(ControlPlane, Slice(names, etcdCount, etcdCount + settings.controlHosts));
      } else {
        SetRole(ControlPlane, Slice(names, 0, settings.controlHosts));
      }
    }

    /** The configuration a run works on: what the file holds, or the empty groups. */
    method Open(start: Config)
      requires Valid() && WellFormed(start)
      modifies this`allHosts, this`children
      ensures Valid() && Contents() == start
    {
      allHosts := start.hosts;
      children := Groups(start);
      GroupsHoldMembers(start);
    }

    /** One invocation. The file changes only when the run gets to its end. */
    method Invoke(args: seq<string>) returns (outcome: Outcome<Config>)
      requires Valid()
      modifies this
      ensures Valid()
      ensures outcome == Run(settings, old(file), args)
      ensures file == FileAfter(settings, old(file), args)
      ensures outcome.Ok? ==> file == Some(outcome.value)
      ensures outcome.Fail? ==> file == old(file)
      ensures outcome.Ok? ==> Contents() == outcome.value
    {
      hide Build, Assign, ExpandAll;
      if args != [] && args[0] in OTHER_COMMANDS {
        return Fail(CommandOnly);
      }
      var changed := ChangedHosts(args);
      if changed != [] && changed[0] == "" {
        return Fail(EmptyArgument);
      }
      var load := LoadsPrevious(args);
      if load {
        if file.None? {
          return Fail(NoConfigFile);
        }
        Open(file.value);
      } else {
        Open(EMPTY_CONFIG);
      }
      if changed == [] {
        return Fail(HelpShown);
      }
      var expanded := Range2Ips(changed);
      if expanded.Fail? {
        return Fail(expanded.error);
      }
      var built := BuildHostnames(expanded.value, load);
      if built.Fail? {
        return Fail(built.error);
      }
      AssignRoles(built.value);
      file := Some(Config(allHosts, children[ControlPlane], children[Node], children[Etcd], children[CalicoRr]));
      outcome := Ok(file.value);
      assert forall role: Role :: file.value.Members(role) == children[role];
    }
  }

  /** `main`, started again and again: every start reads its settings and the file the last one left. */
  method InvokeAll(file: Option<Config>, runs: seq<Invocation>) returns (last: Option<Config>)
    requires file.Some? ==> WellFormed(file.value)
    ensures last == FileAfterAll(file, runs)
  {
    last := file;
    assert runs[0..] == runs;
    for i := 0 to |runs|
      invariant last.Some? ==> WellFormed(last.value)
      invariant FileAfterAll(last, runs[i..]) == FileAfterAll(file, runs)
    {
      assert runs[i..][0] == runs[i] && runs[i..][1..] == runs[i + 1..];
      var inventory := new KubesprayInventory(runs[i].settings, last);
      var _ := inventory.Invoke(runs[i].args);
      last := inventory.file;
    }
  }
}
