/** Runs made of addresses and ranges only: what they build, and that adding the same list again is idle. */
module AddressRuns {
  import opened Text
  import opened Outcomes
  import opened OrderedDict
  import opened Ranges
  import opened Inventory
  import opened NameLists
  import opened BuildLaws
  import opened RoleLaws
  import opened RunLaws

  // ---------- a fresh run ----------

  /** The hosts for a list of addresses under consecutive generated names. */
  function Numbered(prefix: string, ips: seq<string>): (t: Table)
    ensures |t| == |ips|
  {
    seq(|ips|, i requires 0 <= i < |ips| =>
      Entry(GeneratedName(prefix, i + 1), HostOpts(ips[i], ips[i], ips[i])))
  }

  /** The elements of a list in the order of their first occurrence. */
  function FirstOccurrences(s: seq<string>): seq<string> {
    if s == [] then []
    else
      var front, last := s[..|s| - 1], s[|s| - 1];
      FirstOccurrences(front) + if last in front then [] else [last]
  }

  lemma {:induction false} AddAllAppend(members: seq<string>, a: seq<string>, b: seq<string>)
    ensures AddAll(members, a + b) == AddAll(AddAll(members, a), b)
    decreases |a|
  {
    if a == [] {
      assert a + b == b;
    } else {
      assert (a + b)[0] == a[0] && (a + b)[1..] == a[1..] + b;
      AddAllAppend(AddMember(members, a[0]), a[1..], b);
    }
  }

  lemma {:induction false} AddAllIsFirstOccurrences(s: seq<string>)
    ensures AddAll([], s) == FirstOccurrences(s)
  {
    if s != [] {
      var front, last := s[..|s| - 1], s[|s| - 1];
      assert s == front + [last];
      AddAllIsFirstOccurrences(front);
      AddAllAppend([], front, [last]);
      AddAllIn([], front, last);
      assert AddAll(AddAll([], front), [last]) == AddMember(AddAll([], front), last);
    }
  }

  predicate PlainAddress(a: string) {
    a != "" && IsDigit(a[0]) && ',' !in a && '.' in a
  }

  lemma NumberedNames(prefix: string, ips: seq<string>, x: string)
    requires '.' !in prefix && x in Keys(Numbered(prefix, ips))
    ensures '.' !in x
    ensures exists m: nat :: 1 <= m <= |ips| && x == GeneratedName(prefix, m)
  {
    var i :| 0 <= i < |ips| && Keys(Numbered(prefix, ips))[i] == x;
    assert x == GeneratedName(prefix, i + 1);
    DigitsOnly(ToDecimal(i + 1), '.');
  }

  lemma NumberedIps(prefix: string, ips: seq<string>, ip: string)
    ensures HasIp(Numbered(prefix, ips), ip) <==> ip in ips
  {
    var t := Numbered(prefix, ips);
    assert forall i :: 0 <= i < |t| ==> t[i].value.ip == ips[i];
  }

  lemma NumberedUnique(prefix: string, ips: seq<string>)
    ensures Unique(Numbered(prefix, ips))
  {
    var t := Numbered(prefix, ips);
    forall i, j | 0 <= i < j < |t| ensures t[i].key != t[j].key {
      if GeneratedName(prefix, i + 1) == GeneratedName(prefix, j + 1) {
        GeneratedNameInjective(prefix, i + 1, j + 1);
      }
    }
  }

  lemma PlainStep(prefix: string, b: Builder, ips: seq<string>, a: string)
    requires '.' !in prefix && PlainAddress(a)
    requires b.table == Numbered(prefix, ips) && b.nextId == |ips| + 1
    ensures var b' := Step(prefix, b, a);
      b'.Ok? && b'.value.table == Numbered(prefix, AddMember(ips, a))
      && b'.value.nextId == |AddMember(ips, a)| + 1
  {
    NumberedIps(prefix, ips, a);
    HasKey(b.table, a);
    if a in Keys(b.table) {
      NumberedNames(prefix, ips, a);
    }
    var name := GeneratedName(prefix, b.nextId);
    HasKey(b.table, name);
    if name in Keys(b.table) {
      NumberedNames(prefix, ips, name);
      var m: nat :| 1 <= m <= |ips| && name == GeneratedName(prefix, m);
      GeneratedNameInjective(prefix, m, b.nextId);
    }
    assert b.table + [Entry(name, HostOpts(a, a, a))] == Numbered(prefix, ips + [a]);
  }

  lemma {:induction false} PlainSteps(prefix: string, b: Builder, ips: seq<string>, args: seq<string>)
    requires '.' !in prefix && forall i :: 0 <= i < |args| ==> PlainAddress(args[i])
    requires b.table == Numbered(prefix, ips) && b.nextId == |ips| + 1
    ensures Steps(prefix, b, args).Ok?
    ensures Steps(prefix, b, args).value.table == Numbered(prefix, AddAll(ips, args))
    decreases |args|
  {
    if args != [] {
      PlainStep(prefix, b, ips, args[0]);
      PlainSteps(prefix, Step(prefix, b, args[0]).value, AddMember(ips, args[0]), args[1..]);
    }
  }

  lemma PlainBuild(prefix: string, ips: seq<string>)
    requires '.' !in prefix && forall i :: 0 <= i < |ips| ==> PlainAddress(ips[i])
    ensures Build(prefix, [], ips) == Ok(Numbered(prefix, FirstOccurrences(ips)))
  {
    var b := Builder([], 1, None, None);
    assert StartBuilder(prefix, []) == Ok(b);
    assert Numbered(prefix, []) == [];
    PlainSteps(prefix, b, [], ips);
    AddAllIsFirstOccurrences(ips);
  }

  lemma PrintedArePlain(ns: seq<nat>)
    requires AllAddresses(ns)
    ensures forall i :: 0 <= i < |PrintIps(ns)| ==> PlainAddress(PrintIps(ns)[i])
  {
    forall i | 0 <= i < |ns| ensures PlainAddress(PrintIps(ns)[i]) {
      PrintedAddressShape(ns[i]);
      PrintedAddressDotted(ns[i]);
    }
  }

  /**
   For any canonical addresses and ranges, a fresh run saves the first occurrences of the addresses meant,
   in order, under the names prefix1, prefix2, ...; whatever was in the file before.
   */
  lemma FreshAddressRun(s: Settings, file: Option<Config>, args: seq<AddressArg>)
    requires '.' !in s.hostPrefix && args != [] && AllValid(args)
    ensures AllAddresses(MeaningOf(args))
    ensures Run(s, file, PrintArgs(args)).Ok?
    ensures Run(s, file, PrintArgs(args)).value.hosts
         == Numbered(s.hostPrefix, FirstOccurrences(PrintIps(MeaningOf(args))))
  {
    var texts := PrintArgs(args);
    ExpandPrinted(args);
    var ips := PrintIps(MeaningOf(args));
    PrintedArePlain(MeaningOf(args));
    PlainBuild(s.hostPrefix, ips);
    FirstArgument(args[0]);
    assert texts[0] == args[0].Print();
    var built := Numbered(s.hostPrefix, FirstOccurrences(ips));
    RunSaves(s, file, texts, EMPTY_CONFIG, built);
    NumberedUnique(s.hostPrefix, FirstOccurrences(ips));
    FreshHosts(s, built);
  }

  lemma FirstArgument(arg: AddressArg)
    requires arg.Valid()
    ensures arg.Print() != "" && IsDigit(arg.Print()[0])
  {
    match arg
    case Single(n) => PrintedAddressShape(n);
    case Span(lo, hi) =>
      PrintedAddressShape(lo);
      assert arg.Print()[0] == PrintIp(lo)[0];
  }

  lemma PrintedAddressDotted(n: nat)
    requires n < ADDRESSES
    ensures '.' in PrintIp(n) && ',' !in PrintIp(n)
  {
    PrintedAddressShape(n);
    var a := ToDecimal(n / 256 / 256 / 256);
    assert PrintIp(n)[|a|] == '.';
  }

  // ---------- the same list again ----------

  predicate AddressLed(args: seq<string>) {
    forall i :: 0 <= i < |args| ==> args[i] != "" && IsDigit(args[i][0])
  }

  /** Every name in the table was generated with a number already used. */
  ghost predicate OnlyGenerated(prefix: string, b: Builder) {
    forall x :: x in Keys(b.table) ==> exists m: nat :: m < b.nextId && x == GeneratedName(prefix, m)
  }

  /** An address argument that the table already answers. */
  predicate Settled(t: Table, arg: string) {
    |Split(arg, ',')| <= 2 && (Has(t, arg) || HasIp(t, Split(arg, ',')[0]))
  }

  lemma LongerTableAnswers(t: Table, t': Table, arg: string)
    requires t <= t' && Settled(t, arg)
    ensures Settled(t', arg)
  {
    if Has(t, arg) {
      assert t'[IndexOf(t, arg)].key == arg;
    } else {
      var ip := Split(arg, ',')[0];
      assert t'[IndexOfIp(t, ip)].value.ip == ip;
    }
  }

  lemma AddressStepSettles(prefix: string, b: Builder, arg: string)
    requires arg != "" && IsDigit(arg[0]) && Step(prefix, b, arg).Ok? && OnlyGenerated(prefix, b)
    ensures var b' := Step(prefix, b, arg).value;
      OnlyGenerated(prefix, b') && b.table <= b'.table && Settled(b'.table, arg)
  {
    var b' := Step(prefix, b, arg).value;
    var name := GeneratedName(prefix, b.nextId);
    HasKey(b.table, name);
    if name in Keys(b.table) {
      var m: nat :| m < b.nextId && name == GeneratedName(prefix, m);
      GeneratedNameInjective(prefix, m, b.nextId);
    }
    if b'.table != b.table {
      assert b'.table[|b.table|].value.ip == Split(arg, ',')[0];
      forall x | x in Keys(b'.table) ensures exists m: nat :: m < b'.nextId && x == GeneratedName(prefix, m) {
        PutKeyIn(b.table, name, b'.address.value, x);
        assert x == name ==> b.nextId < b'.nextId;
      }
    }
  }

  lemma {:induction false} AddressStepsSettle(prefix: string, b: Builder, args: seq<string>)
    requires AddressLed(args) && Steps(prefix, b, args).Ok? && OnlyGenerated(prefix, b)
    ensures var b' := Steps(prefix, b, args).value;
      OnlyGenerated(prefix, b') && b.table <= b'.table
      && forall i :: 0 <= i < |args| ==> Settled(b'.table, args[i])
    decreases |args|
  {
    if args != [] {
      var next := Step(prefix, b, args[0]).value;
      AddressStepSettles(prefix, b, args[0]);
      assert forall i :: 0 <= i < |args[1..]| ==> args[1..][i] == args[i + 1];
      AddressStepsSettle(prefix, next, args[1..]);
      LongerTableAnswers(next.table, Steps(prefix, b, args).value.table, args[0]);
      forall i | 0 <= i < |args| ensures Settled(Steps(prefix, b, args).value.table, args[i]) {
        if i > 0 {
          assert args[i] == args[1..][i - 1];
        }
      }
    }
  }

  lemma {:induction false} SettledStepsAreIdle(prefix: string, b: Builder, args: seq<string>)
    requires AddressLed(args) && forall i :: 0 <= i < |args| ==> Settled(b.table, args[i])
    ensures Steps(prefix, b, args).Ok? && Steps(prefix, b, args).value.table == b.table
    decreases |args|
  {
    if args != [] {
      assert Settled(b.table, args[0]);
      assert forall i :: 0 <= i < |args[1..]| ==> args[1..][i] == args[i + 1];
      SettledStepsAreIdle(prefix, Step(prefix, b, args[0]).value, args[1..]);
    }
  }

  lemma {:induction false} HighestIdExists(prefix: string, names: seq<string>, highest: nat)
    requires forall n :: n in names ==> HostId(n).Some?
    ensures HighestId(prefix, names, highest).Ok?
  {
    if names != [] {
      assert names[0] in names;
      assert forall n :: n in names[1..] ==> n in names;
      HighestIdExists(prefix, names[1..], highest);
      HighestIdExists(prefix, names[1..], HostId(names[0]).value);
    }
  }

  /** Building from address arguments and then building again on the result leaves the table as it is. */
  lemma RebuildIsIdle(prefix: string, args: seq<string>)
    requires '.' !in prefix && AddressLed(args) && Build(prefix, [], args).Ok?
    ensures Build(prefix, Build(prefix, [], args).value, args) == Build(prefix, [], args)
  {
    var t := Build(prefix, [], args).value;
    var b := Builder([], 1, None, None);
    AddressStepsSettle(prefix, b, args);
    forall n | n in Keys(t) ensures HostId(n).Some? {
      var m: nat :| n == GeneratedName(prefix, m);
      GeneratedNameId(prefix, m);
    }
    HighestIdExists(prefix, Keys(t), 0);
    SettledStepsAreIdle(prefix, StartBuilder(prefix, t).value, args);
  }

  lemma {:induction false} ExpandAddressLed(args: seq<string>)
    requires AddressLed(args) && ExpandAll(args).Ok?
    ensures AddressLed(ExpandAll(args).value)
  {
    if args != [] {
      hide ExpandArgument;
      var head, rest := ExpandArgument(args[0]).value, ExpandAll(args[1..]).value;
      assert forall i :: 0 <= i < |args[1..]| ==> args[1..][i] == args[i + 1];
      ExpandAddressLed(args[1..]);
      ExpandOneAddressLed(args[0]);
      AddressLedAppend(head, rest);
    }
  }

  lemma {:induction false} AddressLedAppend(a: seq<string>, b: seq<string>)
    requires AddressLed(a) && AddressLed(b)
    ensures AddressLed(a + b)
  {
    assert forall i :: 0 <= i < |a + b| ==> (a + b)[i] == if i < |a| then a[i] else b[i - |a|];
  }

  lemma RangeIsAddressLed(lo: nat, hi: nat)
    requires lo < ADDRESSES && hi < ADDRESSES
    ensures AddressLed(IpRange(lo, hi))
  {
    var ips := IpRange(lo, hi);
    forall i | 0 <= i < |ips| ensures ips[i] != "" && IsDigit(ips[i][0]) {
      PrintedAddressShape(lo + i);
      assert ips[i] == PrintIp(lo + i);
    }
  }

  lemma ExpandOneAddressLed(arg: string)
    requires arg != "" && IsDigit(arg[0]) && ExpandArgument(arg).Ok?
    ensures AddressLed(ExpandArgument(arg).value)
  {
    if IsRange(arg) {
      var ends := Split(Strip(arg), '-');
      RangeIsAddressLed(ParseIp(ends[0]).value, ParseIp(ends[1]).value);
    }
  }

  /**
   Re-adding is idempotent: after a fresh run over addresses, ranges and address pairs, `add` with the same
   list saves the same configuration, hosts, options, order and roles alike.
   */
  lemma ReaddingIsIdempotent(s: Settings, file: Option<Config>, args: seq<string>)
    requires '.' !in s.hostPrefix && args != [] && AddressLed(args) && Run(s, file, args).Ok?
    ensures Run(s, Some(Run(s, file, args).value), ["add"] + args) == Run(s, file, args)
  {
    hide ExpandAll, ExpandArgument, Assign, Keys;
    var hosts := ExpandAll(args).value;
    NotACommand(args[0]);
    var built := Build(s.hostPrefix, [], hosts).value;
    var saved := Assign(s, EMPTY_CONFIG, built);
    assert Run(s, file, args) == Ok(saved);
    ExpandAddressLed(args);
    BuildKeepsDistinctAddresses(s.hostPrefix, Builder([], 1, None, None), hosts);
    FreshHosts(s, built);
    RebuildIsIdle(s.hostPrefix, hosts);
    AssignTwice(s, EMPTY_CONFIG, built);
    AddRunSaves(s, saved, args, built);
  }

  lemma AddRunSaves(s: Settings, c: Config, args: seq<string>, built: Table)
    requires args != [] && args[0] != ""
    requires ExpandAll(args).Ok? && Build(s.hostPrefix, c.hosts, ExpandAll(args).value) == Ok(built)
    ensures Run(s, Some(c), ["add"] + args) == Ok(Assign(s, c, built))
  {
    var all := ["add"] + args;
    assert all[0] == "add" && all[1..] == args;
    AddIsNoOtherCommand();
  }

  lemma AddIsNoOtherCommand()
    ensures "add" !in OTHER_COMMANDS
  {
    forall w | w in OTHER_COMMANDS ensures w != "" && w[0] != 'a' {
    }
  }

  // ---------- a fresh run at scale ----------

  /** Etcd, control plane and nodes as a division of the host list, as the size thresholds ask for it. */
  ghost predicate DividedRoles(s: Settings, c: Config) {
    var names := Keys(c.hosts);
    c.calicoRr == c.etcd && |c.etcd| == Min(EtcdCount(|names|), |names|)
    && |c.controlPlane| == Min(s.controlHosts, |names| - |c.etcd|)
    && if |names| >= s.massiveScale then c.etcd + c.controlPlane + c.node == names
       else c.etcd + c.node == names && c.controlPlane <= c.node
  }

  lemma {:induction false} SlicesJoin(names: seq<string>, e: nat, m: nat)
    requires e <= m <= |names|
    ensures names[..e] + names[e..m] + names[m..] == names && names[..e] + names[e..] == names
    ensures names[e..m] <= names[e..]
  {
    assert names[e..m] == names[e..][..m - e];
  }

  lemma {:induction false} SlicesDivide(s: Settings, c: Config, names: seq<string>, e: nat, m: nat)
    requires names == Keys(c.hosts)
    requires e == Min(EtcdCount(|names|), |names|) && m == Min(EtcdCount(|names|) + s.controlHosts, |names|)
    requires Sliced(s, c, names, e, m)
    ensures DividedRoles(s, c)
  {
    hide Keys, EtcdCount;
    assert e <= m;
    SlicesJoin(names, e, m);
  }

  /**
   A fresh run that ends at or above both thresholds splits the hosts into etcd, control plane and nodes, in
   this order and without remainder; at or above the scale threshold only, etcd stays apart from the two others
   and the control plane is among the nodes; calico_rr is the etcd slice in both cases. As the host names are
   distinct, parts that follow each other share no host.
   */
  lemma FreshRunAtScale(s: Settings, file: Option<Config>, args: seq<string>)
    requires Run(s, file, args).Ok? && !LoadsPrevious(args)
    requires "hosts" !in Keys(BuiltOf(s, file, args)) && |BuiltOf(s, file, args)| >= s.scale
    ensures DividedRoles(s, Run(s, file, args).value) && Unique(Run(s, file, args).value.hosts)
  {
    RunParts(s, file, args);
    BuildKeepsDistinctAddresses(s.hostPrefix, BuilderOf(s, file, args), HostsOf(args));
    var built := BuiltOf(s, file, args);
    var names := Keys(built);
    var e, m := Min(EtcdCount(|names|), |names|), Min(EtcdCount(|names|) + s.controlHosts, |names|);
    FreshScaleSlices(s, built, names, e, m);
    SlicesDivide(s, Run(s, file, args).value, names, e, m);
  }
}
