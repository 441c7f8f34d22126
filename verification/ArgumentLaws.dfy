/** What each kind of argument does, and which command lines save. */
module ArgumentLaws {
  import opened Text
  import opened Outcomes
  import opened OrderedDict
  import opened Ranges
  import opened Inventory
  import opened BuildLaws

  // ---------- deletions, known arguments, bare names ----------

  /** `-x` removes the host named `x`; only when there is none, the host with the address `x`; nothing else. */
  lemma DeletionMeans(prefix: string, b: Builder, x: string)
    requires Unique(b.table) && DistinctIps(b.table)
    ensures var after := Step(prefix, b, ['-'] + x);
      after.Ok?
      && after.value == b.(table := after.value.table)
      && forall e :: e in after.value.table <==> e in b.table && if Has(b.table, x) then e.key != x else e.value.ip != x
  {
    hide Deleted;
    assert (['-'] + x)[1..] == x;
    forall e
      ensures e in Deleted(b.table, x) <==> e in b.table && if Has(b.table, x) then e.key != x else e.value.ip != x
    {
      DeletedMeans(b.table, x, e);
    }
  }

  /** An argument that is itself a host name adds nothing. */
  lemma KnownArgumentIsSkipped(prefix: string, b: Builder, arg: string)
    requires arg != "" && (IsDigit(arg[0]) || IsAlpha(arg[0])) && Has(b.table, arg)
    ensures Step(prefix, b, arg).Ok? ==>
      Step(prefix, b, arg).value.table == b.table && Step(prefix, b, arg).value.nextId == b.nextId
  {
  }

  /** An argument that starts with neither a dash, a digit nor a letter is passed over. */
  lemma OtherArgumentIsSkipped(prefix: string, b: Builder, arg: string)
    requires arg != "" && arg[0] != '-' && !IsDigit(arg[0]) && !IsAlpha(arg[0])
    ensures Step(prefix, b, arg) == Ok(b)
  {
  }

  /** What an argument leaves for a later name without a comma: addresses their address, names also their name. */
  lemma ArgumentsLeaveVariables(prefix: string, b: Builder, name: string, ip: string, access: string)
    requires ',' !in name && ',' !in ip && ',' !in access
    ensures ip != "" && IsDigit(ip[0]) ==>
      var after := Step(prefix, b, ip + [','] + access);
      after.Ok? && after.value.hostname == b.hostname && after.value.address == Some(HostOpts(access, ip, access))
    ensures name != "" && IsAlpha(name[0]) ==>
      var after := Step(prefix, b, name + [','] + (ip + [','] + access));
      after.Ok? && after.value.hostname == Some(name) && after.value.address == Some(HostOpts(access, ip, access))
  {
    SplitAtSeparator(ip, ',', access);
    assert Split(ip + [','] + access, ',') == [ip, access];
    if ip != "" {
      assert (ip + [','] + access)[0] == ip[0];
    }
    if name != "" {
      var arg := name + [','] + (ip + [','] + access);
      SplitAtSeparator(name, ',', ip + [','] + access);
      assert Split(arg, ',') == [name, ip, access] && arg[0] == name[0];
    }
  }

  /** A name without a comma writes, under the last name that came with an address, the last address read. */
  lemma BareNameMeans(prefix: string, b: Builder, arg: string)
    requires arg != "" && IsAlpha(arg[0]) && ',' !in arg && !Has(b.table, arg)
    ensures Step(prefix, b, arg) ==
      if b.address.None? then Fail(UnboundVariable)
      else if HasIp(b.table, b.address.value.ip) then Ok(b)
      else if b.hostname.None? then Fail(UnboundVariable)
      else Ok(b.(table := Put(b.table, b.hostname.value, b.address.value)))
  {
    hide Split, Put, Has, HasIp;
    assert Split(arg, ',') == [arg];
  }

  // ---------- ranges ----------

  /** Stripping takes the space around a text and nothing else. */
  lemma {:induction false} StripMeans(s: string) returns (left: string, right: string)
    ensures s == left + Strip(s) + right
    ensures forall c :: c in left || c in right ==> IsSpace(c)
    ensures Strip(s) != "" ==> !IsSpace(Strip(s)[0]) && !IsSpace(Strip(s)[|Strip(s)| - 1])
    decreases |s|
  {
    if s == "" {
      left, right := "", "";
    } else if IsSpace(s[0]) {
      var l;
      l, right := StripMeans(s[1..]);
      left := [s[0]] + l;
      assert s == [s[0]] + s[1..];
    } else if IsSpace(s[|s| - 1]) {
      var r;
      left, r := StripMeans(s[..|s| - 1]);
      right := r + [s[|s| - 1]];
      assert s == s[..|s| - 1] + [s[|s| - 1]];
    } else {
      left, right := "", "";
    }
  }

  /** Names, deletions and arguments without a dash are no ranges and stay as they are. */
  lemma NoRangeStays(arg: string)
    requires arg != "" && (IsAlpha(arg[0]) || arg[0] == '-' || '-' !in arg)
    ensures ExpandArgument(arg) == Ok([arg])
  {
  }

  /** The text between spaces is two printed addresses around a dash. */
  ghost predicate IsSpan(arg: string, lo: nat, hi: nat) {
    lo < ADDRESSES && hi < ADDRESSES && Strip(arg) == PrintIp(lo) + ['-'] + PrintIp(hi)
  }

  /** Any other argument with a dash is a range: it gives the addresses of its span, or fails when it is none. */
  lemma RangeMeans(arg: string)
    requires arg != "" && !IsAlpha(arg[0]) && arg[0] != '-' && '-' in arg
    ensures ExpandArgument(arg).Ok? <==> exists lo: nat, hi: nat :: IsSpan(arg, lo, hi)
    ensures ExpandArgument(arg).Fail? ==> ExpandArgument(arg) == Fail(BadRange)
    ensures forall lo: nat, hi: nat :: IsSpan(arg, lo, hi) ==> ExpandArgument(arg) == Ok(IpRange(lo, hi))
  {
    hide Strip, PrintIp, ParseIp, Split, IpRange;
    if ExpandArgument(arg).Ok? {
      var ends := Split(Strip(arg), '-');
      TwoParts(Strip(arg), '-');
      ParsedAddressPrints(ends[0]);
      ParsedAddressPrints(ends[1]);
      assert IsSpan(arg, ParseIp(ends[0]).value, ParseIp(ends[1]).value);
    }
    forall lo: nat, hi: nat | IsSpan(arg, lo, hi) ensures ExpandArgument(arg) == Ok(IpRange(lo, hi)) {
      SpanExpands(arg, lo, hi);
    }
  }

  lemma TwoParts(s: string, sep: char)
    requires |Split(s, sep)| == 2
    ensures s == Split(s, sep)[0] + [sep] + Split(s, sep)[1]
  {
    JoinOfSplit(s, sep);
    var parts := Split(s, sep);
    assert parts[1..] == [parts[1]];
  }

  lemma SpanExpands(arg: string, lo: nat, hi: nat)
    requires arg != "" && !IsAlpha(arg[0]) && arg[0] != '-' && '-' in arg && IsSpan(arg, lo, hi)
    ensures ExpandArgument(arg) == Ok(IpRange(lo, hi))
  {
    hide Strip, PrintIp, ParseIp, Split, IpRange;
    PrintedAddressShape(lo);
    PrintedAddressShape(hi);
    PrintedAddressParses(lo);
    PrintedAddressParses(hi);
    assert '-' !in PrintIp(lo) && '-' !in PrintIp(hi);
    SplitAtSeparator(PrintIp(lo), '-', PrintIp(hi));
    assert Split(PrintIp(hi), '-') == [PrintIp(hi)];
  }

  lemma IpRangeMeans(lo: nat, hi: nat)
    requires lo < ADDRESSES && hi < ADDRESSES
    ensures |IpRange(lo, hi)| == if lo <= hi then hi - lo + 1 else 0
    ensures forall i :: 0 <= i < |IpRange(lo, hi)| ==> IpRange(lo, hi)[i] == PrintIp(lo + i)
  {
  }

  // ---------- which command lines save ----------

  /** An argument that the loop over the hosts accepts, if names come with a comma. */
  predicate StepFits(arg: string) {
    arg != "" && (IsDigit(arg[0]) ==> |Split(arg, ',')| <= 2) && (IsAlpha(arg[0]) ==> |Split(arg, ',')| <= 3)
  }

  ghost predicate NamesCarryAddresses(args: seq<string>) {
    forall i :: 0 <= i < |args| && args[i] != "" && IsAlpha(args[i][0]) ==> ',' in args[i]
  }

  lemma StepOkIff(prefix: string, b: Builder, arg: string)
    requires NamesCarryAddresses([arg])
    ensures Step(prefix, b, arg).Ok? <==> StepFits(arg)
  {
    hide Put, Has, HasIp;
    assert [arg][0] == arg;
  }

  lemma {:induction false} StepsOkIff(prefix: string, b: Builder, args: seq<string>)
    requires NamesCarryAddresses(args)
    ensures Steps(prefix, b, args).Ok? <==> forall i :: 0 <= i < |args| ==> StepFits(args[i])
    decreases |args|
  {
    hide Step, StepFits;
    if args != [] {
      assert args == [args[0]] + args[1..];
      assert NamesCarryAddresses([args[0]]) by { assert [args[0]][0] == args[0]; }
      StepOkIff(prefix, b, args[0]);
      assert forall i :: 0 <= i < |args[1..]| ==> args[1..][i] == args[i + 1];
      if Step(prefix, b, args[0]).Ok? {
        StepsOkIff(prefix, Step(prefix, b, args[0]).value, args[1..]);
        if Steps(prefix, b, args).Ok? {
          forall i | 0 <= i < |args| ensures StepFits(args[i]) {
            if i > 0 { assert args[i] == args[1..][i - 1]; }
          }
        }
      }
    }
  }

  ghost predicate AllStepFits(args: seq<string>) {
    forall i :: 0 <= i < |args| ==> StepFits(args[i])
  }

  /** A host argument as it may stand on the command line. */
  ghost predicate Fits(arg: string) {
    arg != ""
    && (if IsAlpha(arg[0]) then |Split(arg, ',')| <= 3
        else if arg[0] != '-' && '-' in arg then exists lo: nat, hi: nat :: IsSpan(arg, lo, hi)
        else IsDigit(arg[0]) ==> |Split(arg, ',')| <= 2)
  }

  lemma RangeFits(lo: nat, hi: nat)
    requires lo < ADDRESSES && hi < ADDRESSES
    ensures forall i :: 0 <= i < |IpRange(lo, hi)| ==> StepFits(IpRange(lo, hi)[i]) && !IsAlpha(IpRange(lo, hi)[i][0])
  {
    var ips := IpRange(lo, hi);
    forall i | 0 <= i < |ips| ensures StepFits(ips[i]) && !IsAlpha(ips[i][0]) {
      PrintedAddressShape(lo + i);
      assert ips[i] == PrintIp(lo + i) && ',' !in ips[i];
    }
  }

  lemma OneFitsIff(arg: string)
    requires arg != ""
    ensures Fits(arg) <==> ExpandArgument(arg).Ok? && AllStepFits(ExpandArgument(arg).value)
    ensures ExpandArgument(arg).Ok? && NamesCarryAddresses([arg]) ==> NamesCarryAddresses(ExpandArgument(arg).value)
  {
    hide Split, IsSpan, Strip, ParseIp, PrintIp, IpRange;
    if IsAlpha(arg[0]) || arg[0] == '-' || '-' !in arg {
      NoRangeStays(arg);
      assert [arg][0] == arg;
    } else {
      RangeMeans(arg);
      forall lo: nat, hi: nat | IsSpan(arg, lo, hi)
        ensures lo < ADDRESSES && hi < ADDRESSES && ExpandArgument(arg) == Ok(IpRange(lo, hi))
        ensures forall i :: 0 <= i < |IpRange(lo, hi)| ==>
          StepFits(IpRange(lo, hi)[i]) && !IsAlpha(IpRange(lo, hi)[i][0])
      {
        SpanIsInRange(arg, lo, hi);
        RangeFits(lo, hi);
      }
    }
  }

  lemma SpanIsInRange(arg: string, lo: nat, hi: nat)
    requires IsSpan(arg, lo, hi)
    ensures lo < ADDRESSES && hi < ADDRESSES
  {
  }

  lemma {:induction false} AllFitIff(args: seq<string>)
    requires NamesCarryAddresses(args)
    ensures (forall i :: 0 <= i < |args| ==> Fits(args[i]))
       <==> ExpandAll(args).Ok? && AllStepFits(ExpandAll(args).value)
    ensures ExpandAll(args).Ok? ==> NamesCarryAddresses(ExpandAll(args).value)
  {
    hide ExpandArgument, Fits, StepFits;
    if args != [] {
      var rest := args[1..];
      assert forall i :: 0 <= i < |rest| ==> rest[i] == args[i + 1];
      AllFitIff(rest);
      FirstFitsIff(args[0]);
      assert (forall i :: 0 <= i < |args| ==> Fits(args[i]))
        <==> Fits(args[0]) && forall i :: 0 <= i < |rest| ==> Fits(rest[i]) by {
        if Fits(args[0]) && forall i :: 0 <= i < |rest| ==> Fits(rest[i]) {
          forall i | 0 <= i < |args| ensures Fits(args[i]) {
            if i > 0 { assert args[i] == rest[i - 1]; }
          }
        }
      }
      assert NamesCarryAddresses([args[0]]) by { assert [args[0]][0] == args[0]; }
      if ExpandArgument(args[0]).Ok? && ExpandAll(rest).Ok? {
        FitsAppend(ExpandArgument(args[0]).value, ExpandAll(rest).value);
      }
    }
  }

  lemma FirstFitsIff(arg: string)
    ensures Fits(arg) <==> ExpandArgument(arg).Ok? && AllStepFits(ExpandArgument(arg).value)
    ensures ExpandArgument(arg).Ok? && NamesCarryAddresses([arg]) ==> NamesCarryAddresses(ExpandArgument(arg).value)
  {
    if arg == "" {
      assert ExpandArgument(arg) == Ok([arg]) && [arg][0] == "";
    } else {
      OneFitsIff(arg);
    }
  }

  lemma FitsAppend(a: seq<string>, b: seq<string>)
    ensures AllStepFits(a + b) <==> AllStepFits(a) && AllStepFits(b)
    ensures NamesCarryAddresses(a) && NamesCarryAddresses(b) ==> NamesCarryAddresses(a + b)
  {
    hide StepFits;
    assert forall i :: 0 <= i < |a| ==> (a + b)[i] == a[i];
    assert forall i :: 0 <= i < |b| ==> (a + b)[|a| + i] == b[i];
  }

  /** The invocation is no other command, names at least one host, and finds the file when it needs it. */
  predicate ReachesBuilder(file: Option<Config>, args: seq<string>) {
    args != [] && args[0] !in OTHER_COMMANDS && ChangedHosts(args) != [] && (LoadsPrevious(args) ==> file.Some?)
  }

  /** Every loaded host with the prefix has a number. */
  ghost predicate LoadsNumbers(s: Settings, file: Option<Config>, args: seq<string>)
    requires LoadsPrevious(args) ==> file.Some?
  {
    LoadsPrevious(args) ==> forall n :: n in Keys(file.value.hosts) && s.hostPrefix <= n ==> HostId(n).Some?
  }

  /** Whatever the arguments are, a run saves only if it names a host and finds the file it adds to or deletes from. */
  lemma RunSavesOnlyIf(s: Settings, file: Option<Config>, args: seq<string>)
    requires Run(s, file, args).Ok?
    ensures ReachesBuilder(file, args) && LoadsNumbers(s, file, args)
  {
    hide ExpandAll, Steps, Assign, HostId;
    var start := Loaded(file, args).value;
    HighestIdIsMaximum(s.hostPrefix, Keys(start.hosts));
  }

  /** If names come with a comma, a run saves exactly when also every argument fits. */
  lemma RunSavesIff(s: Settings, file: Option<Config>, args: seq<string>)
    requires NamesCarryAddresses(ChangedHosts(args))
    ensures Run(s, file, args).Ok? <==>
      ReachesBuilder(file, args) && LoadsNumbers(s, file, args)
      && forall i :: 0 <= i < |ChangedHosts(args)| ==> Fits(ChangedHosts(args)[i])
  {
    hide Run, ExpandAll, Build, HostId, Fits, Keys, ReachesBuilder;
    var hosts := ChangedHosts(args);
    if Run(s, file, args).Ok? {
      RunSavesOnlyIf(s, file, args);
    }
    if ReachesBuilder(file, args) {
      FirstHostIsNotEmpty(file, args);
      AllFitIff(hosts);
      if ExpandAll(hosts).Ok? {
        BuildOkIff(s.hostPrefix, Loaded(file, args).value.hosts, ExpandAll(hosts).value);
      }
      ReachedRun(s, file, args);
      LoadedNumbers(s, file, args);
    }
  }

  lemma FirstHostIsNotEmpty(file: Option<Config>, args: seq<string>)
    requires ReachesBuilder(file, args)
    ensures Loaded(file, args).Ok? && ChangedHosts(args) != []
    ensures ChangedHosts(args)[0] == "" ==> !Fits(ChangedHosts(args)[0])
  {
  }

  lemma ReachedRun(s: Settings, file: Option<Config>, args: seq<string>)
    requires ReachesBuilder(file, args) && Loaded(file, args).Ok?
    ensures Run(s, file, args).Ok? <==>
      ChangedHosts(args)[0] != "" && ExpandAll(ChangedHosts(args)).Ok?
      && Build(s.hostPrefix, Loaded(file, args).value.hosts, ExpandAll(ChangedHosts(args)).value).Ok?
  {
    hide ExpandAll, Build, Assign;
  }

  lemma LoadedNumbers(s: Settings, file: Option<Config>, args: seq<string>)
    requires ReachesBuilder(file, args)
    ensures LoadsNumbers(s, file, args)
       <==> forall n :: n in Keys(Loaded(file, args).value.hosts) && s.hostPrefix <= n ==> HostId(n).Some?
  {
    hide HostId;
    assert Keys(EMPTY_CONFIG.hosts) == [];
  }

  lemma BuildOkIff(prefix: string, existing: Table, hosts: seq<string>)
    requires NamesCarryAddresses(hosts)
    ensures Build(prefix, existing, hosts).Ok?
       <==> (forall n :: n in Keys(existing) && prefix <= n ==> HostId(n).Some?) && AllStepFits(hosts)
  {
    hide HighestId, HostId, Keys, Steps, StepFits;
    HighestIdIsMaximum(prefix, Keys(existing));
    if StartBuilder(prefix, existing).Ok? {
      StepsOkIff(prefix, StartBuilder(prefix, existing).value, hosts);
    } else {
      HighestIdFrom(prefix, Keys(existing), 0);
    }
  }

  /** Without a host the program shows its usage, or says that there is no file to add to; a command only prints. */
  lemma RunWithoutHosts(s: Settings, file: Option<Config>)
    ensures Run(s, file, []) == Fail(HelpShown)
    ensures Run(s, file, ["add"]) == Fail(if file.Some? then HelpShown else NoConfigFile)
    ensures forall args :: args != [] && args[0] in OTHER_COMMANDS ==> Run(s, file, args) == Fail(CommandOnly)
  {
    assert "add"[0] == 'a';
    assert ["add"][1..] == [];
    assert forall w :: w in OTHER_COMMANDS ==> w[0] != 'a';
  }

  /** The file changes only when a run saves; and then it is what the run saved. */
  lemma FileChangesOnlyBySaving(s: Settings, file: Option<Config>, args: seq<string>)
    ensures FileAfter(s, file, args) != file ==> Run(s, file, args).Ok? && ReachesBuilder(file, args)
    ensures Run(s, file, args).Ok? ==> FileAfter(s, file, args) == Some(Run(s, file, args).value)
    ensures FileAfter(s, file, []) == FileAfter(s, file, ["add"]) == file
  {
    hide Run;
    RunWithoutHosts(s, file);
    if Run(s, file, args).Ok? {
      RunSavesOnlyIf(s, file, args);
    }
  }
}
