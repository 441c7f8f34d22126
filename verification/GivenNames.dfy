/** Which host names, given on the command line, can get in the way of generated names. */
module GivenNames {
  import opened Text
  import opened OrderedDict
  import opened Inventory
  import opened BuildLaws

  /** Every host name on the command line is `name`; addresses and deletions are free. */
  predicate OnlyGives(args: seq<string>, name: string) {
    forall i :: 0 <= i < |args| && args[i] != "" && IsAlpha(args[i][0]) ==> GivenName(args[i]) == name
  }

  // ---------- a command line on which a given name is overwritten ----------

  function Ones(k: nat): (s: string)
    ensures |s| == k && forall i :: 0 <= i < k ==> s[i] == '1'
  {
    seq(k, _ => '1')
  }

  /** Addresses that no host has yet: longer than everything in the table, and longer and longer. */
  function OnesFrom(k: nat, n: nat): seq<string>
    decreases n
  {
    if n == 0 then [] else [Ones(k)] + OnesFrom(k + 1, n - 1)
  }

  ghost predicate Unanswered(t: Table, k: nat) {
    k > 0 && forall i :: 0 <= i < |t| ==>
      |t[i].value.ip| < k && (|t[i].key| < k || !IsDigit(t[i].key[0]))
  }

  lemma {:induction false} Longest(t: Table) returns (k: nat)
    ensures k > 0 && forall i :: 0 <= i < |t| ==> |t[i].value.ip| < k && |t[i].key| < k
  {
    if t == [] {
      k := 1;
    } else {
      var rest := Longest(t[1..]);
      k := Max(rest, Max(|t[0].key|, |t[0].value.ip|) + 1);
      assert forall i :: 1 <= i < |t| ==> t[i] == t[1..][i - 1];
    }
  }

  lemma OnesStep(prefix: string, b: Builder, k: nat)
    requires Unanswered(b.table, k) && prefix != "" && !IsDigit(prefix[0])
    ensures var b' := Step(prefix, b, Ones(k));
      b'.Ok? && b'.value.nextId == b.nextId + 1 && Unanswered(b'.value.table, k + 1)
      && b'.value.table == Put(b.table, GeneratedName(prefix, b.nextId), HostOpts(Ones(k), Ones(k), Ones(k)))
  {
    var a := Ones(k);
    DigitsOnly(a, ',');
    assert Split(a, ',') == [a];
    assert GeneratedName(prefix, b.nextId)[0] == prefix[0];
    assert !Has(b.table, a) && !HasIp(b.table, a);
  }

  lemma {:induction false} NumbersReach(prefix: string, b: Builder, k: nat, m: nat)
    requires b.nextId <= m && Has(b.table, GeneratedName(prefix, m)) && Unanswered(b.table, k)
    requires prefix != "" && !IsDigit(prefix[0])
    ensures !AcceptedAddressesAppend(prefix, b, OnesFrom(k, m - b.nextId + 1))
    decreases m - b.nextId
  {
    hide Step, Put, Unanswered, GeneratedName, AcceptedAddressesAppend, Has;
    var args := OnesFrom(k, m - b.nextId + 1);
    var name := GeneratedName(prefix, b.nextId);
    assert args[0] == Ones(k) && args[1..] == OnesFrom(k + 1, m - b.nextId);
    OnesStep(prefix, b, k);
    if b.nextId < m {
      var b' := Step(prefix, b, Ones(k)).value;
      PutKeyIn(b.table, name, HostOpts(Ones(k), Ones(k), Ones(k)), GeneratedName(prefix, m));
      HasKey(b.table, GeneratedName(prefix, m));
      HasKey(b'.table, GeneratedName(prefix, m));
      NumbersReach(prefix, b', k + 1, m);
    }
    OverwriteNowOrLater(prefix, b, args);
  }

  lemma OverwriteNowOrLater(prefix: string, b: Builder, args: seq<string>)
    requires args != [] && Step(prefix, b, args[0]).Ok?
    requires var b' := Step(prefix, b, args[0]).value;
      (b'.nextId > b.nextId && Has(b.table, GeneratedName(prefix, b.nextId)))
      || !AcceptedAddressesAppend(prefix, b', args[1..])
    ensures !AcceptedAddressesAppend(prefix, b, args)
  {
    hide Step, GeneratedName;
    if Step(prefix, b, args[0]).value.nextId > b.nextId {
      AcceptedAppendsIff(prefix, b, args[0]);
    }
  }

  lemma NameThenAddress(prefix: string, b: Builder, name: string, k: nat)
    requires name != "" && IsAlpha(name[0]) && ',' !in name && k > 0
    requires forall i :: 0 <= i < |b.table| ==> |b.table[i].value.ip| < k && |b.table[i].key| < k
    ensures var b' := Step(prefix, b, name + [','] + Ones(k));
      b'.Ok? && b'.value.nextId == b.nextId && Has(b'.value.table, name) && Unanswered(b'.value.table, k + 1)
  {
    hide Step, Put, Unanswered, Has, HasIp, GeneratedName;
    var ip := Ones(k);
    DigitsOnly(ip, ',');
    TooLong(b.table, k, name + [','] + ip, ip);
    NamedAddressMeans(prefix, b, name, ip);
    PutKeys(b.table, name, HostOpts(ip, ip, ip));
    StillUnanswered(b.table, k, name, HostOpts(ip, ip, ip));
  }

  lemma TooLong(t: Table, k: nat, name: string, ip: string)
    requires forall i :: 0 <= i < |t| ==> |t[i].value.ip| < k && |t[i].key| < k
    requires |name| >= k && |ip| >= k
    ensures !Has(t, name) && !HasIp(t, ip)
  {
  }

  lemma StillUnanswered(t: Table, k: nat, name: string, o: HostOpts)
    requires forall i :: 0 <= i < |t| ==> |t[i].value.ip| < k && |t[i].key| < k
    requires name != "" && IsAlpha(name[0]) && |o.ip| == k
    ensures Unanswered(Put(t, name, o), k + 1)
  {
  }

  lemma {:induction false} OnesGiveNoName(k: nat, n: nat, name: string)
    requires k > 0
    ensures OnlyGives(OnesFrom(k, n), name)
    decreases n
  {
    if n > 0 {
      var args, rest := OnesFrom(k, n), OnesFrom(k + 1, n - 1);
      OnesGiveNoName(k + 1, n - 1, name);
      assert forall i :: 1 <= i < |args| ==> args[i] == rest[i - 1];
      assert args[0] == Ones(k);
    }
  }

  lemma NameStartsWith(prefix: string, m: nat)
    ensures prefix != "" ==> GeneratedName(prefix, m)[0] == prefix[0]
    ensures prefix == "" ==> IsDigit(GeneratedName(prefix, m)[0])
  {
    assert prefix == "" ==> GeneratedName(prefix, m) == ToDecimal(m);
  }

  /** A given name with a number still to come is overwritten by some command line that gives no other name. */
  lemma OverwritingArguments(prefix: string, existing: Table, m: nat) returns (args: seq<string>)
    requires StartBuilder(prefix, existing).Ok? && m >= StartBuilder(prefix, existing).value.nextId
    requires var name := GeneratedName(prefix, m); IsAlpha(name[0]) && ',' !in name
    ensures OnlyGives(args, GeneratedName(prefix, m))
    ensures !AcceptedAddressesAppend(prefix, StartBuilder(prefix, existing).value, args)
  {
    hide Step, Unanswered, OnlyGives;
    var name, b := GeneratedName(prefix, m), StartBuilder(prefix, existing).value;
    NameStartsWith(prefix, m);
    var k := Longest(existing);
    var first, rest := name + [','] + Ones(k), OnesFrom(k + 1, m - b.nextId + 1);
    args := [first] + rest;
    NameThenAddress(prefix, b, name, k);
    NumbersReach(prefix, Step(prefix, b, first).value, k + 1, m);
    assert args[0] == first && args[1..] == rest;
    OnesGiveNoName(k + 1, m - b.nextId + 1, name);
    OneNameFirst(name, Ones(k), rest);
  }

  lemma OneNameFirst(name: string, ip: string, rest: seq<string>)
    requires ',' !in name && OnlyGives(rest, name)
    ensures OnlyGives([name + [','] + ip] + rest, name)
  {
    hide Split;
    var args := [name + [','] + ip] + rest;
    SplitAtSeparator(name, ',', ip);
    assert forall i :: 1 <= i < |args| ==> args[i] == rest[i - 1];
  }

  /** Enough new addresses generate every name with a number still to come. */
  lemma {:induction false} NumberIsGenerated(prefix: string, b: Builder, k: nat, m: nat)
    requires b.nextId <= m && Unanswered(b.table, k) && prefix != "" && !IsDigit(prefix[0])
    ensures GeneratedName(prefix, m) in GeneratedNames(prefix, b, OnesFrom(k, m - b.nextId + 1))
    decreases m - b.nextId
  {
    hide Step, Put, Unanswered, GeneratedName;
    var args := OnesFrom(k, m - b.nextId + 1);
    assert args[0] == Ones(k) && args[1..] == OnesFrom(k + 1, m - b.nextId);
    OnesStep(prefix, b, k);
    if b.nextId < m {
      NumberIsGenerated(prefix, Step(prefix, b, Ones(k)).value, k + 1, m);
    }
  }

  lemma GeneratingArguments(prefix: string, existing: Table, m: nat) returns (args: seq<string>)
    requires StartBuilder(prefix, existing).Ok? && m >= StartBuilder(prefix, existing).value.nextId
    requires IsAlpha(GeneratedName(prefix, m)[0])
    ensures GeneratedName(prefix, m) in GeneratedNames(prefix, StartBuilder(prefix, existing).value, args)
  {
    var b := StartBuilder(prefix, existing).value;
    NameStartsWith(prefix, m);
    var k := Longest(existing);
    NumberIsGenerated(prefix, b, k, m);
    args := OnesFrom(k, m - b.nextId + 1);
  }

  /**
   A host name on the command line is never generated as well, whatever else stands there, other given names
   included, if and only if it is not a generated name with a number above the highest loaded one.
   */
  lemma GivenNameIsHarmlessIff(prefix: string, existing: Table, name: string)
    requires '.' !in prefix && StartBuilder(prefix, existing).Ok?
    requires name != "" && IsAlpha(name[0])
    ensures (forall args :: name !in GeneratedNames(prefix, StartBuilder(prefix, existing).value, args))
       <==> name !in NumbersFrom(prefix, HighestId(prefix, Keys(existing), 0).value + 1)
  {
    hide GeneratedNames, GeneratedName;
    var first := HighestId(prefix, Keys(existing), 0).value + 1;
    var b := StartBuilder(prefix, existing).value;
    if name in NumbersFrom(prefix, first) {
      var m: nat :| first <= m && name == GeneratedName(prefix, m);
      var args := GeneratingArguments(prefix, existing, m);
    } else {
      forall args ensures name !in GeneratedNames(prefix, b, args) {
        NumberedInOrder(prefix, b, args);
      }
    }
  }

  /** It is then overwritten by one, too, on a command line that gives no other name; and otherwise on none such. */
  lemma GivenNameIsKeptIff(prefix: string, existing: Table, name: string)
    requires '.' !in prefix && StartBuilder(prefix, existing).Ok?
    requires name != "" && IsAlpha(name[0]) && ',' !in name
    ensures (forall args :: OnlyGives(args, name) ==>
              AcceptedAddressesAppend(prefix, StartBuilder(prefix, existing).value, args))
       <==> name !in NumbersFrom(prefix, HighestId(prefix, Keys(existing), 0).value + 1)
  {
    hide GivenName, AcceptedAddressesAppend;
    var first := HighestId(prefix, Keys(existing), 0).value + 1;
    var b := StartBuilder(prefix, existing).value;
    if name in NumbersFrom(prefix, first) {
      var m: nat :| first <= m && name == GeneratedName(prefix, m);
      var args := OverwritingArguments(prefix, existing, m);
      assert OnlyGives(args, name) && !AcceptedAddressesAppend(prefix, b, args);
    } else {
      forall args | OnlyGives(args, name) ensures AcceptedAddressesAppend(prefix, b, args) {
        AcceptedAddressesAppendIf(prefix, existing, args);
      }
    }
  }
}
