/** What `build_hostnames` keeps at every step and what it produces, for all argument lists. */
module BuildLaws {
  import opened Text
  import opened Outcomes
  import opened OrderedDict
  import opened Inventory
  import opened NameLists

  // ---------- the three ways a step changes the table ----------

  lemma {:induction false} RemoveAtKeys(t: Table, i: nat)
    requires Unique(t) && i < |t|
    ensures Keys(RemoveAt(t, i)) == Keep(Keys(t), ToSet(Keys(t)) - {t[i].key})
  {
    hide Keys, Keep;
    var a, b := t[..i], t[i + 1..];
    KeysAppend(a, b);
    assert Keys(a) == Keys(t)[..i];
    assert Keys(b) == Keys(t)[i + 1..];
    UniqueKeys(t);
    KeepAllBut(Keys(t), i);
  }

  ghost predicate DistinctIps(t: Table) {
    forall i, j :: 0 <= i < j < |t| ==> t[i].value.ip != t[j].value.ip
  }

  /** A step leaves the table alone, deletes one host, or writes one host whose address is new. */
  ghost predicate TableStep(t: Table, t': Table) {
    t' == t
    || (exists i :: 0 <= i < |t| && t' == RemoveAt(t, i))
    || (exists k: string, o: HostOpts :: !HasIp(t, o.ip) && t' == Put(t, k, o))
  }

  lemma StepIsTableStep(prefix: string, b: Builder, arg: string)
    requires Step(prefix, b, arg).Ok?
    ensures TableStep(b.table, Step(prefix, b, arg).value.table)
  {
    if arg[0] == '-' {
      if Has(b.table, arg[1..]) {
        assert Deleted(b.table, arg[1..]) == RemoveAt(b.table, IndexOf(b.table, arg[1..]));
      }
    }
  }

  lemma RemoveAtKeeps(t: Table, i: nat)
    requires i < |t|
    ensures Unique(t) ==> Unique(RemoveAt(t, i))
    ensures DistinctIps(t) ==> DistinctIps(RemoveAt(t, i))
  {
    var t' := RemoveAt(t, i);
    assert forall j :: 0 <= j < |t'| ==> t'[j] == t[if j < i then j else j + 1];
  }

  lemma PutKeepsIps(t: Table, k: string, o: HostOpts)
    requires DistinctIps(t) && !HasIp(t, o.ip)
    ensures DistinctIps(Put(t, k, o))
  {
  }

  lemma TableStepKeeps(t: Table, t': Table)
    requires TableStep(t, t') && Unique(t)
    ensures Unique(t')
    ensures DistinctIps(t) ==> DistinctIps(t')
  {
    if i :| 0 <= i < |t| && t' == RemoveAt(t, i) {
      RemoveAtKeeps(t, i);
    } else if k: string, o: HostOpts :| !HasIp(t, o.ip) && t' == Put(t, k, o) {
      PutKeys(t, k, o);
      if DistinctIps(t) {
        PutKeepsIps(t, k, o);
      }
    }
  }

  /** Names stay unique, and addresses pairwise distinct, through every argument list. */
  lemma {:induction false} BuildKeepsDistinctAddresses(prefix: string, b: Builder, args: seq<string>)
    requires Unique(b.table)
    requires Steps(prefix, b, args).Ok?
    ensures var b' := Steps(prefix, b, args).value;
      Unique(b'.table) && (DistinctIps(b.table) ==> DistinctIps(b'.table))
    decreases |args|
  {
    hide Step, Unique, DistinctIps;
    if args != [] {
      var b' := Step(prefix, b, args[0]).value;
      StepIsTableStep(prefix, b, args[0]);
      TableStepKeeps(b.table, b'.table);
      BuildKeepsDistinctAddresses(prefix, b', args[1..]);
    }
  }

  // ---------- what the arguments mean ----------

  lemma RemoveAtEntries(t: Table, i: nat, e: Entry<string, HostOpts>)
    requires Unique(t) && i < |t|
    ensures e in RemoveAt(t, i) <==> e in t && e != t[i]
  {
    var t' := RemoveAt(t, i);
    assert forall j :: 0 <= j < |t'| ==> t'[j] == t[if j < i then j else j + 1];
    if e in t && e != t[i] {
      var j :| 0 <= j < |t| && t[j] == e;
      assert t'[if j < i then j else j - 1] == e;
    }
  }

  /** Deleting removes the host of that name; only when there is none, the host of that address; nothing else. */
  lemma DeletedMeans(t: Table, x: string, e: Entry<string, HostOpts>)
    requires Unique(t) && DistinctIps(t)
    ensures e in Deleted(t, x) <==> e in t && if Has(t, x) then e.key != x else e.value.ip != x
  {
    if Has(t, x) {
      RemoveAtEntries(t, IndexOf(t, x), e);
    } else if HasIp(t, x) {
      RemoveAtEntries(t, IndexOfIp(t, x), e);
    }
  }

  /** `ip,access`: unless the address is known, a generated host with both addresses. */
  lemma AddressPairMeans(prefix: string, b: Builder, ip: string, access: string)
    requires ip != "" && IsDigit(ip[0]) && ',' !in ip && ',' !in access
    requires !Has(b.table, ip + [','] + access)
    ensures var b' := Step(prefix, b, ip + [','] + access);
      b'.Ok? && b'.value.table == if HasIp(b.table, ip) then b.table
        else Put(b.table, GeneratedName(prefix, b.nextId), HostOpts(access, ip, access))
  {
    var arg := ip + [','] + access;
    SplitAtSeparator(ip, ',', access);
    assert Split(arg, ',') == [ip, access] && arg[0] == ip[0];
  }

  /** `name,ip`: the address is the access address too. */
  lemma NamedAddressMeans(prefix: string, b: Builder, name: string, ip: string)
    requires name != "" && IsAlpha(name[0]) && ',' !in name && ',' !in ip
    requires !Has(b.table, name + [','] + ip)
    ensures var opts := HostOpts(ip, ip, ip);
      Step(prefix, b, name + [','] + ip)
      == Ok(Builder(if HasIp(b.table, ip) then b.table else Put(b.table, name, opts), b.nextId, Some(name), Some(opts)))
  {
    hide Put, HasIp, Has, Split;
    var arg := name + [','] + ip;
    SplitAtSeparator(name, ',', ip);
    assert Split(arg, ',') == [name, ip] && arg[0] == name[0];
  }

  /** `name,ip,access`: unless the address is known, a host of that name, new or overwritten in its place. */
  lemma NamedHostMeans(prefix: string, b: Builder, name: string, ip: string, access: string)
    requires name != "" && IsAlpha(name[0]) && ',' !in name && ',' !in ip && ',' !in access
    requires !Has(b.table, name + [','] + (ip + [','] + access))
    ensures var b' := Step(prefix, b, name + [','] + (ip + [','] + access));
      b'.Ok? && b'.value.table == if HasIp(b.table, ip) then b.table
        else Put(b.table, name, HostOpts(access, ip, access))
  {
    var arg := name + [','] + (ip + [','] + access);
    SplitAtSeparator(name, ',', ip + [','] + access);
    SplitAtSeparator(ip, ',', access);
    assert Split(arg, ',') == [name, ip, access] && arg[0] == name[0];
  }

  // ---------- order ----------

  /** No step adds a name that the loaded inventory had: nothing deleted in this run comes back in it. */
  ghost predicate NeverReadds(prefix: string, loaded: seq<string>, b: Builder, args: seq<string>)
    decreases |args|
  {
    args != [] && Step(prefix, b, args[0]).Ok? ==>
      var b' := Step(prefix, b, args[0]).value;
      (forall k :: k in Keys(b'.table) && k !in Keys(b.table) ==> k !in loaded)
      && NeverReadds(prefix, loaded, b', args[1..])
  }

  lemma TableStepInOrder(loaded: seq<string>, t: Table, t': Table)
    requires TableStep(t, t') && Unique(t) && InOrder(loaded, Keys(t))
    requires forall k :: k in Keys(t') && k !in Keys(t) ==> k !in loaded
    ensures InOrder(loaded, Keys(t'))
  {
    hide Keys, Put, Keep, Unique, InOrder, HasIp;
    if i :| 0 <= i < |t| && t' == RemoveAt(t, i) {
      RemoveAtKeys(t, i);
      RemovalInOrder(loaded, Keys(t), Keys(t'), t[i].key);
    } else if k: string, o: HostOpts :| !HasIp(t, o.ip) && t' == Put(t, k, o) {
      PutKeys(t, k, o);
      HasKey(t, k);
      if !Has(t, k) {
        AppendInOrder(loaded, Keys(t), k);
      }
    }
  }

  lemma {:induction false} RemovalInOrder(loaded: seq<string>, names: seq<string>, names': seq<string>, x: string)
    requires InOrder(loaded, names) && names' == Keep(names, ToSet(names) - {x})
    ensures InOrder(loaded, names')
  {
    hide Keep;
    var known := ToSet(names);
    var left := known - {x};
    KeepPrefix(Keep(loaded, known), names, left);
    KeepTwice(loaded, known, left);
    assert known * left == left;
    forall y | y in loaded ensures y in left <==> y in ToSet(names') {
      KeepIn(names, left, y);
    }
    KeepSame(loaded, left, ToSet(names'));
  }

  lemma {:induction false} AppendInOrder(loaded: seq<string>, names: seq<string>, x: string)
    requires InOrder(loaded, names) && x !in loaded
    ensures InOrder(loaded, names + [x])
  {
    hide Keep;
    KeepSame(loaded, ToSet(names), ToSet(names + [x]));
  }

  /** Without re-adding, the surviving loaded hosts keep their order and come before all new ones. */
  lemma {:induction false} BuildInOrder(prefix: string, loaded: seq<string>, b: Builder, args: seq<string>)
    requires Unique(b.table) && InOrder(loaded, Keys(b.table))
    requires Steps(prefix, b, args).Ok? && NeverReadds(prefix, loaded, b, args)
    ensures InOrder(loaded, Keys(Steps(prefix, b, args).value.table))
    decreases |args|
  {
    if args != [] {
      var b' := Step(prefix, b, args[0]).value;
      StepIsTableStep(prefix, b, args[0]);
      TableStepInOrder(loaded, b.table, b'.table);
      TableStepKeeps(b.table, b'.table);
      BuildInOrder(prefix, loaded, b', args[1..]);
    }
  }

  lemma InOrderRefl(names: seq<string>)
    ensures InOrder(names, names)
  {
    KeepEverything(names, ToSet(names));
  }

  // ---------- the names a run can introduce ----------

  function GivenName(arg: string): string {
    Split(arg, ',')[0]
  }

  /** No host name given on the command line is forbidden. */
  ghost predicate NamesAvoid(args: seq<string>, forbidden: iset<string>) {
    forall i :: 0 <= i < |args| && args[i] != "" && IsAlpha(args[i][0]) ==> GivenName(args[i]) !in forbidden
  }

  ghost predicate BuilderAvoids(b: Builder, forbidden: iset<string>) {
    (forall k :: k in Keys(b.table) ==> k !in forbidden)
    && (b.hostname.Some? ==> b.hostname.value !in forbidden)
  }

  lemma RemoveAtKeyIn(t: Table, i: nat, x: string)
    requires i < |t| && x in Keys(RemoveAt(t, i))
    ensures x in Keys(t)
  {
    var t' := RemoveAt(t, i);
    var j :| 0 <= j < |t'| && Keys(t')[j] == x;
    assert t'[j] == t[if j < i then j else j + 1];
    assert Keys(t)[if j < i then j else j + 1] == x;
  }

  lemma DeleteStepKeyIn(t: Table, name: string, x: string)
    requires x in Keys(Deleted(t, name))
    ensures x in Keys(t)
  {
    if Has(t, name) {
      RemoveAtKeyIn(t, IndexOf(t, name), x);
    } else if HasIp(t, name) {
      RemoveAtKeyIn(t, IndexOfIp(t, name), x);
    }
  }

  lemma StepAvoids(prefix: string, b: Builder, arg: string, forbidden: iset<string>)
    requires Step(prefix, b, arg).Ok? && BuilderAvoids(b, forbidden) && NamesAvoid([arg], forbidden)
    requires IsDigit(arg[0]) ==> GeneratedName(prefix, b.nextId) !in forbidden
    ensures BuilderAvoids(Step(prefix, b, arg).value, forbidden)
  {
    var b' := Step(prefix, b, arg).value;
    assert IsAlpha([arg][0][0]) ==> GivenName([arg][0]) !in forbidden;
    forall x | x in Keys(b'.table) ensures x !in forbidden {
      if arg[0] == '-' {
        DeleteStepKeyIn(b.table, arg[1..], x);
      } else if b'.table != b.table {
        if IsDigit(arg[0]) {
          PutKeyIn(b.table, GeneratedName(prefix, b.nextId), b'.address.value, x);
        } else {
          PutKeyIn(b.table, b'.hostname.value, b'.address.value, x);
        }
      }
    }
  }

  lemma {:induction false} BuildAvoids(prefix: string, b: Builder, args: seq<string>, forbidden: iset<string>)
    requires Steps(prefix, b, args).Ok? && BuilderAvoids(b, forbidden) && NamesAvoid(args, forbidden)
    requires forall id: nat :: GeneratedName(prefix, id) !in forbidden
    ensures BuilderAvoids(Steps(prefix, b, args).value, forbidden)
    decreases |args|
  {
    if args != [] {
      assert [args[0]][0] == args[0];
      StepAvoids(prefix, b, args[0], forbidden);
      assert forall i :: 0 <= i < |args[1..]| ==> args[1..][i] == args[i + 1];
      BuildAvoids(prefix, Step(prefix, b, args[0]).value, args[1..], forbidden);
    }
  }

  // ---------- generated names ----------

  /** The largest number on a host with the prefix, or zero when no such host has a larger one. */
  ghost predicate IsHighest(prefix: string, names: seq<string>, h: nat) {
    (h == 0 || exists n :: n in names && prefix <= n && HostId(n) == Some(h))
    && forall n :: n in names && prefix <= n ==> HostId(n).Some? && HostId(n).value <= h
  }

  lemma {:induction false} HighestIdFrom(prefix: string, names: seq<string>, highest: nat)
    ensures HighestId(prefix, names, highest).Ok? <==> forall n :: n in names && prefix <= n ==> HostId(n).Some?
    ensures HighestId(prefix, names, highest).Ok? ==>
      var h := HighestId(prefix, names, highest).value;
      h >= highest
      && (h == highest || exists n :: n in names && prefix <= n && HostId(n) == Some(h))
      && forall n :: n in names && prefix <= n ==> HostId(n).Some? && HostId(n).value <= h
    ensures HighestId(prefix, names, highest).Fail? ==> HighestId(prefix, names, highest) == Fail(BadHostName)
  {
    hide HostId;
    if names != [] {
      assert names[0] in names;
      assert forall n :: n in names <==> n == names[0] || n in names[1..];
      if !(prefix <= names[0]) {
        HighestIdFrom(prefix, names[1..], highest);
      } else if HostId(names[0]).Some? {
        var id := HostId(names[0]).value;
        HighestIdFrom(prefix, names[1..], if id > highest then id else highest);
      }
    }
  }

  /**
   The search finds the largest number of a loaded host with the prefix, and it fails, for want of a number, exactly
   when such a host has none.
   */
  lemma HighestIdIsMaximum(prefix: string, names: seq<string>)
    ensures (exists n :: n in names && prefix <= n && HostId(n).None?)
       <==> HighestId(prefix, names, 0) == Fail(BadHostName)
    ensures forall h: nat :: HighestId(prefix, names, 0) == Ok(h) <==> IsHighest(prefix, names, h)
  {
    hide HostId, HighestId;
    HighestIdFrom(prefix, names, 0);
    if HighestId(prefix, names, 0).Ok? {
      var found := HighestId(prefix, names, 0).value;
      forall h: nat | IsHighest(prefix, names, h) ensures h == found {
        if h > 0 {
          var n :| n in names && prefix <= n && HostId(n) == Some(h);
        }
        if found > 0 {
          var n :| n in names && prefix <= n && HostId(n) == Some(found);
        }
      }
    }
  }

  /** The number of a name stands at the end of its part before the first dot; leading zeros do not count. */
  lemma HostIdMeans(head: string, digits: string, domain: string)
    requires '.' !in head && AllDigits(digits) && (head == "" || !IsDigit(head[|head| - 1]))
    requires domain == "" || domain[0] == '.'
    ensures HostId(head + digits + domain) == if digits == "" then None else Some(FromDecimal(digits))
  {
    var short, name := head + digits, head + digits + domain;
    DigitsOnly(digits, '.');
    if domain == "" {
      assert name == short;
    } else {
      assert name == short + ['.'] + domain[1..];
      SplitAtSeparator(short, '.', domain[1..]);
    }
    assert Split(name, '.')[0] == short;
    TrailingDigitsOfSuffix(head, digits);
    assert TrailingDigits(head) + digits == digits;
  }

  /** The number read back from a generated name is at least the number it was generated from. */
  lemma GeneratedNameId(prefix: string, id: nat)
    requires '.' !in prefix
    ensures var name := GeneratedName(prefix, id);
      prefix < name && AllDigits(name[|prefix|..]) && NoLeadingZero(name[|prefix|..])
      && FromDecimal(name[|prefix|..]) == id
    ensures HostId(GeneratedName(prefix, id)).Some? && HostId(GeneratedName(prefix, id)).value >= id
    ensures (prefix == "" || !IsDigit(prefix[|prefix| - 1])) ==> HostId(GeneratedName(prefix, id)).value == id
  {
    var name := GeneratedName(prefix, id);
    DigitsOnly(ToDecimal(id), '.');
    assert '.' !in name && name[|prefix|..] == ToDecimal(id);
    TrailingDigitsOfSuffix(prefix, ToDecimal(id));
    MoreDigitsIsMore(TrailingDigits(prefix), ToDecimal(id));
    PrintThenParse(id);
    assert prefix == "" || !IsDigit(prefix[|prefix| - 1]) ==> TrailingDigits(prefix) + ToDecimal(id) == ToDecimal(id);
  }

  /** What the search for the highest number relies on holds exactly for prefixes without a dot. */
  lemma GeneratedNameIdIff(prefix: string)
    ensures (forall id: nat :: HostId(GeneratedName(prefix, id)).Some? && HostId(GeneratedName(prefix, id)).value >= id)
       <==> '.' !in prefix
  {
    if '.' in prefix {
      var (head, rest) := SplitFirst(prefix, '.').value;
      var stuck := HostId(prefix);
      var large := if stuck.Some? then stuck.value + 1 else 0;
      var name := GeneratedName(prefix, large);
      SplitAtSeparator(head, '.', rest);
      assert name == head + ['.'] + (rest + ToDecimal(large));
      SplitAtSeparator(head, '.', rest + ToDecimal(large));
      assert HostId(name) == stuck;
      assert !(HostId(name).Some? && HostId(name).value >= large);
    } else {
      forall id: nat ensures HostId(GeneratedName(prefix, id)).Some? && HostId(GeneratedName(prefix, id)).value >= id {
        GeneratedNameId(prefix, id);
      }
    }
  }

  lemma GeneratedNameInjective(prefix: string, m: nat, n: nat)
    requires GeneratedName(prefix, m) == GeneratedName(prefix, n)
    ensures m == n
  {
    assert GeneratedName(prefix, m)[|prefix|..] == ToDecimal(m);
    assert GeneratedName(prefix, n)[|prefix|..] == ToDecimal(n);
    DecimalInjective(m, n);
  }

  /** A number above the highest loaded one makes a name that no loaded host has. */
  lemma AboveHighestIsNew(prefix: string, names: seq<string>, id: nat)
    requires '.' !in prefix
    requires HighestId(prefix, names, 0).Ok? && id > HighestId(prefix, names, 0).value
    ensures GeneratedName(prefix, id) !in names
  {
    HighestIdFrom(prefix, names, 0);
    GeneratedNameId(prefix, id);
    assert prefix <= GeneratedName(prefix, id);
  }

  /** The names generated along a run, in order. */
  function GeneratedNames(prefix: string, b: Builder, args: seq<string>): seq<string>
    decreases |args|
  {
    if args == [] || Step(prefix, b, args[0]).Fail? then []
    else
      var b' := Step(prefix, b, args[0]).value;
      (if b'.nextId > b.nextId then [GeneratedName(prefix, b.nextId)] else [])
      + GeneratedNames(prefix, b', args[1..])
  }

  /** Each accepted address becomes a new last entry of the table, never an overwrite. */
  ghost predicate AcceptedAddressesAppend(prefix: string, b: Builder, args: seq<string>)
    decreases |args|
  {
    args != [] && Step(prefix, b, args[0]).Ok? ==>
      var b' := Step(prefix, b, args[0]).value;
      (b'.nextId > b.nextId ==>
        b'.table == b.table + [Entry(GeneratedName(prefix, b.nextId), b'.address.value)])
      && AcceptedAddressesAppend(prefix, b', args[1..])
  }

  /** The names that the command line itself has given to hosts so far. */
  function GivenAfter(b: Builder, arg: string, given: set<string>): set<string>
    requires arg != ""
  {
    if IsAlpha(arg[0]) && NameStep(b, arg).Ok? && NameStep(b, arg).value.hostname.Some?
    then given + {NameStep(b, arg).value.hostname.value} else given
  }

  /** No accepted address gets a number whose name the command line gave to a host that is still there. */
  predicate AvoidsGivenNames(prefix: string, b: Builder, args: seq<string>, given: set<string>)
    decreases |args|
  {
    args != [] && Step(prefix, b, args[0]).Ok? ==>
      var b' := Step(prefix, b, args[0]).value;
      (b'.nextId > b.nextId && GeneratedName(prefix, b.nextId) in given ==>
        !Has(b.table, GeneratedName(prefix, b.nextId)))
      && AvoidsGivenNames(prefix, b', args[1..], GivenAfter(b, args[0], given))
  }

  /** A name with a number the builder may still use is in the table only if the command line gave it. */
  ghost predicate NumbersFreeBut(prefix: string, b: Builder, given: set<string>) {
    (forall id: nat :: id >= b.nextId && GeneratedName(prefix, id) in Keys(b.table) ==>
      GeneratedName(prefix, id) in given)
    && (b.hostname.Some? ==> b.hostname.value in given)
  }

  lemma StepNumbersFree(prefix: string, b: Builder, arg: string, given: set<string>)
    requires Step(prefix, b, arg).Ok? && NumbersFreeBut(prefix, b, given)
    ensures NumbersFreeBut(prefix, Step(prefix, b, arg).value, GivenAfter(b, arg, given))
  {
    var b' := Step(prefix, b, arg).value;
    forall id: nat | id >= b'.nextId && GeneratedName(prefix, id) in Keys(b'.table)
      ensures GeneratedName(prefix, id) in GivenAfter(b, arg, given)
    {
      var x := GeneratedName(prefix, id);
      if arg[0] == '-' {
        DeleteStepKeyIn(b.table, arg[1..], x);
      } else if b'.table != b.table {
        if IsDigit(arg[0]) {
          PutKeyIn(b.table, GeneratedName(prefix, b.nextId), b'.address.value, x);
          if x == GeneratedName(prefix, b.nextId) {
            GeneratedNameInjective(prefix, id, b.nextId);
          }
        } else {
          PutKeyIn(b.table, b'.hostname.value, b'.address.value, x);
        }
      }
    }
  }

  /** Whether an accepted address is appended or overwrites a host. */
  lemma AcceptedAppendsIff(prefix: string, b: Builder, arg: string)
    requires Step(prefix, b, arg).Ok? && Step(prefix, b, arg).value.nextId > b.nextId
    ensures var b' := Step(prefix, b, arg).value;
      var name := GeneratedName(prefix, b.nextId);
      b'.table == b.table + [Entry(name, b'.address.value)] <==> !Has(b.table, name)
  {
  }

  lemma {:induction false} AppendsIffAvoids(prefix: string, b: Builder, args: seq<string>, given: set<string>)
    requires NumbersFreeBut(prefix, b, given)
    ensures AcceptedAddressesAppend(prefix, b, args) <==> AvoidsGivenNames(prefix, b, args, given)
    decreases |args|
  {
    if args != [] && Step(prefix, b, args[0]).Ok? {
      var b' := Step(prefix, b, args[0]).value;
      StepNumbersFree(prefix, b, args[0], given);
      AppendsIffAvoids(prefix, b', args[1..], GivenAfter(b, args[0], given));
      HasKey(b.table, GeneratedName(prefix, b.nextId));
      if b'.nextId > b.nextId {
        AcceptedAppendsIff(prefix, b, args[0]);
      }
    }
  }

  /** Names with consecutive numbers, the first of them `id`. */
  ghost predicate NumberedFrom(prefix: string, id: nat, names: seq<string>) {
    forall i :: 0 <= i < |names| ==> names[i] == GeneratedName(prefix, id + i)
  }

  lemma {:induction false} NumberedInOrder(prefix: string, b: Builder, args: seq<string>)
    ensures NumberedFrom(prefix, b.nextId, GeneratedNames(prefix, b, args))
    decreases |args|
  {
    hide Step, GeneratedName;
    if args != [] && Step(prefix, b, args[0]).Ok? {
      hide NumberedFrom;
      var b' := Step(prefix, b, args[0]).value;
      NextIdStep(prefix, b, args[0]);
      NumberedInOrder(prefix, b', args[1..]);
      var names := GeneratedNames(prefix, b', args[1..]);
      assert [] + names == names;
      if b'.nextId > b.nextId {
        NumberOneMore(prefix, b.nextId, names);
      }
    }
  }

  lemma {:induction false} NumberOneMore(prefix: string, id: nat, names: seq<string>)
    requires NumberedFrom(prefix, id + 1, names)
    ensures NumberedFrom(prefix, id, [GeneratedName(prefix, id)] + names)
  {
    hide GeneratedName;
    var more := [GeneratedName(prefix, id)] + names;
    forall i | 0 <= i < |more| ensures more[i] == GeneratedName(prefix, id + i) {
      if i > 0 { assert more[i] == names[i - 1]; }
    }
  }

  lemma {:induction false} NextIdStep(prefix: string, b: Builder, arg: string)
    requires Step(prefix, b, arg).Ok?
    ensures b.nextId <= Step(prefix, b, arg).value.nextId <= b.nextId + 1
  {
  }

  /**
   The accepted addresses get the numbers highest + 1, highest + 2, ... in argument order, where highest is the largest
   number on a loaded host with the prefix; and never the name of a loaded host, not even of one deleted earlier in the
   run. Each becomes a new last entry if and only if no generated name meets a host to which the command line gave that
   very name.
   */
  lemma GeneratedNamesAreFresh(prefix: string, existing: Table, args: seq<string>)
    requires '.' !in prefix && StartBuilder(prefix, existing).Ok?
    ensures var b := StartBuilder(prefix, existing).value;
      var names := GeneratedNames(prefix, b, args);
      (exists h: nat :: IsHighest(prefix, Keys(existing), h) && b.nextId == h + 1)
      && NumberedFrom(prefix, b.nextId, names)
      && (forall i :: 0 <= i < |names| ==> names[i] !in Keys(existing))
      && Distinct(names)
      && (AcceptedAddressesAppend(prefix, b, args) <==> AvoidsGivenNames(prefix, b, args, {}))
  {
    var b := StartBuilder(prefix, existing).value;
    var names := GeneratedNames(prefix, b, args);
    StartIsAboveHighest(prefix, existing);
    hide Keys, GeneratedNames, GeneratedName, StartBuilder, IsHighest;
    forall id: nat | id >= b.nextId ensures GeneratedName(prefix, id) !in Keys(existing) {
      AboveHighestIsNew(prefix, Keys(existing), id);
    }
    NumberedInOrder(prefix, b, args);
    NumberedIsDistinct(prefix, b.nextId, names);
    hide AcceptedAddressesAppend, AvoidsGivenNames;
    AppendsIffAvoids(prefix, b, args, {});
  }

  lemma StartIsAboveHighest(prefix: string, existing: Table)
    requires StartBuilder(prefix, existing).Ok?
    ensures HighestId(prefix, Keys(existing), 0).Ok?
    ensures StartBuilder(prefix, existing).value.nextId == HighestId(prefix, Keys(existing), 0).value + 1
    ensures IsHighest(prefix, Keys(existing), HighestId(prefix, Keys(existing), 0).value)
  {
    hide HostId, IsHighest;
    HighestIdIsMaximum(prefix, Keys(existing));
  }

  lemma {:induction false} NumberedIsDistinct(prefix: string, id: nat, names: seq<string>)
    requires NumberedFrom(prefix, id, names)
    ensures Distinct(names)
  {
    hide GeneratedName;
    forall i, j | 0 <= i < j < |names| ensures names[i] != names[j] {
      if GeneratedName(prefix, id + i) == GeneratedName(prefix, id + j) {
        GeneratedNameInjective(prefix, id + i, id + j);
      }
    }
  }

  // ---------- given names that are in no generated name's way ----------

  /** The names that a run can generate, from a number on. */
  ghost function NumbersFrom(prefix: string, first: nat): iset<string> {
    iset m: nat | first <= m :: GeneratedName(prefix, m)
  }

  lemma {:induction false} HarmlessNamesAreAvoided(prefix: string, b: Builder, args: seq<string>, given: set<string>,
                                                   first: nat)
    requires first <= b.nextId && NamesAvoid(args, NumbersFrom(prefix, first))
    requires forall n :: n in given ==> n !in NumbersFrom(prefix, first)
    requires b.hostname.Some? ==> b.hostname.value !in NumbersFrom(prefix, first)
    ensures AvoidsGivenNames(prefix, b, args, given)
    decreases |args|
  {
    if args != [] && Step(prefix, b, args[0]).Ok? {
      var b' := Step(prefix, b, args[0]).value;
      NextIdStep(prefix, b, args[0]);
      assert GeneratedName(prefix, b.nextId) in NumbersFrom(prefix, first);
      assert forall i :: 0 <= i < |args[1..]| ==> args[1..][i] == args[i + 1];
      HarmlessNamesAreAvoided(prefix, b', args[1..], GivenAfter(b, args[0], given), first);
    }
  }

  /**
   If no host name given on the command line is a generated name with a number above the highest loaded one,
   every accepted address becomes a new last entry; the arguments alone tell.
   */
  lemma AcceptedAddressesAppendIf(prefix: string, existing: Table, args: seq<string>)
    requires '.' !in prefix && StartBuilder(prefix, existing).Ok?
    requires NamesAvoid(args, NumbersFrom(prefix, HighestId(prefix, Keys(existing), 0).value + 1))
    ensures AcceptedAddressesAppend(prefix, StartBuilder(prefix, existing).value, args)
  {
    var b := StartBuilder(prefix, existing).value;
    HarmlessNamesAreAvoided(prefix, b, args, {}, b.nextId);
    GeneratedNamesAreFresh(prefix, existing, args);
  }

  /** In particular if no given name starts with the prefix. */
  lemma UnprefixedNamesAppend(prefix: string, existing: Table, args: seq<string>)
    requires '.' !in prefix && StartBuilder(prefix, existing).Ok?
    requires forall i :: 0 <= i < |args| && args[i] != "" && IsAlpha(args[i][0]) ==> !(prefix <= GivenName(args[i]))
    ensures AcceptedAddressesAppend(prefix, StartBuilder(prefix, existing).value, args)
  {
    forall m: nat ensures prefix <= GeneratedName(prefix, m) {
    }
    AcceptedAddressesAppendIf(prefix, existing, args);
  }

  /** With a given name that starts with the prefix, an accepted address can overwrite that host. */
  lemma GivenNameCanBeOverwritten()
    ensures Build("n", [], ["n1,a", "1"]) == Ok([Entry("n1", HostOpts("1", "1", "1"))])
  {
    var args := ["n1,a", "1"];
    assert args[1..] == ["1"] && args[1..][1..] == [];
    var b := Builder([], 1, None, None);
    assert StartBuilder("n", []) == Ok(b);
    var opts := HostOpts("a", "a", "a");
    var b' := Builder([Entry("n1", opts)], 1, Some("n1"), Some(opts));
    FirstNamed(b);
    assert Steps("n", b, args) == Steps("n", b', ["1"]);
    ThenNumbered(b');
  }

  lemma FirstNamed(b: Builder)
    requires b == Builder([], 1, None, None)
    ensures var opts := HostOpts("a", "a", "a");
      Step("n", b, "n1,a") == Ok(Builder([Entry("n1", opts)], 1, Some("n1"), Some(opts)))
  {
    SplitAtSeparator("n1", ',', "a");
    assert "n1" + [','] + "a" == "n1,a";
    assert Split("n1,a", ',') == ["n1", "a"];
    assert Put(b.table, "n1", HostOpts("a", "a", "a")) == [Entry("n1", HostOpts("a", "a", "a"))];
  }

  lemma ThenNumbered(b: Builder)
    requires var opts := HostOpts("a", "a", "a"); b == Builder([Entry("n1", opts)], 1, Some("n1"), Some(opts))
    ensures Steps("n", b, ["1"]).Ok? && Steps("n", b, ["1"]).value.table == [Entry("n1", HostOpts("1", "1", "1"))]
  {
    IndexIs(b.table, "1", 1);
    IndexIs(b.table, "n1", 0);
    assert GeneratedName("n", 1) == "n1";
    assert ["1"][1..] == [];
  }
}
