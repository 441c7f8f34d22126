/** IPv4 addresses in dotted-decimal form and the expansion of address ranges (`range2ips`). */
module Ranges {
  import opened Text
  import opened Outcomes

  const ADDRESSES := 0x1_0000_0000

  // ---------- one address ----------

  /** A dec-octet of section 3.2.2 of RFC 3986: at most 255, no leading zero. */
  function ParseOctet(s: string): (o: Option<nat>)
    ensures o.Some? ==> o.value < 256
  {
    if s == "" || |s| > 3 || !AllDigits(s) || (s[0] == '0' && s != "0") then None
    else if FromDecimal(s) > 255 then None
    else Some(FromDecimal(s))
  }

  function FromOctets(a: nat, b: nat, c: nat, d: nat): nat {
    ((a * 256 + b) * 256 + c) * 256 + d
  }

  function Dotted(a: string, b: string, c: string, d: string): string {
    a + ['.'] + (b + ['.'] + (c + ['.'] + d))
  }

  function ParseIp(s: string): (ip: Option<nat>)
    ensures ip.Some? ==> ip.value < ADDRESSES
  {
    var parts := Split(s, '.');
    if |parts| != 4 then None
    else
      var a, b, c, d := ParseOctet(parts[0]), ParseOctet(parts[1]), ParseOctet(parts[2]), ParseOctet(parts[3]);
      if a.None? || b.None? || c.None? || d.None? then None
      else Some(FromOctets(a.value, b.value, c.value, d.value))
  }

  function PrintIp(n: nat): string
    requires n < ADDRESSES
  {
    Dotted(ToDecimal(n / 256 / 256 / 256), ToDecimal(n / 256 / 256 % 256),
           ToDecimal(n / 256 % 256), ToDecimal(n % 256))
  }

  lemma OctetRoundTrip(o: nat)
    requires o < 256
    ensures ParseOctet(ToDecimal(o)) == Some(o)
  {
    PrintThenParse(o);
    SmallIsShort(o);
  }

  lemma OctetCanonical(s: string)
    requires ParseOctet(s).Some?
    ensures ToDecimal(ParseOctet(s).value) == s
  {
    ParseThenPrint(s);
  }

  lemma SplitDotted(a: string, b: string, c: string, d: string)
    requires '.' !in a && '.' !in b && '.' !in c && '.' !in d
    ensures Split(Dotted(a, b, c, d), '.') == [a, b, c, d]
  {
    SplitAtSeparator(a, '.', b + ['.'] + (c + ['.'] + d));
    SplitAtSeparator(b, '.', c + ['.'] + d);
    SplitAtSeparator(c, '.', d);
  }

  lemma DottedOfSplit(s: string)
    requires |Split(s, '.')| == 4
    ensures var p := Split(s, '.'); s == Dotted(p[0], p[1], p[2], p[3])
  {
    JoinOfSplit(s, '.');
    var p := Split(s, '.');
    assert Join(p[3..], '.') == p[3];
    assert p[2..][1..] == p[3..];
    assert Join(p[2..], '.') == p[2] + ['.'] + Join(p[3..], '.');
    assert p[1..][1..] == p[2..];
    assert Join(p[1..], '.') == p[1] + ['.'] + Join(p[2..], '.');
  }

  lemma OctetsOf(n: nat)
    requires n < ADDRESSES
    ensures n / 256 / 256 / 256 < 256
    ensures FromOctets(n / 256 / 256 / 256, n / 256 / 256 % 256, n / 256 % 256, n % 256) == n
  {
  }

  lemma OctetsUnique(a: nat, b: nat, c: nat, d: nat)
    requires a < 256 && b < 256 && c < 256 && d < 256
    ensures var n := FromOctets(a, b, c, d);
      n / 256 / 256 / 256 == a && n / 256 / 256 % 256 == b && n / 256 % 256 == c && n % 256 == d
  {
    var n := FromOctets(a, b, c, d);
    assert n / 256 == (a * 256 + b) * 256 + c;
    assert n / 256 / 256 == a * 256 + b;
  }

  predicate DigitsAndDots(s: string) {
    forall i :: 0 <= i < |s| ==> IsDigit(s[i]) || s[i] == '.'
  }

  /** Every 32-bit address survives printing and parsing. */
  lemma PrintedAddressParses(n: nat)
    requires n < ADDRESSES
    ensures ParseIp(PrintIp(n)) == Some(n)
  {
    OctetsOf(n);
    var a, b, c, d := n / 256 / 256 / 256, n / 256 / 256 % 256, n / 256 % 256, n % 256;
    SplitDotted(ToDecimal(a), ToDecimal(b), ToDecimal(c), ToDecimal(d));
    OctetRoundTrip(a);
    OctetRoundTrip(b);
    OctetRoundTrip(c);
    OctetRoundTrip(d);
  }

  /** Parsing accepts exactly one spelling of each address. */
  lemma ParsedAddressPrints(s: string)
    requires ParseIp(s).Some?
    ensures PrintIp(ParseIp(s).value) == s
  {
    var p := Split(s, '.');
    DottedOfSplit(s);
    OctetCanonical(p[0]);
    OctetCanonical(p[1]);
    OctetCanonical(p[2]);
    OctetCanonical(p[3]);
    OctetsUnique(ParseOctet(p[0]).value, ParseOctet(p[1]).value, ParseOctet(p[2]).value, ParseOctet(p[3]).value);
  }

  lemma PrintedAddressShape(n: nat)
    requires n < ADDRESSES
    ensures PrintIp(n) != "" && IsDigit(PrintIp(n)[0]) && DigitsAndDots(PrintIp(n))
  {
    assert PrintIp(n)[0] == ToDecimal(n / 256 / 256 / 256)[0];
  }

  // ---------- ranges ----------

  predicate IsSpace(c: char) {
    c == ' ' || '\t' <= c <= '\r'
  }

  /** Python's `s.strip()`. */
  function Strip(s: string): string {
    if s == "" then "" else if IsSpace(s[0]) then Strip(s[1..])
    else if IsSpace(s[|s| - 1]) then Strip(s[..|s| - 1]) else s
  }

  /** The addresses from `lo` up to and including `hi`; none when the bounds are reversed. */
  function IpRange(lo: nat, hi: nat): (ips: seq<string>)
    requires lo < ADDRESSES && hi < ADDRESSES
  {
    seq(if lo <= hi then hi + 1 - lo else 0, i requires 0 <= i && lo + i <= hi => PrintIp(lo + i))
  }

  predicate IsRange(arg: string) {
    '-' in arg && arg[0] != '-' && !IsAlpha(arg[0])
  }

  function ExpandArgument(arg: string): Outcome<seq<string>> {
    if IsRange(arg) then
      var ends := Split(Strip(arg), '-');
      if |ends| != 2 || ParseIp(ends[0]).None? || ParseIp(ends[1]).None? then Fail(BadRange)
      else Ok(IpRange(ParseIp(ends[0]).value, ParseIp(ends[1]).value))
    else Ok([arg])
  }

  function ExpandAll(args: seq<string>): Outcome<seq<string>> {
    if args == [] then Ok([])
    else
      var head :- ExpandArgument(args[0]);
      var rest :- ExpandAll(args[1..]);
      Ok(head + rest)
  }

  /** What the loop still owes: the expansion of the rest, behind what is already collected. */
  function Collected(done: seq<string>, rest: Outcome<seq<string>>): Outcome<seq<string>> {
    if rest.Ok? then Ok(done + rest.value) else rest
  }

  /** `range2ips`: the loop over the arguments, stopping at the first range that does not parse. */
  method Range2Ips(hosts: seq<string>) returns (result: Outcome<seq<string>>)
    ensures result == ExpandAll(hosts)
  {
    var reworked: seq<string> := [];
    assert hosts[0..] == hosts;
    ghost var all := ExpandAll(hosts);
    if all.Ok? {
      assert [] + all.value == all.value;
    }
    for i := 0 to |hosts|
      invariant ExpandAll(hosts) == Collected(reworked, ExpandAll(hosts[i..]))
    {
      assert hosts[i..][1..] == hosts[i + 1..];
      var expanded := ExpandArgument(hosts[i]);
      if expanded.Fail? {
        return Fail(expanded.error);
      }
      ghost var rest := ExpandAll(hosts[i + 1..]);
      if rest.Ok? {
        assert reworked + (expanded.value + rest.value) == reworked + expanded.value + rest.value;
      }
      reworked := reworked + expanded.value;
    }
    assert hosts[|hosts|..] == [];
    assert reworked + [] == reworked;
    result := Ok(reworked);
  }

  // ---------- canonical arguments ----------

  /** What a user means by an address argument: one address, or all of a range. */
  datatype AddressArg = Single(n: nat) | Span(lo: nat, hi: nat) {
    predicate Valid() {
      match this
      case Single(n) => n < ADDRESSES
      case Span(lo, hi) => lo < ADDRESSES && hi < ADDRESSES
    }

    function Print(): string
      requires Valid()
    {
      match this
      case Single(n) => PrintIp(n)
      case Span(lo, hi) => PrintIp(lo) + ['-'] + PrintIp(hi)
    }

    /** The addresses meant, as numbers. */
    function Meaning(): seq<nat> {
      match this
      case Single(n) => [n]
      case Span(lo, hi) => seq(if lo <= hi then hi + 1 - lo else 0, i requires 0 <= i => lo + i)
    }
  }

  predicate AllValid(args: seq<AddressArg>) {
    forall i :: 0 <= i < |args| ==> args[i].Valid()
  }

  function PrintArgs(args: seq<AddressArg>): seq<string>
    requires AllValid(args)
  {
    if args == [] then [] else [args[0].Print()] + PrintArgs(args[1..])
  }

  function MeaningOf(args: seq<AddressArg>): seq<nat> {
    if args == [] then [] else args[0].Meaning() + MeaningOf(args[1..])
  }

  predicate AllAddresses(ns: seq<nat>) {
    forall i :: 0 <= i < |ns| ==> ns[i] < ADDRESSES
  }

  function PrintIps(ns: seq<nat>): (ips: seq<string>)
    requires AllAddresses(ns)
    ensures |ips| == |ns| && forall i :: 0 <= i < |ns| ==> ips[i] == PrintIp(ns[i])
  {
    if ns == [] then [] else [PrintIp(ns[0])] + PrintIps(ns[1..])
  }

  lemma StripNothing(s: string)
    requires s != "" && !IsSpace(s[0]) && !IsSpace(s[|s| - 1])
    ensures Strip(s) == s
  {
  }

  lemma ExpandSpan(lo: nat, hi: nat)
    requires lo < ADDRESSES && hi < ADDRESSES
    ensures ExpandArgument(Span(lo, hi).Print()) == Ok(IpRange(lo, hi))
  {
    hide PrintIp, ParseIp, IpRange, Split, Strip;
    var a, b := PrintIp(lo), PrintIp(hi);
    PrintedAddressShape(lo);
    PrintedAddressShape(hi);
    PrintedAddressParses(lo);
    PrintedAddressParses(hi);
    var s := a + ['-'] + b;
    assert '-' !in a && '-' !in b;
    assert s[|a|] == '-' && s[0] == a[0] && s[|s| - 1] == b[|b| - 1];
    StripNothing(s);
    SplitAtSeparator(a, '-', b);
    assert Split(b, '-') == [b];
    assert Split(s, '-') == [a, b];
  }

  lemma RangeMeaning(lo: nat, hi: nat)
    requires lo < ADDRESSES && hi < ADDRESSES
    ensures AllAddresses(Span(lo, hi).Meaning())
    ensures IpRange(lo, hi) == PrintIps(Span(lo, hi).Meaning())
  {
    var ns := Span(lo, hi).Meaning();
    var ips := PrintIps(ns);
    forall i | 0 <= i < |ns| ensures IpRange(lo, hi)[i] == ips[i] {
      assert ns[i] == lo + i;
    }
  }

  lemma ExpandSingle(n: nat)
    requires n < ADDRESSES
    ensures ExpandArgument(PrintIp(n)) == Ok([PrintIp(n)])
  {
    PrintedAddressShape(n);
    assert '-' !in PrintIp(n);
  }

  lemma ExpandOne(arg: AddressArg)
    requires arg.Valid()
    ensures AllAddresses(arg.Meaning())
    ensures ExpandArgument(arg.Print()) == Ok(PrintIps(arg.Meaning()))
  {
    match arg
    case Single(n) =>
      ExpandSingle(n);
      var ips := PrintIps([n]);
      assert ips[0] == PrintIp([n][0]);
      assert ips == [PrintIp(n)];
    case Span(lo, hi) =>
      ExpandSpan(lo, hi);
      RangeMeaning(lo, hi);
  }

  lemma {:induction false} PrintIpsAppend(a: seq<nat>, b: seq<nat>)
    requires AllAddresses(a) && AllAddresses(b)
    ensures AllAddresses(a + b) && PrintIps(a + b) == PrintIps(a) + PrintIps(b)
  {
    hide PrintIp;
    if a == [] {
      assert a + b == b;
    } else {
      assert (a + b)[0] == a[0] && (a + b)[1..] == a[1..] + b;
      PrintIpsAppend(a[1..], b);
    }
  }

  /** Expanding printed arguments prints, in order, exactly the addresses they mean. */
  lemma {:induction false} ExpandPrinted(args: seq<AddressArg>)
    requires AllValid(args)
    ensures AllAddresses(MeaningOf(args))
    ensures ExpandAll(PrintArgs(args)) == Ok(PrintIps(MeaningOf(args)))
  {
    if args != [] {
      ExpandOne(args[0]);
      ExpandPrinted(args[1..]);
      assert PrintArgs(args)[0] == args[0].Print();
      assert PrintArgs(args)[1..] == PrintArgs(args[1..]);
      PrintIpsAppend(args[0].Meaning(), MeaningOf(args[1..]));
    }
  }
}
