/** Strings as the modelled programs use them: decimal numbers, splitting, searching and replacing. */
module Text {
  import opened Outcomes

  predicate IsDigit(c: char) {
    '0' <= c <= '9'
  }

  predicate IsAlpha(c: char) {
    'a' <= c <= 'z' || 'A' <= c <= 'Z'
  }

  predicate AllDigits(s: string) {
    forall i :: 0 <= i < |s| ==> IsDigit(s[i])
  }

  // ---------- decimal numbers ----------

  function DigitChar(d: nat): (c: char)
    requires d < 10
    ensures IsDigit(c) && DigitValue(c) == d
  {
    '0' + d as char
  }

  function DigitValue(c: char): (d: nat)
    requires IsDigit(c)
    ensures d < 10
  {
    c as int - '0' as int
  }

  function ToDecimal(n: nat): (s: string)
    ensures s != "" && AllDigits(s)
  {
    if n < 10 then [DigitChar(n)] else ToDecimal(n / 10) + [DigitChar(n % 10)]
  }

  function FromDecimal(s: string): nat
    requires AllDigits(s)
  {
    if s == "" then 0 else 10 * FromDecimal(s[..|s| - 1]) + DigitValue(s[|s| - 1])
  }

  predicate NoLeadingZero(s: string) {
    s != "" && (s[0] == '0' ==> s == "0")
  }

  lemma {:induction false} PrintThenParse(n: nat)
    ensures FromDecimal(ToDecimal(n)) == n
    ensures NoLeadingZero(ToDecimal(n)) && (n > 0 ==> ToDecimal(n)[0] != '0')
  {
    if n < 10 {
      assert ToDecimal(n)[..0] == "";
    } else {
      PrintThenParse(n / 10);
      assert ToDecimal(n)[..|ToDecimal(n)| - 1] == ToDecimal(n / 10);
    }
  }

  lemma {:induction false} ParseThenPrint(s: string)
    requires AllDigits(s) && NoLeadingZero(s)
    ensures ToDecimal(FromDecimal(s)) == s
    ensures s[0] != '0' ==> FromDecimal(s) > 0
  {
    var front, last := s[..|s| - 1], s[|s| - 1];
    assert FromDecimal(s) == 10 * FromDecimal(front) + DigitValue(last);
    PrintOneDigit(last);
    hide ToDecimal, FromDecimal;
    assert s == front + [last];
    if front == "" {
      assert FromDecimal("") == 0 by { EmptyIsZero(); }
    } else {
      assert front[0] == s[0];
      ParseThenPrint(front);
      PrintAnotherDigit(FromDecimal(front), last);
    }
  }

  lemma {:induction false} EmptyIsZero()
    ensures FromDecimal("") == 0
  {
  }

  lemma {:induction false} PrintOneDigit(c: char)
    requires IsDigit(c)
    ensures ToDecimal(DigitValue(c)) == [c]
    ensures c != '0' ==> DigitValue(c) > 0
  {
    assert DigitChar(DigitValue(c)) == c;
  }

  lemma {:induction false} PrintAnotherDigit(n: nat, c: char)
    requires n > 0 && IsDigit(c)
    ensures ToDecimal(10 * n + DigitValue(c)) == ToDecimal(n) + [c]
  {
    var m := 10 * n + DigitValue(c);
    assert m / 10 == n && m % 10 == DigitValue(c);
    assert DigitChar(DigitValue(c)) == c;
  }

  lemma DecimalInjective(m: nat, n: nat)
    requires ToDecimal(m) == ToDecimal(n)
    ensures m == n
  {
    PrintThenParse(m);
    PrintThenParse(n);
  }

  lemma {:induction false} SmallIsShort(n: nat)
    requires n < 1000
    ensures |ToDecimal(n)| <= 3
  {
    if n >= 10 {
      var tens := n / 10;
      assert tens < 100;
      assert |ToDecimal(tens)| <= 2 by {
        if tens >= 10 {
          assert |ToDecimal(tens / 10)| == 1;
        }
      }
    }
  }

  lemma DigitsOnly(s: string, c: char)
    requires AllDigits(s) && !IsDigit(c)
    ensures c !in s
  {
  }

  // ---------- trailing digits ----------

  function TrailingDigits(s: string): (t: string)
    ensures AllDigits(t)
  {
    if s == "" || !IsDigit(s[|s| - 1]) then "" else TrailingDigits(s[..|s| - 1]) + [s[|s| - 1]]
  }

  lemma {:induction false} TrailingDigitsOfSuffix(a: string, digits: string)
    requires AllDigits(digits)
    ensures TrailingDigits(a + digits) == TrailingDigits(a) + digits
  {
    if digits == "" {
      assert a + digits == a;
    } else {
      var front := digits[..|digits| - 1];
      assert (a + digits)[..|a + digits| - 1] == a + front;
      TrailingDigitsOfSuffix(a, front);
      assert TrailingDigits(a) + digits == TrailingDigits(a) + front + [digits[|digits| - 1]];
    }
  }

  lemma {:induction false} MoreDigitsIsMore(a: string, digits: string)
    requires AllDigits(a) && AllDigits(digits)
    ensures AllDigits(a + digits) && FromDecimal(a + digits) >= FromDecimal(digits)
  {
    if digits == "" {
      assert a + digits == a;
    } else {
      var front := digits[..|digits| - 1];
      assert (a + digits)[..|a + digits| - 1] == a + front;
      MoreDigitsIsMore(a, front);
    }
  }

  // ---------- splitting ----------

  /** Python's `s.split(sep)` for a one-character separator. */
  function Split(s: string, sep: char): (parts: seq<string>)
    ensures |parts| >= 1
    ensures sep !in s ==> parts == [s]
    ensures sep in s ==> |parts| >= 2
  {
    if s == "" then [""]
    else
      var rest := Split(s[1..], sep);
      assert s == [s[0]] + s[1..];
      if s[0] == sep then [""] + rest else [[s[0]] + rest[0]] + rest[1..]
  }

  lemma {:induction false} SplitAtSeparator(a: string, sep: char, b: string)
    requires sep !in a
    ensures Split(a + [sep] + b, sep) == [a] + Split(b, sep)
  {
    var s := a + [sep] + b;
    if a == "" {
      assert s[1..] == b;
    } else {
      SplitAtSeparator(a[1..], sep, b);
      assert s[1..] == a[1..] + [sep] + b;
      assert Split(s, sep) == [[a[0]] + a[1..]] + Split(b, sep);
      assert a == [a[0]] + a[1..];
    }
  }

  /** Python's `s.split(sep, 1)` when it gives two parts. */
  function SplitFirst(s: string, sep: char): (parts: Option<(string, string)>)
    ensures parts.None? <==> sep !in s
    ensures parts.Some? ==> sep !in parts.value.0 && s == parts.value.0 + [sep] + parts.value.1
  {
    if s == "" then None
    else if s[0] == sep then Some(("", s[1..]))
    else
      match SplitFirst(s[1..], sep)
      case None => None
      case Some((head, rest)) => Some(([s[0]] + head, rest))
  }

  lemma {:induction false} SplitFirstAt(a: string, sep: char, b: string)
    requires sep !in a
    ensures SplitFirst(a + [sep] + b, sep) == Some((a, b))
  {
    var s := a + [sep] + b;
    if a == "" {
      assert s[0] == sep && s[1..] == b;
    } else {
      assert s[0] == a[0] && s[1..] == a[1..] + [sep] + b;
      SplitFirstAt(a[1..], sep, b);
      assert [a[0]] + a[1..] == a;
    }
  }

  function Join(parts: seq<string>, sep: char): string {
    if |parts| == 0 then "" else if |parts| == 1 then parts[0]
    else parts[0] + [sep] + Join(parts[1..], sep)
  }

  lemma {:induction false} JoinOfSplit(s: string, sep: char)
    ensures Join(Split(s, sep), sep) == s
    ensures forall i :: 0 <= i < |Split(s, sep)| ==> sep !in Split(s, sep)[i]
  {
    PartsLackSeparator(s, sep);
    if s != "" {
      JoinOfSplit(s[1..], sep);
      var rest := Split(s[1..], sep);
      var all := Split(s, sep);
      assert s == [s[0]] + s[1..];
      if s[0] == sep {
        assert all[1..] == rest;
      } else {
        assert all[1..] == rest[1..];
      }
    }
  }

  lemma {:induction false} PartsLackSeparator(s: string, sep: char)
    ensures forall i :: 0 <= i < |Split(s, sep)| ==> sep !in Split(s, sep)[i]
  {
    if s != "" {
      PartsLackSeparator(s[1..], sep);
    }
  }

  // ---------- replacing ----------

  /** Every non-overlapping occurrence of `key`, scanned from the left, becomes `value`. */
  function ReplaceAll(s: string, key: string, value: string): string
    requires key != ""
  {
    if s == "" then ""
    else if key <= s then value + ReplaceAll(s[|key|..], key, value)
    else [s[0]] + ReplaceAll(s[1..], key, value)
  }

  lemma KeyStopsAtChar(a: string, c: char, b: string, key: string)
    requires key != "" && c !in key
    ensures key <= a + [c] + b <==> key <= a
  {
    var s := a + [c] + b;
    assert s[..|a|] == a && s[|a|] == c;
    if |key| <= |a| {
      assert s[..|key|] == a[..|key|];
    } else {
      assert key[|a|] in key;
    }
  }

  /** Replacing cannot reach across a character that the key does not contain. */
  lemma {:induction false} ReplaceAroundChar(a: string, c: char, b: string, key: string, value: string)
    requires key != "" && c !in key
    ensures ReplaceAll(a + [c] + b, key, value) == ReplaceAll(a, key, value) + [c] + ReplaceAll(b, key, value)
    decreases |a|
  {
    var s := a + [c] + b;
    KeyStopsAtChar(a, c, b, key);
    if a == "" {
      assert s[0] == c && s[1..] == b;
    } else if key <= a {
      assert s[|key|..] == a[|key|..] + [c] + b;
      ReplaceAroundChar(a[|key|..], c, b, key, value);
    } else {
      assert s[0] == a[0] && s[1..] == a[1..] + [c] + b;
      ReplaceAroundChar(a[1..], c, b, key, value);
    }
  }

  lemma {:induction false} ReplaceNothing(s: string, key: string, value: string)
    requires key != "" && key[0] !in s
    ensures ReplaceAll(s, key, value) == s
  {
    if s != "" {
      assert s[0] in s && s[0] != key[0];
      assert s == [s[0]] + s[1..];
      ReplaceNothing(s[1..], key, value);
    }
  }
}
