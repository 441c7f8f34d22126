/** What a reader finds in the report of a run: exactly, for any names, and when every name comes back as it was. */
module JunitNames {
  import opened Outcomes
  import opened Text
  import opened XmlText
  import opened TestRun
  import opened Accounting
  import opened JunitReport
  import opened JunitLaws

  // ---------- the time variable in a text ----------

  predicate Contains(s: string, key: string)
    requires key != ""
  {
    s != "" && (key <= s || Contains(s[1..], key))
  }

  /** Times are made of characters that the time variable does not have. */
  predicate ForeignTime(time: string) {
    time != "" && forall i :: 0 <= i < |time| ==> time[i] !in TIME_VARIABLE
  }

  lemma {:induction false} PrintIntIsForeign(n: int)
    ensures ForeignTime(PrintInt(n))
  {
    forall c | c in TIME_VARIABLE ensures !IsDigit(c) && c != '-' {
    }
  }

  lemma {:induction false} NothingToReplace(s: string, key: string, value: string)
    requires key != "" && !Contains(s, key)
    ensures ReplaceAll(s, key, value) == s
  {
    if s != "" {
      NothingToReplace(s[1..], key, value);
    }
  }

  /** The rest of an occurrence cannot come from a replacement. */
  lemma {:induction false} TailWasThere(tail: string, u: string, key: string, value: string)
    requires key != "" && value != "" && value[0] !in tail && tail <= ReplaceAll(u, key, value)
    ensures tail <= u
    decreases |u|
  {
    if tail != "" {
      assert tail[0] in tail && ReplaceAll(u, key, value)[0] == tail[0];
      if !(key <= u) {
        var rest := ReplaceAll(u[1..], key, value);
        assert ([u[0]] + rest)[1..] == rest;
        assert tail[1..] <= rest;
        TailWasThere(tail[1..], u[1..], key, value);
      }
    }
  }

  lemma {:induction false} ContainsBehind(a: string, b: string, key: string)
    requires key != "" && key[0] !in a
    ensures Contains(a + b, key) <==> Contains(b, key)
  {
    if a == "" {
      assert a + b == b;
    } else {
      var s := a + b;
      assert s[0] == a[0] && s[1..] == a[1..] + b;
      ContainsBehind(a[1..], b, key);
    }
  }

  /** Once replaced, nothing is left to replace. */
  lemma {:induction false} ReplacedLacksKey(s: string, key: string, value: string)
    requires key != "" && value != "" && forall i :: 0 <= i < |value| ==> value[i] !in key
    ensures !Contains(ReplaceAll(s, key, value), key)
    decreases |s|
  {
    if s != "" {
      if key <= s {
        ReplacedLacksKey(s[|key|..], key, value);
        ContainsBehind(value, ReplaceAll(s[|key|..], key, value), key);
      } else {
        var rest := ReplaceAll(s[1..], key, value);
        ReplacedLacksKey(s[1..], key, value);
        assert ([s[0]] + rest)[1..] == rest;
        assert key == [key[0]] + key[1..] && s == [s[0]] + s[1..];
        if key <= [s[0]] + rest {
          TailWasThere(key[1..], s[1..], key, value);
        }
      }
    }
  }

  predicate HoldsVariable(s: string) {
    Contains(s, TIME_VARIABLE)
  }

  lemma {:induction false} FillIdleIff(s: string, time: string)
    requires ForeignTime(time)
    ensures !HoldsVariable(Fill(s, time))
    ensures Fill(s, time) == s <==> !HoldsVariable(s)
  {
    ReplacedLacksKey(s, TIME_VARIABLE, time);
    if !HoldsVariable(s) {
      NothingToReplace(s, TIME_VARIABLE, time);
    }
  }

  // ---------- the suites and cases that are read ----------

  function FilledBy(s: string, time: Option<string>): string {
    if time.None? then s else Fill(s, time.value)
  }

  function OptionFilledBy(text: Option<string>, time: Option<string>): Option<string> {
    if text.None? then None else Some(FilledBy(text.value, time))
  }

  /** Suites after the time of a later test has been filled into the whole report. */
  function Touched(suites: seq<Suite>, time: Option<string>): (r: seq<Suite>)
    ensures |r| == |suites|
  {
    if time.None? then suites else FillSuites(suites, time.value)
  }

  /** A case as it is read: its own time stands in its names, the time of the next test in its outputs. */
  function ReadCase(c: Case, next: Option<string>): Case {
    Case(Fill(c.name, c.time), Fill(c.classname, c.time), c.time, c.verdict,
         OptionFilledBy(c.stdout, next), OptionFilledBy(c.stderr, next))
  }

  /** The cases of a file as they are read, and `later` the time of the first test behind them. */
  function ReadCases(cases: seq<Case>, later: Option<string>): (r: seq<Case>)
    ensures |r| == |cases|
  {
    if cases == [] then []
    else [ReadCase(cases[0], FirstTime(cases[1..], later))] + ReadCases(cases[1..], later)
  }

  /** The next time behind a case. */
  function NextTime(cases: seq<Case>, i: nat, later: Option<string>): Option<string>
    requires i < |cases|
  {
    if i + 1 < |cases| then Some(cases[i + 1].time) else later
  }

  lemma {:induction false} ReadCasesAt(cases: seq<Case>, later: Option<string>, i: nat)
    requires i < |cases|
    ensures ReadCases(cases, later)[i] == ReadCase(cases[i], NextTime(cases, i, later))
  {
    hide ReadCase;
    if i > 0 {
      ReadCasesAt(cases[1..], later, i - 1);
    }
  }

  /** The time of the first of some tests, or of the first one behind them. */
  function FirstTime(cases: seq<Case>, later: Option<string>): Option<string> {
    if cases == [] then later else Some(cases[0].time)
  }

  /** The first time that is filled in at or after the start of these files. */
  function FirstTimeIn(flag: string, files: seq<TestFile>): Option<string>
    decreases |files|
  {
    if files == [] then None
    else FirstTime(ExpectedCases(flag, files[0]), FirstTimeIn(FlagAfter(flag, files[0]), files[1..]))
  }

  function ReadSuite(flag: string, f: TestFile, later: Option<string>): Suite {
    var cases := ExpectedCases(flag, f);
    Suite(FilledBy(SuiteName(f.name), FirstTime(cases, later)), ToDecimal(|f.tests|), ReadCases(cases, later),
          OptionFilledBy(RawOutput("    ", TrimNewlines(f.stdout)), later),
          OptionFilledBy(RawOutput("    ", TrimNewlines(f.stderr)), later))
  }

  /** The suites that are read, one per file, in order. */
  function ReadSuites(flag: string, files: seq<TestFile>): (r: seq<Suite>)
    ensures |r| == |files|
    decreases |files|
  {
    if files == [] then []
    else
      var next := FlagAfter(flag, files[0]);
      [ReadSuite(flag, files[0], FirstTimeIn(next, files[1..]))] + ReadSuites(next, files[1..])
  }

  // ----- filling in twice -----

  predicate ForeignTimes(cases: seq<Case>) {
    forall i :: 0 <= i < |cases| ==> ForeignTime(cases[i].time)
  }

  predicate ForeignOption(time: Option<string>) {
    time.Some? ==> ForeignTime(time.value)
  }

  lemma {:induction false} ForeignLacksVariable(time: string)
    requires ForeignTime(time)
    ensures !HoldsVariable(time)
  {
    assert TIME_VARIABLE[0] in TIME_VARIABLE;
    assert time + "" == time;
    ContainsBehind(time, "", TIME_VARIABLE);
  }

  lemma {:induction false} FillTwice(s: string, time: string, later: string)
    requires ForeignTime(time) && ForeignTime(later)
    ensures Fill(Fill(s, time), later) == Fill(s, time)
  {
    hide Fill, HoldsVariable;
    FillIdleIff(s, time);
    FillIdleIff(Fill(s, time), later);
  }

  lemma {:induction false} FillCaseTwice(c: Case, time: string, later: string)
    requires ForeignTime(time) && ForeignTime(later)
    ensures FillCase(FillCase(c, time), later) == FillCase(c, time)
  {
    hide Fill;
    FillTwice(c.name, time, later);
    FillTwice(c.classname, time, later);
    FillTwice(c.time, time, later);
    if c.stdout.Some? { FillTwice(c.stdout.value, time, later); }
    if c.stderr.Some? { FillTwice(c.stderr.value, time, later); }
  }

  lemma {:induction false} FillSuiteTwice(s: Suite, time: string, later: string)
    requires ForeignTime(time) && ForeignTime(later)
    ensures FillSuite(FillSuite(s, time), later) == FillSuite(s, time)
  {
    hide Fill, FillCase;
    FillTwice(s.name, time, later);
    FillTwice(s.declared, time, later);
    if s.stdout.Some? { FillTwice(s.stdout.value, time, later); }
    if s.stderr.Some? { FillTwice(s.stderr.value, time, later); }
    var once := FillCases(s.cases, time);
    forall i | 0 <= i < |once| ensures FillCase(once[i], later) == once[i] {
      FillCaseTwice(s.cases[i], time, later);
    }
    assert FillCases(once, later) == once;
  }

  lemma {:induction false} TouchedTwice(suites: seq<Suite>, time: string, later: Option<string>)
    requires ForeignTime(time) && ForeignOption(later)
    ensures Touched(FillSuites(suites, time), later) == FillSuites(suites, time)
  {
    hide FillSuite;
    if later.Some? {
      var once := FillSuites(suites, time);
      forall i | 0 <= i < |once| ensures FillSuite(once[i], later.value) == once[i] {
        FillSuiteTwice(suites[i], time, later.value);
      }
    }
  }

  // ----- one case -----

  /** Filling a later time into a case that was read changes only what the next time would change. */
  lemma {:induction false} TouchReadCase(c: Case, next: Option<string>, later: string)
    requires ForeignTime(c.time) && ForeignOption(next) && ForeignTime(later)
    ensures FillCase(ReadCase(c, next), later) == ReadCase(c, if next.Some? then next else Some(later))
  {
    hide Fill, HoldsVariable;
    FillTwice(c.name, c.time, later);
    FillTwice(c.classname, c.time, later);
    ForeignLacksVariable(c.time);
    FillIdleIff(c.time, later);
    if next.Some? {
      if c.stdout.Some? { FillTwice(c.stdout.value, next.value, later); }
      if c.stderr.Some? { FillTwice(c.stderr.value, next.value, later); }
    }
  }

  lemma {:induction false} EndedIs(suites: seq<Suite>, c: Case)
    requires suites != []
    ensures Ended(suites, c) == AddCase(Touched(suites, Some(c.time)), ReadCase(c, None))
  {
    hide Fill, AddCase, FillSuites;
  }

  lemma {:induction false} TouchedAddCase(suites: seq<Suite>, c: Case, later: Option<string>)
    requires suites != [] && ForeignTime(c.time) && ForeignOption(later)
    ensures Touched(AddCase(suites, ReadCase(c, None)), later) == AddCase(Touched(suites, later), ReadCase(c, later))
  {
    hide ReadCase, AddCase, FillSuites, FillCase;
    if later.Some? {
      FillAddCase(suites, ReadCase(c, None), later.value);
      TouchReadCase(c, None, later.value);
    }
  }

  // ----- the cases of a file -----

  function AddCases(suites: seq<Suite>, cases: seq<Case>): (r: seq<Suite>)
    requires suites != []
    ensures |r| == |suites|
  {
    var last := suites[|suites| - 1];
    suites[|suites| - 1 := last.(cases := last.cases + cases)]
  }

  lemma {:induction false} CaseThenMore(suites: seq<Suite>, c: Case, more: seq<Case>)
    requires suites != []
    ensures AddCases(AddCase(suites, c), more) == AddCases(suites, [c] + more)
    ensures AddCases(suites, []) == suites
  {
    var cases := suites[|suites| - 1].cases;
    assert cases + [c] + more == cases + ([c] + more);
    assert cases + [] == cases;
  }

  lemma {:induction false} AfterCasesIs(suites: seq<Suite>, cases: seq<Case>)
    requires suites != [] && ForeignTimes(cases)
    ensures AfterCases(suites, cases) == AddCases(Touched(suites, FirstTime(cases, None)), ReadCases(cases, None))
    decreases |cases|
  {
    hide Ended, Touched, AddCases, AddCase, ForeignTime, ReadCase;
    if cases == [] {
      CaseThenMore(suites, EMPTY_CASE, []);
      TouchedNever(suites);
    } else {
      var c, more := cases[0], cases[1..];
      var next := FirstTime(more, None);
      assert forall i :: 0 <= i < |more| ==> more[i] == cases[i + 1];
      EndedIs(suites, c);
      AfterCasesIs(Ended(suites, c), more);
      TouchedAddCase(Touched(suites, Some(c.time)), c, next);
      FirstTouchCounts(suites, c.time, next);
      CaseThenMore(Touched(suites, Some(c.time)), ReadCase(c, next), ReadCases(more, None));
    }
  }

  const EMPTY_CASE := Case("", "", "", CasePassed, None, None)

  lemma {:induction false} TouchedNever(suites: seq<Suite>)
    ensures Touched(suites, None) == suites
  {
  }

  lemma {:induction false} FirstTouchCounts(suites: seq<Suite>, time: string, later: Option<string>)
    requires ForeignTime(time) && ForeignOption(later)
    ensures Touched(Touched(suites, Some(time)), later) == Touched(suites, Some(time))
  {
    hide FillSuites, ForeignTime;
    TouchedTwice(suites, time, later);
  }

  lemma {:induction false} CasesHaveForeignTimes(suite: string, tests: seq<Test>)
    ensures ForeignTimes(CasesOf(suite, tests)) && ForeignTimes(SkippedCases(suite, tests))
  {
    hide EncodeText, PrintInt, ForeignTime, TestStatus, RawOutput, TrimNewlines;
    if tests != [] {
      CasesHaveForeignTimes(suite, tests[1..]);
      PrintIntIsForeign(tests[0].seconds);
      PrintIntIsForeign(0);
      assert PrintInt(0) == "0" by { ZeroPrints(); }
    }
  }

  lemma {:induction false} ZeroPrints()
    ensures PrintInt(0) == "0"
  {
    assert ToDecimal(0) == "0";
  }

  lemma {:induction false} ExpectedTimesAreForeign(flag: string, f: TestFile)
    ensures ForeignTimes(ExpectedCases(flag, f))
  {
    hide SuiteName, CasesOf, SkippedCases;
    CasesHaveForeignTimes(SuiteName(f.name), f.tests);
  }

  lemma {:induction false} AddToLast(suites: seq<Suite>, s: Suite, cases: seq<Case>)
    requires s.cases == []
    ensures AddCases(suites + [s], cases) == suites + [s.(cases := cases)]
  {
    assert [] + cases == cases;
  }

  lemma {:induction false} TouchedBegun(suites: seq<Suite>, f: TestFile, time: Option<string>)
    ensures Touched(suites + [Begun(f)], time)
         == Touched(suites, time) + [Begun(f).(name := FilledBy(SuiteName(f.name), time))]
  {
    hide SuiteName, Fill, FillSuites, HoldsVariable, ToDecimal;
    if time.Some? {
      FillSuitesAppend(suites, Begun(f), time.value);
      NumberStays(|f.tests|, time.value);
      assert FillCases([], time.value) == [];
    }
  }

  lemma {:induction false} NumberStays(n: nat, time: string)
    ensures Fill(ToDecimal(n), time) == ToDecimal(n)
  {
    hide Fill, ToDecimal;
    NumbersAreClean(n);
    FillNothing(ToDecimal(n), time);
  }

  /** The suite of a file right after it has ended. */
  function SuiteAtEnd(flag: string, f: TestFile): Suite {
    ReadSuite(flag, f, None)
  }

  lemma {:induction false} AfterFileIs(suites: seq<Suite>, flag: string, f: TestFile)
    ensures AfterFile(suites, flag, f)
         == Touched(suites, FirstTime(ExpectedCases(flag, f), None)) + [SuiteAtEnd(flag, f)]
  {
    hide SuiteName, ExpectedCases, AfterCases, AddCases, Touched, ToDecimal, RawOutput, ReadCases, FilledBy,
         TrimNewlines;
    var cases := ExpectedCases(flag, f);
    var time := FirstTime(cases, None);
    var begun := Begun(f).(name := FilledBy(SuiteName(f.name), time));
    ExpectedTimesAreForeign(flag, f);
    AfterCasesIs(suites + [Begun(f)], cases);
    TouchedBegun(suites, f, time);
    AddToLast(Touched(suites, time), begun, ReadCases(cases, None));
    FinishedLast(Touched(suites, time), begun.(cases := ReadCases(cases, None)), f);
    FilledByNothing(RawOutput("    ", TrimNewlines(f.stdout)));
    FilledByNothing(RawOutput("    ", TrimNewlines(f.stderr)));
  }

  lemma {:induction false} FilledByNothing(text: Option<string>)
    ensures OptionFilledBy(text, None) == text
  {
  }

  lemma {:induction false} FinishedLast(suites: seq<Suite>, s: Suite, f: TestFile)
    ensures Finished(suites + [s], f)
         == suites + [s.(stdout := RawOutput("    ", TrimNewlines(f.stdout)),
                         stderr := RawOutput("    ", TrimNewlines(f.stderr)))]
  {
    assert (suites + [s])[..|suites|] == suites;
  }

  // ----- the files of a run -----

  lemma {:induction false} FirstTimeIsForeign(flag: string, files: seq<TestFile>)
    ensures ForeignOption(FirstTimeIn(flag, files))
    decreases |files|
  {
    hide ForeignTime, ExpectedCases;
    if files != [] {
      ExpectedTimesAreForeign(flag, files[0]);
      FirstTimeIsForeign(FlagAfter(flag, files[0]), files[1..]);
    }
  }

  lemma {:induction false} TouchReadCases(cases: seq<Case>, later: string)
    requires ForeignTimes(cases) && ForeignTime(later)
    ensures FillCases(ReadCases(cases, None), later) == ReadCases(cases, Some(later))
  {
    hide ReadCase, FillCase, ForeignTime;
    forall i | 0 <= i < |cases|
      ensures FillCase(ReadCases(cases, None)[i], later) == ReadCases(cases, Some(later))[i]
    {
      ReadCasesAt(cases, None, i);
      ReadCasesAt(cases, Some(later), i);
      TouchReadCase(cases[i], NextTime(cases, i, None), later);
    }
  }

  /** The first time behind a file finishes its suite. */
  lemma {:induction false} TouchSuiteAtEnd(flag: string, f: TestFile, later: string)
    requires ForeignTime(later)
    ensures FillSuite(SuiteAtEnd(flag, f), later) == ReadSuite(flag, f, Some(later))
  {
    hide SuiteName, ExpectedCases, ReadCases, Fill, ToDecimal, RawOutput, TrimNewlines, ForeignTime;
    var cases := ExpectedCases(flag, f);
    ExpectedTimesAreForeign(flag, f);
    TouchReadCases(cases, later);
    NumberStays(|f.tests|, later);
    if cases != [] {
      FillTwice(SuiteName(f.name), cases[0].time, later);
    }
  }

  /** The report of a run holds exactly these suites, whatever the names and outputs are. */
  lemma {:induction false} AfterFilesIs(suites: seq<Suite>, flag: string, files: seq<TestFile>)
    ensures AfterFiles(suites, flag, files) == Touched(suites, FirstTimeIn(flag, files)) + ReadSuites(flag, files)
    decreases |files|
  {
    hide AfterFile, ExpectedCases, Touched, FlagAfter, ReadSuite, SuiteAtEnd, ForeignTime, ForeignOption, FirstTime;
    if files == [] {
      TouchedNever(suites);
    } else {
      var f, next := files[0], FlagAfter(flag, files[0]);
      var later := FirstTimeIn(next, files[1..]);
      AfterFileIs(suites, flag, f);
      AfterFilesIs(AfterFile(suites, flag, f), next, files[1..]);
      FirstTimeIsForeign(next, files[1..]);
      TouchedFile(suites, flag, f, later);
    }
  }

  lemma {:induction false} TouchedFile(suites: seq<Suite>, flag: string, f: TestFile, later: Option<string>)
    requires ForeignOption(later)
    ensures var cases := ExpectedCases(flag, f);
      Touched(Touched(suites, FirstTime(cases, None)) + [SuiteAtEnd(flag, f)], later)
      == Touched(suites, FirstTime(cases, later)) + [ReadSuite(flag, f, later)]
  {
    hide ExpectedCases, ReadSuite, FillSuites, FillSuite, ForeignTime;
    var cases := ExpectedCases(flag, f);
    ExpectedTimesAreForeign(flag, f);
    if later.Some? {
      TouchSuiteAtEnd(flag, f, later.value);
      FillSuitesAppend(Touched(suites, FirstTime(cases, None)), SuiteAtEnd(flag, f), later.value);
      if cases != [] {
        TouchedTwice(suites, cases[0].time, later);
      }
    }
  }

  // ---------- names that come back ----------

  lemma {:induction false} HeadOfEncoding(key: string, s: string)
    requires forall i :: 0 <= i < |key| ==> !IsMarkup(key[i])
    ensures key <= EncodeOnce(s) <==> key <= s
  {
    if key != "" && s != "" {
      var rest := EncodeOnce(s[1..]);
      var all := EncodeChar(s[0]) + rest;
      assert s == [s[0]] + s[1..] && key == [key[0]] + key[1..];
      HeadOfEncoding(key[1..], s[1..]);
      assert all[0] == EncodeChar(s[0])[0];
      if !IsMarkup(s[0]) {
        assert all == [s[0]] + rest && all[1..] == rest;
      }
    }
  }

  /** Escaping neither makes nor breaks an occurrence of a text without markup that begins with a dollar sign. */
  lemma {:induction false} EncodingContains(s: string, key: string)
    requires key != "" && key[0] == '$' && forall i :: 0 <= i < |key| ==> !IsMarkup(key[i])
    ensures Contains(EncodeOnce(s), key) <==> Contains(s, key)
  {
    if s != "" {
      var rest := EncodeOnce(s[1..]);
      EncodingContains(s[1..], key);
      HeadOfEncoding(key, s);
      if IsMarkup(s[0]) {
        NoDollarInEntity(s[0]);
        ContainsBehind(EncodeChar(s[0]), rest, key);
        assert !(key <= s);
      } else {
        assert ([s[0]] + rest)[1..] == rest;
      }
    }
  }

  lemma {:induction false} NoDollarInEntity(c: char)
    requires IsMarkup(c)
    ensures '$' !in EncodeChar(c)
  {
  }

  lemma {:induction false} EncodedHoldsVariableIff(s: string)
    ensures HoldsVariable(EncodeText(s)) <==> HoldsVariable(s)
  {
    hide EncodeText, EncodeOnce, Contains;
    FivePassesAreOne(s);
    VariableHasNoMarkup();
    EncodingContains(s, TIME_VARIABLE);
  }

  lemma {:induction false} VariableHasNoMarkup()
    ensures TIME_VARIABLE[0] == '$' && forall i :: 0 <= i < |TIME_VARIABLE| ==> !IsMarkup(TIME_VARIABLE[i])
  {
    VariableLacks('&');
    VariableLacks('<');
    VariableLacks('>');
    VariableLacks('"');
    VariableLacks('\'');
  }

  lemma {:induction false} VariableLacks(c: char)
    requires (c < '0' && c != '$') || '9' < c < 'A'
    ensures c !in TIME_VARIABLE
  {
  }

  /** A name that is escaped, filled with a time and unescaped is the name it was iff it does not hold the variable. */
  lemma {:induction false} NameComesBackIff(name: string, time: string)
    requires ForeignTime(time)
    ensures Decode(Fill(EncodeText(name), time)) == Some(name) <==> !HoldsVariable(name)
  {
    hide Fill, HoldsVariable, Decode, EncodeText;
    EncodingIsInvertible(name, Fill(EncodeText(name), time));
    FillIdleIff(EncodeText(name), time);
    EncodedHoldsVariableIff(name);
  }

  // ---------- outputs that come back ----------

  function StripSpaces(s: string): string {
    if s != "" && s[|s| - 1] == ' ' then StripSpaces(s[..|s| - 1]) else s
  }

  /** The lines between the first newline and the last, which only space may follow. */
  function OutputLines(raw: string): Option<string> {
    var t := StripSpaces(raw);
    if |t| >= 2 && t[0] == '\n' && t[|t| - 1] == '\n' then Some(t[1..|t| - 1]) else None
  }

  /** Nothing is there for an empty output; otherwise the lines decode to it. */
  predicate TellsOutput(raw: Option<string>, text: string) {
    if text == "" then raw == None
    else raw.Some? && OutputLines(raw.value).Some? && Decode(OutputLines(raw.value).value) == Some(text)
  }

  predicate OnlySpaces(s: string) {
    forall i :: 0 <= i < |s| ==> s[i] == ' '
  }

  lemma {:induction false} StripIndentation(front: string, indentation: string)
    requires OnlySpaces(indentation) && front != "" && front[|front| - 1] != ' '
    ensures StripSpaces(front + indentation) == front
  {
    if indentation == "" {
      assert front + indentation == front;
    } else {
      var shorter := indentation[..|indentation| - 1];
      assert (front + indentation)[..|front + indentation| - 1] == front + shorter;
      StripIndentation(front, shorter);
    }
  }

  lemma {:induction false} LinesOf(middle: string, indentation: string)
    requires OnlySpaces(indentation)
    ensures OutputLines("\n" + middle + "\n" + indentation) == Some(middle)
  {
    var front := "\n" + middle + "\n";
    StripIndentation(front, indentation);
    assert front[1..|front| - 1] == middle;
  }

  lemma {:induction false} FillLines(middle: string, indentation: string, time: string)
    requires OnlySpaces(indentation)
    ensures Fill("\n" + middle + "\n" + indentation, time) == "\n" + Fill(middle, time) + "\n" + indentation
  {
    hide ReplaceAll;
    var rest := middle + "\n" + indentation;
    assert '\n' !in TIME_VARIABLE;
    ReplaceAroundChar("", '\n', rest, TIME_VARIABLE, time);
    assert "" + ['\n'] + rest == "\n" + middle + "\n" + indentation;
    ReplaceAroundChar(middle, '\n', indentation, TIME_VARIABLE, time);
    assert middle + ['\n'] + indentation == rest;
    FillNothing(indentation, time);
    FillNothingAtAll(time);
  }

  /** An output comes back unless it holds the time variable and a test ends after it. */
  lemma {:induction false} OutputComesBackIff(indentation: string, text: string, later: Option<string>)
    requires OnlySpaces(indentation) && ForeignOption(later)
    ensures TellsOutput(OptionFilledBy(RawOutput(indentation, text), later), text)
       <==> (later.Some? ==> !HoldsVariable(text))
  {
    hide Fill, HoldsVariable, Decode, EncodeText, OutputLines, ForeignTime;
    if text == "" {
      EmptyLacksVariable();
    } else if later.Some? {
      FillLines(EncodeText(text), indentation, later.value);
      LinesOf(Fill(EncodeText(text), later.value), indentation);
      NameComesBackIff(text, later.value);
    } else {
      LinesOf(EncodeText(text), indentation);
      EncodingIsInvertible(text, EncodeText(text));
    }
  }

  lemma {:induction false} EmptyLacksVariable()
    ensures !HoldsVariable("")
  {
  }

  // ---------- the whole report ----------

  /** The outputs of a test that ran, without trailing newlines, lack the time variable. */
  predicate OutputsLackVariable(t: Test) {
    !HoldsVariable(TrimNewlines(t.stdout)) && !HoldsVariable(TrimNewlines(t.stderr))
  }

  /**
   No text that meets a time holds the time variable: not the title of a file if a case stands in this file or a later
   one; not the names of the tests of a file that have a case; not the outputs of a test that ran, nor those of a file,
   if another test ends after them.
   */
  ghost predicate TextsSurvive(flag: string, files: seq<TestFile>)
    decreases |files|
  {
    files != [] ==>
      FileSurvives(flag, files[0], FirstTimeIn(FlagAfter(flag, files[0]), files[1..]).Some?)
      && TextsSurvive(FlagAfter(flag, files[0]), files[1..])
  }

  ghost predicate FileSurvives(flag: string, f: TestFile, followed: bool) {
    var skipped := FlagAfter(flag, f) == YES;
    var n := |ExpectedCases(flag, f)|;
    (n > 0 || followed ==> !HoldsVariable(SuiteTitle(f.name)))
    && (n > 0 ==> forall i :: 0 <= i < |f.tests| ==>
          !HoldsVariable(f.tests[i].name)
          && (!skipped && (i + 1 < n || followed) ==> OutputsLackVariable(f.tests[i])))
    && (followed ==> !HoldsVariable(TrimNewlines(f.stdout)) && !HoldsVariable(TrimNewlines(f.stderr)))
  }

  /**
   A suite that names its file and, in order, the tests that were run or skipped, with their verdicts, times and
   outputs, and that has the outputs of the file.
   */
  ghost predicate TellsFile(s: Suite, flag: string, f: TestFile) {
    var skipped := FlagAfter(flag, f) == YES;
    Decode(s.name) == Some(SuiteTitle(f.name)) && s.declared == ToDecimal(|f.tests|)
    && TellsOutput(s.stdout, TrimNewlines(f.stdout)) && TellsOutput(s.stderr, TrimNewlines(f.stderr))
    && |s.cases| == (if !skipped && f.sourcingExits then 0 else |f.tests|)
    && forall i :: 0 <= i < |s.cases| ==> TellsTest(s.cases[i], f.name, f.tests[i], skipped)
  }

  ghost predicate TellsTest(c: Case, fileName: string, t: Test, skipped: bool) {
    Decode(c.name) == Some(t.name) && Decode(c.classname) == Some(SuiteTitle(fileName))
    && c.time == (if skipped then "0" else PrintInt(t.seconds))
    && c.verdict == (if skipped then CaseSkipped else if TestStatus(t) == 0 then CasePassed else CaseFailed)
    && TellsOutput(c.stdout, if skipped then "" else TrimNewlines(t.stdout))
    && TellsOutput(c.stderr, if skipped then "" else TrimNewlines(t.stderr))
  }

  /** One suite for each file of the run, in order. */
  ghost predicate TellsRun(suites: seq<Suite>, flag: string, files: seq<TestFile>)
    decreases |files|
  {
    |suites| == |files|
    && (files != [] ==>
          TellsFile(suites[0], flag, files[0]) && TellsRun(suites[1..], FlagAfter(flag, files[0]), files[1..]))
  }

  lemma {:induction false} CasesAre(suite: string, tests: seq<Test>)
    ensures forall i :: 0 <= i < |tests| ==>
      CasesOf(suite, tests)[i] == CaseOf(suite, tests[i])
      && SkippedCases(suite, tests)[i] == SkippedCase(suite, tests[i])
  {
    hide CaseOf, SkippedCase;
    if tests != [] {
      var rest := tests[1..];
      CasesAre(suite, rest);
      forall i | 0 <= i < |tests|
        ensures CasesOf(suite, tests)[i] == CaseOf(suite, tests[i])
        ensures SkippedCases(suite, tests)[i] == SkippedCase(suite, tests[i])
      {
        if i > 0 {
          assert tests[i] == rest[i - 1];
          assert CasesOf(suite, tests)[i] == CasesOf(suite, rest)[i - 1];
          assert SkippedCases(suite, tests)[i] == SkippedCases(suite, rest)[i - 1];
        }
      }
    }
  }

  lemma {:induction false} RunCaseTellsIff(fileName: string, t: Test, next: Option<string>)
    requires ForeignOption(next)
    ensures TellsTest(ReadCase(CaseOf(SuiteName(fileName), t), next), fileName, t, false)
       <==> !HoldsVariable(t.name) && !HoldsVariable(SuiteTitle(fileName)) && (next.Some? ==> OutputsLackVariable(t))
  {
    hide Fill, HoldsVariable, Decode, EncodeText, PrintInt, SuiteTitle, RawOutput, TrimNewlines, TellsOutput,
         ForeignTime, TestStatus;
    PrintIntIsForeign(t.seconds);
    NameComesBackIff(t.name, PrintInt(t.seconds));
    NameComesBackIff(SuiteTitle(fileName), PrintInt(t.seconds));
    OutputComesBackIff("      ", TrimNewlines(t.stdout), next);
    OutputComesBackIff("      ", TrimNewlines(t.stderr), next);
  }

  lemma {:induction false} SkippedCaseTellsIff(fileName: string, t: Test, next: Option<string>)
    ensures TellsTest(ReadCase(SkippedCase(SuiteName(fileName), t), next), fileName, t, true)
       <==> !HoldsVariable(t.name) && !HoldsVariable(SuiteTitle(fileName))
  {
    hide Fill, HoldsVariable, Decode, EncodeText, SuiteTitle, ForeignTime;
    PrintIntIsForeign(0);
    ZeroPrints();
    NameComesBackIff(t.name, "0");
    NameComesBackIff(SuiteTitle(fileName), "0");
  }

  lemma {:induction false} CasesTellIff(flag: string, f: TestFile, later: Option<string>)
    requires ForeignOption(later)
    ensures var cases, skipped := ExpectedCases(flag, f), FlagAfter(flag, f) == YES;
      var n := |cases|;
      n == (if !skipped && f.sourcingExits then 0 else |f.tests|)
      && forall i :: 0 <= i < n ==>
        (TellsTest(ReadCases(cases, later)[i], f.name, f.tests[i], skipped) <==>
          !HoldsVariable(f.tests[i].name) && !HoldsVariable(SuiteTitle(f.name))
          && (!skipped && (i + 1 < n || later.Some?) ==> OutputsLackVariable(f.tests[i])))
  {
    hide HoldsVariable, SuiteTitle, CasesOf, SkippedCases, CaseOf, SkippedCase, ForeignTime, FlagAfter, TellsTest,
         ReadCase, OutputsLackVariable, SuiteName;
    var cases := ExpectedCases(flag, f);
    CasesAre(SuiteName(f.name), f.tests);
    ExpectedTimesAreForeign(flag, f);
    forall i | 0 <= i < |cases|
      ensures TellsTest(ReadCases(cases, later)[i], f.name, f.tests[i], FlagAfter(flag, f) == YES) <==>
        !HoldsVariable(f.tests[i].name) && !HoldsVariable(SuiteTitle(f.name))
        && (FlagAfter(flag, f) != YES && (i + 1 < |cases| || later.Some?) ==> OutputsLackVariable(f.tests[i]))
    {
      var next := NextTime(cases, i, later);
      ReadCasesAt(cases, later, i);
      if FlagAfter(flag, f) == YES {
        SkippedCaseTellsIff(f.name, f.tests[i], next);
      } else {
        RunCaseTellsIff(f.name, f.tests[i], next);
      }
    }
  }

  lemma {:induction false} TitleComesBackIff(title: string, time: Option<string>)
    requires ForeignOption(time)
    ensures Decode(FilledBy(EncodeText(title), time)) == Some(title) <==> (time.Some? ==> !HoldsVariable(title))
  {
    hide Fill, HoldsVariable, Decode, EncodeText, ForeignTime;
    if time.Some? {
      NameComesBackIff(title, time.value);
    } else {
      EncodingIsInvertible(title, EncodeText(title));
    }
  }

  lemma {:induction false} SuiteTellsIff(flag: string, f: TestFile, later: Option<string>)
    requires ForeignOption(later)
    ensures TellsFile(ReadSuite(flag, f, later), flag, f) <==> FileSurvives(flag, f, later.Some?)
  {
    hide HoldsVariable, Decode, EncodeText, ToDecimal, SuiteTitle, ExpectedCases, ForeignTime, FlagAfter, TellsTest,
         TellsOutput, RawOutput, TrimNewlines, OutputsLackVariable, FilledBy;
    var cases := ExpectedCases(flag, f);
    ExpectedTimesAreForeign(flag, f);
    CasesTellIff(flag, f, later);
    TitleComesBackIff(SuiteTitle(f.name), FirstTime(cases, later));
    OutputComesBackIff("    ", TrimNewlines(f.stdout), later);
    OutputComesBackIff("    ", TrimNewlines(f.stderr), later);
  }

  lemma {:induction false} SuitesTellIff(flag: string, files: seq<TestFile>)
    ensures TellsRun(ReadSuites(flag, files), flag, files) <==> TextsSurvive(flag, files)
    decreases |files|
  {
    hide TellsFile, HoldsVariable, ReadSuite, ExpectedCases, FlagAfter, ForeignOption, FileSurvives, FirstTimeIn;
    if files != [] {
      var next := FlagAfter(flag, files[0]);
      FirstTimeIsForeign(next, files[1..]);
      SuiteTellsIff(flag, files[0], FirstTimeIn(next, files[1..]));
      SuitesTellIff(next, files[1..]);
      assert ReadSuites(flag, files)[1..] == ReadSuites(next, files[1..]);
    }
  }

  // ---------- the theorems ----------

  /** What a reader finds in a report. */
  function SuitesIn(report: string): seq<Suite> {
    var read := ReadText(EMPTY_DOC, report);
    if read.None? then [] else read.value.suites
  }

  /**
   For every run, whatever the files, names, outputs and times are, the report is well nested, with a prolog and one
   root, and holds exactly one suite per file, in order, with one case for each test that was run or skipped.
   */
  lemma {:induction false} ReportReadsBack(files: seq<TestFile>)
    ensures var read := ReadText(EMPTY_DOC, RunAll(files).report);
      read.Some? && read.value.prolog && read.value.rooted && read.value.open == [] && IsBlank(read.value.text)
      && read.value.suites == ReadSuites("", files)
    ensures SuitesIn(RunAll(files).report) == ReadSuites("", files)
  {
    hide RunAll, ReadSuites, AfterFiles, ReadText;
    RunReads(files);
    AfterFilesIs([], "", files);
    assert Touched([], FirstTimeIn("", files)) == [];
    assert [] + ReadSuites("", files) == ReadSuites("", files);
  }

  /**
   With the entities decoded, suites and cases carry the names of the files and tests of the run, its verdicts, times
   and outputs, if and only if no text that meets a time holds the time variable.
   */
  lemma {:induction false} ReportTellsRunIff(files: seq<TestFile>)
    ensures TellsRun(SuitesIn(RunAll(files).report), "", files) <==> TextsSurvive("", files)
  {
    hide RunAll, ReadSuites, TellsRun, TextsSurvive, SuitesIn;
    ReportReadsBack(files);
    SuitesTellIff("", files);
  }

  const VARIABLE_FILE := TIME_VARIABLE + "_test.sh"

  lemma {:induction false} VariableFileHoldsVariable()
    ensures HoldsVariable(SuiteTitle(VARIABLE_FILE))
  {
    hide ReplaceAll, Contains;
    var rest := ReplaceAll(ReplaceAll("_test.sh", ".", "_"), "/", ".");
    ReplaceCharAppend(TIME_VARIABLE, "_test.sh", '.', "_");
    ReplaceOther(TIME_VARIABLE, '.', "_");
    ReplaceCharAppend(TIME_VARIABLE, ReplaceAll("_test.sh", ".", "_"), '/', ".");
    ReplaceOther(TIME_VARIABLE, '/', ".");
    assert SuiteTitle(VARIABLE_FILE) == TIME_VARIABLE + rest;
    ContainsFirst(rest, TIME_VARIABLE);
  }

  lemma {:induction false} ContainsFirst(rest: string, key: string)
    requires key != ""
    ensures Contains(key + rest, key)
  {
  }

  /**
   A run of one file with that name, sourced completely and with a test, does not come back from its report: the time
   of the test has taken the place of the variable in the name of the suite.
   */
  lemma {:induction false} VariableFileIsNotTold(t: Test)
    ensures var f := TestFile(VARIABLE_FILE, [t], false, None, "", "");
      !TellsRun(SuitesIn(RunAll([f]).report), "", [f])
  {
    hide TellsRun, SuitesIn, RunAll, HoldsVariable, CasesOf, SkippedCases;
    var f := TestFile(VARIABLE_FILE, [t], false, None, "", "");
    VariableFileHoldsVariable();
    assert ExpectedCases("", f) != [];
    ReportTellsRunIff([f]);
  }

  // ---------- the report and the counters ----------

  function CountVerdict(cases: seq<Case>, verdict: Verdict): nat {
    if cases == [] then 0 else (if cases[0].verdict == verdict then 1 else 0) + CountVerdict(cases[1..], verdict)
  }

  function CountIn(suites: seq<Suite>, verdict: Verdict): nat {
    if suites == [] then 0 else CountVerdict(suites[0].cases, verdict) + CountIn(suites[1..], verdict)
  }

  lemma {:induction false} ReadCounts(cases: seq<Case>, later: Option<string>, verdict: Verdict)
    ensures CountVerdict(ReadCases(cases, later), verdict) == CountVerdict(cases, verdict)
  {
    hide Fill, OptionFilledBy;
    if cases != [] {
      ReadCounts(cases[1..], later, verdict);
      assert ReadCases(cases, later)[1..] == ReadCases(cases[1..], later);
    }
  }

  lemma {:induction false} RunCounts(suite: string, tests: seq<Test>)
    ensures CountVerdict(CasesOf(suite, tests), CasePassed) == Passed(tests)
    ensures CountVerdict(CasesOf(suite, tests), CaseFailed) == |tests| - Passed(tests)
    ensures CountVerdict(CasesOf(suite, tests), CaseSkipped) == 0
  {
    hide EncodeText, PrintInt, TestStatus, RawOutput, TrimNewlines;
    if tests != [] {
      RunCounts(suite, tests[1..]);
      assert CasesOf(suite, tests)[1..] == CasesOf(suite, tests[1..]);
    }
  }

  lemma {:induction false} SkipCounts(suite: string, tests: seq<Test>)
    ensures CountVerdict(SkippedCases(suite, tests), CaseSkipped) == |tests|
    ensures CountVerdict(SkippedCases(suite, tests), CasePassed) == 0
    ensures CountVerdict(SkippedCases(suite, tests), CaseFailed) == 0
  {
    hide EncodeText;
    if tests != [] {
      SkipCounts(suite, tests[1..]);
      assert SkippedCases(suite, tests)[1..] == SkippedCases(suite, tests[1..]);
    }
  }

  lemma {:induction false} CountersMatchFile(st: State, f: TestFile, later: Option<string>)
    ensures var st', cases := RunFile(st, f), ReadCases(ExpectedCases(st.setupFailed, f), later);
      st'.setupFailed == FlagAfter(st.setupFailed, f)
      && st'.successful == st.successful + CountVerdict(cases, CasePassed)
      && st'.failing == st.failing + CountVerdict(cases, CaseFailed)
      && st'.skipped == st.skipped + CountVerdict(cases, CaseSkipped)
  {
    hide RunFile, CasesOf, SkippedCases, SuiteName, Passed, ReadCases;
    var cases := ExpectedCases(st.setupFailed, f);
    SkipCounts(SuiteName(f.name), f.tests);
    RunCounts(SuiteName(f.name), f.tests);
    CountFile(st, f);
    ReadCounts(cases, later, CasePassed);
    ReadCounts(cases, later, CaseFailed);
    ReadCounts(cases, later, CaseSkipped);
  }

  lemma {:induction false} CountersMatchFrom(st: State, files: seq<TestFile>)
    ensures var suites := ReadSuites(st.setupFailed, files);
      var st' := RunFiles(st, files);
      st'.successful == st.successful + CountIn(suites, CasePassed)
      && st'.failing == st.failing + CountIn(suites, CaseFailed)
      && st'.skipped == st.skipped + CountIn(suites, CaseSkipped)
    decreases |files|
  {
    hide RunFile, ExpectedCases, FlagAfter, ReadCases, CountVerdict, FirstTimeIn, RawOutput, TrimNewlines, SuiteName;
    if files != [] {
      var next := FlagAfter(st.setupFailed, files[0]);
      var later := FirstTimeIn(next, files[1..]);
      var suites, rest := ReadSuites(st.setupFailed, files), ReadSuites(next, files[1..]);
      CountersMatchFile(st, files[0], later);
      assert suites[1..] == rest && suites[0].cases == ReadCases(ExpectedCases(st.setupFailed, files[0]), later);
      CountersMatchFrom(RunFile(st, files[0]), files[1..]);
    }
  }

  /** The counters say how many cases of the report passed, failed and were skipped. */
  lemma {:induction false} CountersMatchReport(files: seq<TestFile>)
    ensures var suites := SuitesIn(RunAll(files).report);
      RunAll(files).successful == CountIn(suites, CasePassed)
      && RunAll(files).failing == CountIn(suites, CaseFailed)
      && RunAll(files).skipped == CountIn(suites, CaseSkipped)
  {
    hide RunFiles, ReportStarts, SuitesIn;
    ReportReadsBack(files);
    CountersMatchFrom(NEW_STATE, files);
  }

  ghost predicate DeclaredHold(suites: seq<Suite>) {
    forall i :: 0 <= i < |suites| ==> suites[i].declared == ToDecimal(|suites[i].cases|)
  }

  lemma {:induction false} DeclaredHoldSplits(first: Suite, rest: seq<Suite>)
    ensures DeclaredHold([first] + rest) <==> first.declared == ToDecimal(|first.cases|) && DeclaredHold(rest)
  {
    hide ToDecimal;
    var all := [first] + rest;
    assert all[0] == first && forall i :: 0 <= i < |rest| ==> all[i + 1] == rest[i];
    if first.declared == ToDecimal(|first.cases|) && DeclaredHold(rest) {
      forall i | 0 <= i < |all| ensures all[i].declared == ToDecimal(|all[i].cases|) {
        assert i > 0 ==> all[i] == rest[i - 1];
      }
    }
    if DeclaredHold(all) {
      forall i | 0 <= i < |rest| ensures rest[i].declared == ToDecimal(|rest[i].cases|) {
        assert rest[i] == all[i + 1];
      }
    }
  }

  lemma {:induction false} DeclaredHoldFrom(flag: string, files: seq<TestFile>)
    ensures DeclaredHold(ReadSuites(flag, files)) <==> AllCounted(flag, files)
    decreases |files|
  {
    hide ToDecimal, DeclaredHold, CasesOf, SkippedCases, SuiteName, ReadCases, Fill, RawOutput, TrimNewlines,
         FirstTimeIn;
    if files == [] {
      NothingDeclared();
    } else {
      var f, next := files[0], FlagAfter(flag, files[0]);
      var first := ReadSuite(flag, f, FirstTimeIn(next, files[1..]));
      DeclaredHoldSplits(first, ReadSuites(next, files[1..]));
      DeclaredHoldFrom(next, files[1..]);
      if first.declared == ToDecimal(|first.cases|) {
        DecimalInjective(|f.tests|, |first.cases|);
      }
    }
  }

  lemma {:induction false} NothingDeclared()
    ensures DeclaredHold([])
  {
  }

  /**
   Each suite of the report declares as many tests as it has cases if and only if no file with tests was lost while
   it was sourced, which is also when the accounting adds up.
   */
  lemma {:induction false} DeclaredCountsIff(files: seq<TestFile>)
    ensures DeclaredHold(SuitesIn(RunAll(files).report)) <==> AllCounted("", files)
    ensures DeclaredHold(SuitesIn(RunAll(files).report)) <==> Total(RunAll(files)) == TotalTests(files)
  {
    hide RunAll, ReadSuites, DeclaredHold, SuitesIn;
    ReportReadsBack(files);
    DeclaredHoldFrom("", files);
    AccountingIsConservedIff(files);
  }
}
