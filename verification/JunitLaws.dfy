/** Every run writes a JUnit report that reads back, tag by tag, as the suites and cases of that run. */
module JunitLaws {
  import opened Outcomes
  import opened Text
  import opened XmlText
  import opened TestRun
  import opened Accounting
  import opened JunitReport

  // ---------- the tags that are written ----------

  lemma {:induction false} OpenTag(element: string)
    requires element != "" && element[0] != '?' && element[0] != '/'
    requires ' ' !in element && '$' !in element
    requires '"' !in element
    ensures TokenOf(element) == Open(element, [element], [])
  {
    assert Attributes(element) == Odd([element]) == [] && Labels(element) == Even([element]) == [element];
  }

  lemma {:induction false} ElementTags()
    ensures TokenOf("testsuites") == Open("testsuites", ["testsuites"], [])
    ensures TokenOf("failure") == Open("failure", ["failure"], [])
    ensures TokenOf("skipped") == Open("skipped", ["skipped"], [])
    ensures TokenOf("system-out") == Open("system-out", ["system-out"], [])
    ensures TokenOf("system-err") == Open("system-err", ["system-err"], [])
  {
    hide TokenOf;
    OpenTag("testsuites");
    MarkTags();
    OutputTags();
  }

  lemma {:induction false} MarkTags()
    ensures TokenOf("failure") == Open("failure", ["failure"], [])
    ensures TokenOf("skipped") == Open("skipped", ["skipped"], [])
  {
    hide TokenOf;
    OpenTag("failure");
    OpenTag("skipped");
  }

  lemma {:induction false} OutputTags()
    ensures TokenOf("system-out") == Open("system-out", ["system-out"], [])
    ensures TokenOf("system-err") == Open("system-err", ["system-err"], [])
  {
    hide TokenOf;
    OpenTag("system-out");
    OpenTag("system-err");
  }

  lemma {:induction false} CloseTag(element: string)
    ensures TokenOf("/" + element) == Close(element)
  {
    assert ("/" + element)[0] != PROLOG[0] && ("/" + element)[1..] == element;
  }

  predicate Clean(s: string) {
    '<' !in s && '>' !in s && '"' !in s
  }

  lemma {:induction false} NumbersAreClean(n: nat)
    ensures Clean(ToDecimal(n)) && '$' !in ToDecimal(n)
  {
  }

  /** The first word of a tag is its element. */
  lemma {:induction false} ElementOf(element: string, rest: string)
    requires ' ' !in element && element != "" && rest != "" && rest[0] == ' '
    ensures Split(element + rest, ' ')[0] == element && (element + rest)[0] == element[0]
  {
    assert element + rest == element + [' '] + rest[1..];
    SplitAtSeparator(element, ' ', rest[1..]);
  }

  lemma {:induction false} SplitQuoted(a: string, v: string, rest: string)
    requires '"' !in a && '"' !in v
    ensures Split(a + Quoted(v) + rest, '"') == [a, v] + Split(rest, '"')
    ensures Attributes(a + Quoted(v) + rest) == [v] + Attributes(rest)
    ensures Labels(a + Quoted(v) + rest) == [a] + Labels(rest)
  {
    hide Split;
    var tail := v + ['"'] + rest;
    assert a + Quoted(v) + rest == a + ['"'] + tail;
    SplitAtSeparator(a, '"', tail);
    SplitAtSeparator(v, '"', rest);
    assert [a] + ([v] + Split(rest, '"')) == [a, v] + Split(rest, '"');
    assert ([a, v] + Split(rest, '"'))[2..] == Split(rest, '"');
  }

  lemma {:induction false} SuiteTagToken(suite: string, count: nat)
    requires Clean(suite)
    ensures TokenOf(SuiteTag(suite, count)) == Open("testsuite", SUITE_LABELS, [suite, ToDecimal(count)])
    ensures '>' !in SuiteTag(suite, count)
  {
    hide Attributes, Labels, ToDecimal, Split, Quoted;
    var n, name, tests := ToDecimal(count), " name=", " tests=";
    NumbersAreClean(count);
    SuiteAttributes(name, suite, tests, n);
    QuotedIsClean(suite);
    QuotedIsClean(n);
    var rest := name + Quoted(suite) + tests + Quoted(n);
    assert SuiteTag(suite, count) == "testsuite" + rest;
    assert rest[0] == name[0];
    assert "testsuite" + name == "testsuite name=";
    TagOf("testsuite", rest);
  }

  lemma {:induction false} NoAttributes()
    ensures Attributes("") == [] && Labels("") == [""]
  {
  }

  lemma {:induction false} SuiteAttributes(name: string, suite: string, tests: string, n: string)
    requires '"' !in name && '"' !in suite && '"' !in tests && '"' !in n
    ensures Attributes("testsuite" + name + Quoted(suite) + tests + Quoted(n)) == [suite, n]
    ensures Labels("testsuite" + name + Quoted(suite) + tests + Quoted(n)) == ["testsuite" + name, tests, ""]
  {
    hide Attributes, Labels, Split;
    SplitQuoted("testsuite" + name, suite, tests + Quoted(n));
    SplitQuoted(tests, n, "");
    NoAttributes();
    assert "testsuite" + name + Quoted(suite) + (tests + Quoted(n))
        == "testsuite" + name + Quoted(suite) + tests + Quoted(n);
    assert tests + Quoted(n) + "" == tests + Quoted(n);
  }

  lemma {:induction false} CaseTagToken(name: string, suite: string)
    requires Clean(suite)
    ensures TokenOf(CaseTag(name, suite)) == Open("testcase", CASE_LABELS, [EncodeText(name), suite, TIME_VARIABLE])
    ensures '>' !in CaseTag(name, suite)
  {
    hide EncodeText, Attributes, Labels;
    EncodedHasNoMarkup(name);
    assert Clean(TIME_VARIABLE);
    CaseTagOf(EncodeText(name), suite, TIME_VARIABLE);
  }

  lemma {:induction false} CaseTagOf(name: string, suite: string, time: string)
    requires Clean(name) && Clean(suite) && Clean(time)
    ensures var tag := "testcase" + " name=" + Quoted(name) + " classname=" + Quoted(suite) + " time=" + Quoted(time);
      TokenOf(tag) == Open("testcase", CASE_LABELS, [name, suite, time]) && '>' !in tag
  {
    hide Split, Attributes, Labels, Quoted;
    var first, second, third := " name=", " classname=", " time=";
    CaseAttributes(first, name, second, suite, third, time);
    ThreeAttributesAreClean(first, name, second, suite, third, time);
    var rest := first + Quoted(name) + second + Quoted(suite) + third + Quoted(time);
    assert "testcase" + first + Quoted(name) + second + Quoted(suite) + third + Quoted(time) == "testcase" + rest;
    assert rest[0] == first[0];
    assert "testcase" + first == "testcase name=";
    TagOf("testcase", rest);
  }

  lemma {:induction false} ThreeAttributesAreClean(first: string, name: string, second: string, suite: string,
                                                   third: string, time: string)
    requires '>' !in first && '>' !in second && '>' !in third && Clean(name) && Clean(suite) && Clean(time)
    ensures '>' !in "testcase" + first + Quoted(name) + second + Quoted(suite) + third + Quoted(time)
  {
    hide Quoted;
    QuotedIsClean(name);
    QuotedIsClean(suite);
    QuotedIsClean(time);
  }

  lemma {:induction false} QuotedIsClean(v: string)
    requires Clean(v)
    ensures '>' !in Quoted(v)
  {
  }

  /** A tag with attributes is read as its first word and its quoted values. */
  lemma {:induction false} TagOf(element: string, rest: string)
    requires ' ' !in element && '$' !in element && element != "" && element[0] != '/' && element[0] != '?'
    requires rest != "" && rest[0] == ' '
    ensures TokenOf(element + rest) == Open(element, Labels(element + rest), Attributes(element + rest))
  {
    hide Split, Attributes, Labels;
    ElementOf(element, rest);
    assert element[0] in element;
  }

  lemma {:induction false} CaseAttributes(first: string, name: string, second: string, suite: string, third: string,
                                          time: string)
    requires '"' !in first && '"' !in name && '"' !in second && '"' !in suite && '"' !in third && '"' !in time
    ensures Attributes("testcase" + first + Quoted(name) + second + Quoted(suite) + third + Quoted(time))
         == [name, suite, time]
    ensures Labels("testcase" + first + Quoted(name) + second + Quoted(suite) + third + Quoted(time))
         == ["testcase" + first, second, third, ""]
  {
    hide Attributes, Labels, Split;
    var afterName := second + Quoted(suite) + (third + Quoted(time));
    SplitQuoted("testcase" + first, name, afterName);
    SplitQuoted(second, suite, third + Quoted(time));
    SplitQuoted(third, time, "");
    NoAttributes();
    assert "testcase" + first + Quoted(name) + afterName
        == "testcase" + first + Quoted(name) + second + Quoted(suite) + third + Quoted(time);
    assert third + Quoted(time) + "" == third + Quoted(time);
  }

  // ---------- nesting ----------

  lemma {:induction false} Nesting()
    ensures [] + ["testsuites"] == ROOT && ROOT + ["testsuite"] == IN_SUITE && IN_SUITE + ["testcase"] == IN_CASE
    ensures IN_CASE[..2] == IN_SUITE && IN_SUITE[..1] == ROOT && ROOT[..0] == []
    ensures ROOT != IN_SUITE && IN_SUITE != IN_CASE
  {
  }

  /** A document in the middle of a report. */
  function At(open: seq<string>, suites: seq<Suite>): Doc {
    Doc(true, true, open, suites, "")
  }

  /** Closing the element that was just opened, if it is no output. */
  lemma {:induction false} CloseReads(report: string, open: seq<string>, suites: seq<Suite>, indentation: string,
                                      element: string)
    requires Reads(report, At(open + [element], suites))
    requires IsBlank(indentation) && '>' !in element && !IsOutput(element)
    ensures Reads(Line(report, TagLine(indentation, "/" + element)), At(open, suites))
  {
    hide Reads;
    CloseTag(element);
    assert (open + [element])[..|open|] == open;
    TagLineReads(report, At(open + [element], suites), indentation, "/" + element, At(open, suites));
  }

  lemma {:induction false} EmptyReads()
    ensures Reads("", EMPTY_DOC)
  {
  }

  lemma {:induction false} HeaderReads()
    ensures Reads(Line("", TagLine("", REPORT_HEADER)), EMPTY_DOC.(prolog := true))
  {
    hide Reads;
    EmptyReads();
    assert REPORT_HEADER == PROLOG && '>' !in PROLOG;
    TagLineReads("", EMPTY_DOC, "", REPORT_HEADER, EMPTY_DOC.(prolog := true));
  }

  lemma {:induction false} ReportStartsReads()
    ensures Reads(ReportStarts(), At(ROOT, []))
  {
    hide Reads, TokenOf;
    HeaderReads();
    ElementTags();
    Nesting();
    TagLineReads(Line("", TagLine("", REPORT_HEADER)), EMPTY_DOC.(prolog := true), "", "testsuites", At(ROOT, []));
  }

  lemma {:induction false} SuiteStartsReads(report: string, suites: seq<Suite>, suite: string, count: nat)
    requires Reads(report, At(ROOT, suites)) && Clean(suite)
    ensures Reads(SuiteStarts(report, suite, count),
                  At(IN_SUITE, suites + [Suite(suite, ToDecimal(count), [], None, None)]))
  {
    hide Reads;
    SuiteTagToken(suite, count);
    Nesting();
    TagLineReads(report, At(ROOT, suites), "  ", SuiteTag(suite, count),
                 At(IN_SUITE, suites + [Suite(suite, ToDecimal(count), [], None, None)]));
  }

  /** A case as it is first written, before its time is known. */
  function Written(name: string, suite: string, verdict: Verdict): Case {
    Case(EncodeText(name), suite, TIME_VARIABLE, verdict, None, None)
  }

  lemma {:induction false} CaseStartsReads(report: string, suites: seq<Suite>, name: string, suite: string)
    requires Reads(report, At(IN_SUITE, suites)) && suites != [] && Clean(suite)
    ensures Reads(CaseStarts(report, name, suite), At(IN_CASE, AddCase(suites, Written(name, suite, CasePassed))))
  {
    hide Reads;
    CaseTagToken(name, suite);
    Nesting();
    TagLineReads(report, At(IN_SUITE, suites), "    ", CaseTag(name, suite),
                 At(IN_CASE, AddCase(suites, Written(name, suite, CasePassed))));
  }

  /** Changing the case that was just added is adding it changed. */
  lemma {:induction false} ChangeAdded(suites: seq<Suite>, c: Case, c': Case)
    requires suites != []
    ensures var n, added := |suites| - 1, AddCase(suites, c);
      var m := |suites[n].cases|;
      added[n].cases[m] == c && |added[n].cases| == m + 1
      && added[n := added[n].(cases := added[n].cases[m := c'])] == AddCase(suites, c')
  {
    var last := suites[|suites| - 1];
    assert (last.cases + [c])[|last.cases| := c'] == last.cases + [c'];
  }

  lemma {:induction false} MarkAdded(suites: seq<Suite>, c: Case, verdict: Verdict)
    requires suites != [] && c.verdict == CasePassed
    ensures MarkCase(AddCase(suites, c), verdict) == Some(AddCase(suites, c.(verdict := verdict)))
  {
    ChangeAdded(suites, c, c.(verdict := verdict));
    hide AddCase;
  }

  lemma {:induction false} MarkedReads(report: string, suites: seq<Suite>, c: Case, verdict: Verdict)
    requires suites != [] && c.verdict == CasePassed && verdict != CasePassed
    requires Reads(report, At(IN_CASE, AddCase(suites, c)))
    ensures Reads(Marked(report, if verdict == CaseFailed then "failure" else "skipped"),
                  At(IN_CASE, AddCase(suites, c.(verdict := verdict))))
  {
    hide Reads, TokenOf, AddCase, MarkCase;
    var element := if verdict == CaseFailed then "failure" else "skipped";
    ElementTags();
    MarkAdded(suites, c, verdict);
    var marked := AddCase(suites, c.(verdict := verdict));
    TagLineReads(report, At(IN_CASE, AddCase(suites, c)), "      ", element, At(IN_CASE + [element], marked));
    CloseReads(Line(report, TagLine("      ", element)), IN_CASE, marked, "      ", element);
  }

  // ---------- outputs ----------

  /** The text of an output element: the escaped output on lines of its own. */
  function RawText(indentation: string, text: string): string {
    "\n" + EncodeText(text) + "\n" + indentation
  }

  function RawOutput(indentation: string, text: string): Option<string> {
    if text == "" then None else Some(RawText(indentation, text))
  }

  lemma {:induction false} OutputOpens(d: Doc, element: string)
    requires d.open == IN_SUITE || d.open == IN_CASE
    requires IsOutput(element) && IsBlank(d.text)
    ensures ReadToken(d, Open(element, [element], [])) == Some(d.(open := d.open + [element], text := ""))
  {
  }

  lemma {:induction false} OutputCloses(d: Doc, outer: seq<string>, element: string, suites: seq<Suite>)
    requires d.open == outer + [element] && Left(d.suites, outer, element, d.text) == Some(suites)
    ensures ReadToken(d, Close(element)) == Some(d.(open := outer, suites := suites, text := ""))
  {
    hide Left;
    assert d.open[..|d.open| - 1] == outer;
  }

  /** The three lines of an output, as one text behind the report. */
  lemma {:induction false} OutputIsBlock(report: string, indentation: string, element: string, text: string)
    requires text != ""
    ensures Output(report, indentation, element, text)
         == report + (indentation + ['<'] + (element + ['>'] + (RawText(indentation, text) + ['<']
                      + (("/" + element) + ['>'] + "\n"))))
  {
    hide EncodeText;
  }

  lemma {:induction false} OutputReads(report: string, open: seq<string>, suites: seq<Suite>, indentation: string,
                                       element: string, text: string, suites': seq<Suite>)
    requires Reads(report, At(open, suites)) && (open == IN_SUITE || open == IN_CASE) && IsBlank(indentation)
    requires IsOutput(element)
    requires if text == "" then suites' == suites
             else Left(suites, open, element, RawText(indentation, text)) == Some(suites')
    ensures Reads(Output(report, indentation, element, text), At(open, suites'))
  {
    hide TokenOf, EncodeText, ReadToken, ReadText, Left, RawText;
    if text != "" {
      var raw := RawText(indentation, text);
      var before := At(open, suites).(text := ReadText(EMPTY_DOC, report).value.text);
      var d0 := before.(text := before.text + indentation);
      var d1 := d0.(open := open + [element], text := "");
      OutputTags();
      CloseTag(element);
      BlankAppend(before.text, indentation);
      BlankHasNoTag(indentation);
      RawTextHasNoTag(indentation, text);
      OutputIsBlock(report, indentation, element, text);
      OutputOpens(d0, element);
      ReadTag(before, indentation, element, raw + ['<'] + (("/" + element) + ['>'] + "\n"));
      assert d1.text + raw == raw;
      OutputCloses(d1.(text := raw), open, element, suites');
      ReadTag(d1, raw, "/" + element, "\n");
      ReadOnlyText(At(open, suites'), "\n");
      MoreReads(report, At(open, suites),
                indentation + ['<'] + (element + ['>'] + (raw + ['<'] + (("/" + element) + ['>'] + "\n"))),
                At(open, suites'));
    }
  }

  lemma {:induction false} RawTextHasNoTag(indentation: string, text: string)
    requires IsBlank(indentation)
    ensures '<' !in RawText(indentation, text)
  {
    EncodedHasNoMarkup(text);
    BlankHasNoTag(indentation);
    hide EncodeText;
  }

  lemma {:induction false} CaseOutputAdded(suites: seq<Suite>, c: Case, element: string, text: string)
    requires suites != [] && IsOutput(element)
    requires (if element == "system-out" then c.stdout else c.stderr).None?
    ensures CaseOutput(AddCase(suites, c), element, text)
         == Some(AddCase(suites, if element == "system-out" then c.(stdout := Some(text))
                                 else c.(stderr := Some(text))))
  {
    ChangeAdded(suites, c, if element == "system-out" then c.(stdout := Some(text)) else c.(stderr := Some(text)));
    hide AddCase;
  }

  /** The outputs of a case are kept with it. */
  lemma {:induction false} CaseOutputsRead(report: string, suites: seq<Suite>, c: Case, stdout: string, stderr: string)
    requires suites != [] && c.stdout == None && c.stderr == None
    requires Reads(report, At(IN_CASE, AddCase(suites, c)))
    ensures Reads(Outputs(report, "      ", stdout, stderr), At(IN_CASE, AddCase(suites,
      c.(stdout := RawOutput("      ", TrimNewlines(stdout)), stderr := RawOutput("      ", TrimNewlines(stderr))))))
  {
    hide Reads, AddCase, CaseOutput, TrimNewlines, RawText, Output;
    var out, err := TrimNewlines(stdout), TrimNewlines(stderr);
    var c1 := c.(stdout := RawOutput("      ", out));
    var c2 := c1.(stderr := RawOutput("      ", err));
    CaseOutputAdded(suites, c, "system-out", RawText("      ", out));
    OutputReads(report, IN_CASE, AddCase(suites, c), "      ", "system-out", out, AddCase(suites, c1));
    CaseOutputAdded(suites, c1, "system-err", RawText("      ", err));
    OutputReads(Output(report, "      ", "system-out", out), IN_CASE, AddCase(suites, c1), "      ", "system-err", err,
                AddCase(suites, c2));
  }

  lemma {:induction false} SuiteOutputAdded(suites: seq<Suite>, s: Suite, element: string, text: string)
    requires IsOutput(element) && (if element == "system-out" then s.stdout else s.stderr).None?
    ensures SuiteOutput(suites + [s], element, text)
         == Some(suites + [if element == "system-out" then s.(stdout := Some(text)) else s.(stderr := Some(text))])
  {
    var s' := if element == "system-out" then s.(stdout := Some(text)) else s.(stderr := Some(text));
    assert (suites + [s])[|suites| := s'] == suites + [s'];
  }

  /** The outputs of a suite are kept with it. */
  lemma {:induction false} SuiteOutputsRead(report: string, suites: seq<Suite>, s: Suite, stdout: string,
                                            stderr: string)
    requires s.stdout == None && s.stderr == None
    requires Reads(report, At(IN_SUITE, suites + [s]))
    ensures Reads(Outputs(report, "    ", stdout, stderr), At(IN_SUITE, suites +
      [s.(stdout := RawOutput("    ", TrimNewlines(stdout)), stderr := RawOutput("    ", TrimNewlines(stderr)))]))
  {
    hide Reads, SuiteOutput, TrimNewlines, RawText, Output;
    var out, err := TrimNewlines(stdout), TrimNewlines(stderr);
    var s1 := s.(stdout := RawOutput("    ", out));
    var s2 := s1.(stderr := RawOutput("    ", err));
    Nesting();
    SuiteOutputAdded(suites, s, "system-out", RawText("    ", out));
    OutputReads(report, IN_SUITE, suites + [s], "    ", "system-out", out, suites + [s1]);
    SuiteOutputAdded(suites, s1, "system-err", RawText("    ", err));
    OutputReads(Output(report, "    ", "system-out", out), IN_SUITE, suites + [s1], "    ", "system-err", err,
                suites + [s2]);
  }

  // ---------- the end of a test and of a file ----------

  /** A case once its own time is known. */
  function Timed(c: Case): Case {
    c.(name := Fill(c.name, c.time), classname := Fill(c.classname, c.time))
  }

  /** The suites after a case has ended: its time is filled in wherever the time variable stands so far. */
  function Ended(suites: seq<Suite>, c: Case): (r: seq<Suite>)
    requires suites != []
    ensures |r| == |suites|
  {
    AddCase(FillSuites(suites, c.time), Timed(c))
  }

  lemma {:induction false} CaseEndsReads(report: string, suites: seq<Suite>, c: Case, stdout: string, stderr: string)
    requires suites != [] && TimeText(c.time)
    requires c.stdout == RawOutput("      ", TrimNewlines(stdout))
    requires c.stderr == RawOutput("      ", TrimNewlines(stderr))
    requires Reads(report, At(IN_CASE, AddCase(suites, c.(time := TIME_VARIABLE, stdout := None, stderr := None))))
    ensures Reads(CaseEnds(report, c.time, stdout, stderr), At(IN_SUITE, Ended(suites, c)))
  {
    hide Reads, AddCase, FillSuites, Fill, Outputs, WithTime, TrimNewlines, RawOutput;
    var written := c.(time := TIME_VARIABLE, stdout := None, stderr := None);
    var plain := Timed(c).(stdout := None, stderr := None);
    TimeReads(report, At(IN_CASE, AddCase(suites, written)), c.time);
    FillNothingAtAll(c.time);
    VariableIsFilled(c.time);
    FillAddCase(suites, written, c.time);
    CaseOutputsRead(WithTime(report, c.time), FillSuites(suites, c.time), plain, stdout, stderr);
    Nesting();
    assert "/" + "testcase" == "/testcase";
    CloseReads(Outputs(WithTime(report, c.time), "      ", stdout, stderr), IN_SUITE, Ended(suites, c), "    ",
               "testcase");
  }

  lemma {:induction false} SuiteEndsReads(report: string, suites: seq<Suite>, s: Suite, stdout: string, stderr: string)
    requires s.stdout == None && s.stderr == None
    requires Reads(report, At(IN_SUITE, suites + [s]))
    ensures Reads(SuiteEnds(report, stdout, stderr), At(ROOT, suites +
      [s.(stdout := RawOutput("    ", TrimNewlines(stdout)), stderr := RawOutput("    ", TrimNewlines(stderr)))]))
  {
    hide Reads, Outputs, TrimNewlines, RawOutput;
    SuiteOutputsRead(report, suites, s, stdout, stderr);
    Nesting();
    assert "/" + "testsuite" == "/testsuite";
    var out, err := RawOutput("    ", TrimNewlines(stdout)), RawOutput("    ", TrimNewlines(stderr));
    CloseReads(Outputs(report, "    ", stdout, stderr), ROOT, suites + [s.(stdout := out, stderr := err)], "  ",
               "testsuite");
  }

  // ---------- the document a run writes ----------

  function VerdictOf(t: Test): Verdict {
    if TestStatus(t) == 0 then CasePassed else CaseFailed
  }

  /** The cases of tests that run, as they ought to be read, under the escaped name of their suite. */
  function CasesOf(suite: string, tests: seq<Test>): (r: seq<Case>)
    ensures |r| == |tests|
  {
    if tests == [] then [] else [CaseOf(suite, tests[0])] + CasesOf(suite, tests[1..])
  }

  function CaseOf(suite: string, t: Test): Case {
    Case(EncodeText(t.name), suite, PrintInt(t.seconds), VerdictOf(t),
         RawOutput("      ", TrimNewlines(t.stdout)), RawOutput("      ", TrimNewlines(t.stderr)))
  }

  function SkippedCases(suite: string, tests: seq<Test>): (r: seq<Case>)
    ensures |r| == |tests|
  {
    if tests == [] then [] else [SkippedCase(suite, tests[0])] + SkippedCases(suite, tests[1..])
  }

  function SkippedCase(suite: string, t: Test): Case {
    Case(EncodeText(t.name), suite, "0", CaseSkipped, None, None)
  }

  /** The cases of a file: its tests if they run, all skipped if the flag says so, otherwise none at all. */
  function ExpectedCases(flag: string, f: TestFile): seq<Case> {
    if FlagAfter(flag, f) == YES then SkippedCases(SuiteName(f.name), f.tests)
    else if f.sourcingExits then [] else CasesOf(SuiteName(f.name), f.tests)
  }

  function AfterCases(suites: seq<Suite>, cases: seq<Case>): (r: seq<Suite>)
    requires suites != []
    ensures |r| == |suites|
    ensures suites[|suites| - 1].stdout == None ==> r[|suites| - 1].stdout == None
    ensures suites[|suites| - 1].stderr == None ==> r[|suites| - 1].stderr == None
    decreases |cases|
  {
    if cases == [] then suites else AfterCases(Ended(suites, cases[0]), cases[1..])
  }

  function Begun(f: TestFile): Suite {
    Suite(SuiteName(f.name), ToDecimal(|f.tests|), [], None, None)
  }

  /** The last suite with the outputs of its file. */
  function Finished(suites: seq<Suite>, f: TestFile): seq<Suite>
    requires suites != []
  {
    suites[..|suites| - 1]
    + [suites[|suites| - 1].(stdout := RawOutput("    ", TrimNewlines(f.stdout)),
                             stderr := RawOutput("    ", TrimNewlines(f.stderr)))]
  }

  function AfterFile(suites: seq<Suite>, flag: string, f: TestFile): seq<Suite> {
    Finished(AfterCases(suites + [Begun(f)], ExpectedCases(flag, f)), f)
  }

  function AfterFiles(suites: seq<Suite>, flag: string, files: seq<TestFile>): seq<Suite>
    decreases |files|
  {
    if files == [] then suites else AfterFiles(AfterFile(suites, flag, files[0]), FlagAfter(flag, files[0]), files[1..])
  }

  lemma {:induction false} RunTestReads(st: State, suites: seq<Suite>, t: Test)
    requires Reads(st.report, At(IN_SUITE, suites)) && suites != [] && Clean(st.suite)
    ensures Reads(RunTest(st, t).report, At(IN_SUITE, Ended(suites, CaseOf(st.suite, t))))
  {
    hide Reads, FillSuites, AddCase, EncodeText, PrintInt, TestStatus, CaseEnds, CaseStarts, Marked, RawOutput, Ended,
         TrimNewlines;
    var started := CaseStarts(st.report, t.name, st.suite);
    var c := Written(t.name, st.suite, CasePassed);
    CaseStartsReads(st.report, suites, t.name, st.suite);
    PrintIntIsTimeText(t.seconds);
    if TestStatus(t) == 0 {
      CaseEndsReads(started, suites, CaseOf(st.suite, t), t.stdout, t.stderr);
    } else {
      MarkedReads(started, suites, c, CaseFailed);
      CaseEndsReads(Marked(started, "failure"), suites, CaseOf(st.suite, t), t.stdout, t.stderr);
    }
  }

  lemma {:induction false} SkipTestReads(st: State, suites: seq<Suite>, t: Test)
    requires Reads(st.report, At(IN_SUITE, suites)) && suites != [] && Clean(st.suite)
    ensures Reads(SkipTest(st, t).report, At(IN_SUITE, Ended(suites, SkippedCase(st.suite, t))))
  {
    hide Reads, FillSuites, AddCase, EncodeText, CaseEnds, CaseStarts, Marked, Ended;
    var started := CaseStarts(st.report, t.name, st.suite);
    var c := Written(t.name, st.suite, CasePassed);
    CaseStartsReads(st.report, suites, t.name, st.suite);
    MarkedReads(started, suites, c, CaseSkipped);
    assert TrimNewlines("") == "";
    CaseEndsReads(Marked(started, "skipped"), suites, SkippedCase(st.suite, t), "", "");
  }

  lemma {:induction false} RunTestsRead(st: State, suites: seq<Suite>, tests: seq<Test>)
    requires Reads(st.report, At(IN_SUITE, suites)) && suites != [] && Clean(st.suite)
    ensures Reads(RunTests(st, tests).report, At(IN_SUITE, AfterCases(suites, CasesOf(st.suite, tests))))
    decreases |tests|
  {
    hide Reads, Ended, CaseOf;
    if tests != [] {
      RunTestReads(st, suites, tests[0]);
      RunTestsRead(RunTest(st, tests[0]), Ended(suites, CaseOf(st.suite, tests[0])), tests[1..]);
      assert CasesOf(st.suite, tests)[1..] == CasesOf(st.suite, tests[1..]);
    }
  }

  lemma {:induction false} SkipTestsRead(st: State, suites: seq<Suite>, tests: seq<Test>)
    requires Reads(st.report, At(IN_SUITE, suites)) && suites != [] && Clean(st.suite)
    ensures Reads(SkipTests(st, tests).report, At(IN_SUITE, AfterCases(suites, SkippedCases(st.suite, tests))))
    decreases |tests|
  {
    hide Reads, Ended, SkippedCase;
    if tests != [] {
      SkipTestReads(st, suites, tests[0]);
      SkipTestsRead(SkipTest(st, tests[0]), Ended(suites, SkippedCase(st.suite, tests[0])), tests[1..]);
      assert SkippedCases(st.suite, tests)[1..] == SkippedCases(st.suite, tests[1..]);
    }
  }

  lemma {:induction false} SuiteNameIsClean(fileName: string)
    ensures Clean(SuiteName(fileName))
  {
    hide EncodeText;
    EncodedHasNoMarkup(SuiteTitle(fileName));
  }

  lemma {:induction false} FileReads(st: State, suites: seq<Suite>, f: TestFile)
    requires Reads(st.report, At(ROOT, suites))
    ensures Reads(RunFile(st, f).report, At(ROOT, AfterFile(suites, st.setupFailed, f)))
  {
    hide Reads, RunTests, SkipTests, AfterCases, SuiteStarts, SuiteEnds, SuiteName, CasesOf, SkippedCases, RawOutput,
         TrimNewlines;
    var suite := SuiteName(f.name);
    var started := st.(suite := suite, report := SuiteStarts(st.report, suite, |f.tests|));
    var begun := suites + [Begun(f)];
    SuiteNameIsClean(f.name);
    SuiteStartsReads(st.report, suites, suite, |f.tests|);
    NoCases(begun);
    var ran := RunSubshell(started, f);
    assert YES != NO;
    if !f.sourcingExits && GlobalSetupSucceeds(f) {
      RunTestsRead(started.(setupFailed := NO), begun, f.tests);
      CountRun(started.(setupFailed := NO), f.tests);
    } else if ran.setupFailed == YES {
      SkipTestsRead(ran, begun, f.tests);
    }
    var done := if ran.setupFailed == YES then SkipTests(ran, f.tests) else ran;
    var after := AfterCases(begun, ExpectedCases(st.setupFailed, f));
    var n := |after| - 1;
    assert after == after[..n] + [after[n]];
    SuiteEndsReads(done.report, after[..n], after[n], f.stdout, f.stderr);
  }

  lemma {:induction false} NoCases(suites: seq<Suite>)
    requires suites != []
    ensures AfterCases(suites, []) == suites
  {
  }

  lemma {:induction false} FilesRead(st: State, suites: seq<Suite>, files: seq<TestFile>)
    requires Reads(st.report, At(ROOT, suites))
    ensures Reads(RunFiles(st, files).report, At(ROOT, AfterFiles(suites, st.setupFailed, files)))
    decreases |files|
  {
    hide Reads, RunFile, AfterFile;
    if files != [] {
      FileReads(st, suites, files[0]);
      CountFile(st, files[0]);
      FilesRead(RunFile(st, files[0]), AfterFile(suites, st.setupFailed, files[0]), files[1..]);
    }
  }

  lemma {:induction false} RunReads(files: seq<TestFile>)
    ensures Reads(RunAll(files).report, At([], AfterFiles([], "", files)))
  {
    hide Reads, ReportStarts, RunFiles, AfterFiles;
    ReportStartsReads();
    FilesRead(NEW_STATE, [], files);
    Nesting();
    assert "/" + "testsuites" == "/testsuites";
    CloseReads(RunFiles(NEW_STATE, files).report, [], AfterFiles([], "", files), "", "testsuites");
  }
}
