/**
 A run of the bundled test runner on values: how test functions end, how they are counted, and the text of the
 JUnit report, event by event. `TestRunner.dfy` is the program with its database, proved to compute these functions.
 */
module TestRun {
  import opened Outcomes
  import opened Text
  import opened XmlText

  /** How a shell function comes to its end: it returns a status, or it exits the shell it runs in. */
  datatype Ending = Returns(code: nat) | Exits(code: nat)

  /** A test function with the `setup` and `teardown` around it, what they print, and how long they take. */
  datatype Test = Test(name: string, setup: Option<Ending>, body: nat, teardown: Option<Ending>,
                       stdout: string, stderr: string, seconds: int)

  /** A test file: its test functions, whether sourcing it exits the shell, and its `global_setup`. */
  datatype TestFile = TestFile(name: string, tests: seq<Test>, sourcingExits: bool, globalSetup: Option<Ending>,
                               stdout: string, stderr: string)

  // ---------- the status of one test ----------

  function StatusOf(function_: Option<Ending>): nat {
    if function_.None? then 0 else function_.value.code
  }

  predicate ExitsShell(function_: Option<Ending>) {
    function_.Some? && function_.value.Exits?
  }

  /** The status of the subshell that runs setup, test and teardown. */
  function TestStatus(t: Test): nat {
    if ExitsShell(t.setup) then StatusOf(t.setup)
    else
      var setupAndTest := if StatusOf(t.setup) == 0 then t.body else StatusOf(t.setup);
      if ExitsShell(t.teardown) then StatusOf(t.teardown)
      else if StatusOf(t.teardown) == 0 && setupAndTest == 0 then 0 else 1
  }

  predicate GlobalSetupSucceeds(f: TestFile) {
    !ExitsShell(f.globalSetup) && StatusOf(f.globalSetup) == 0
  }

  // ---------- the report ----------

  const TIME_VARIABLE := "${sbu_current_test_time}"

  function PrintInt(n: int): string {
    if n < 0 then "-" + ToDecimal(-n) else ToDecimal(n)
  }

  /** Appends a line to the report. */
  function Line(report: string, line: string): string {
    report + line + "\n"
  }

  function TrimNewlines(s: string): string {
    if s != "" && s[|s| - 1] == '\n' then TrimNewlines(s[..|s| - 1]) else s
  }

  const REPORT_HEADER := "?xml version=\"1.0\" encoding=\"UTF-8\" ?"

  function TagLine(indentation: string, tag: string): string {
    indentation + "<" + tag + ">"
  }

  function ReportStarts(): string {
    Line(Line("", TagLine("", REPORT_HEADER)), TagLine("", "testsuites"))
  }

  /** The dotted name of a test file, and the same escaped as it goes into the report. */
  function SuiteTitle(fileName: string): string {
    ReplaceAll(ReplaceAll(fileName, ".", "_"), "/", ".")
  }

  function SuiteName(fileName: string): string {
    EncodeText(SuiteTitle(fileName))
  }

  function Quoted(s: string): string {
    "\"" + s + "\""
  }

  function SuiteTag(suite: string, count: nat): string {
    "testsuite" + " name=" + Quoted(suite) + " tests=" + Quoted(ToDecimal(count))
  }

  function SuiteStarts(report: string, suite: string, count: nat): string {
    Line(report, TagLine("  ", SuiteTag(suite, count)))
  }

  function CaseTag(name: string, suite: string): string {
    "testcase" + " name=" + Quoted(EncodeText(name)) + " classname=" + Quoted(suite) + " time=" + Quoted(TIME_VARIABLE)
  }

  function CaseStarts(report: string, name: string, suite: string): string {
    Line(report, TagLine("    ", CaseTag(name, suite)))
  }

  /** `<failure>` or `<skipped>`, with its end tag. */
  function Marked(report: string, element: string): string {
    Line(Line(report, TagLine("      ", element)), TagLine("      ", "/" + element))
  }

  /** The whole report is rewritten with the time in place of the variable. */
  function WithTime(report: string, time: string): string {
    ReplaceAll(TrimNewlines(report), TIME_VARIABLE, time) + "\n"
  }

  function Output(report: string, indentation: string, element: string, text: string): string {
    if text == "" then report
    else Line(Line(Line(report, TagLine(indentation, element)), EncodeText(text)), TagLine(indentation, "/" + element))
  }

  function Outputs(report: string, indentation: string, stdout: string, stderr: string): string {
    Output(Output(report, indentation, "system-out", TrimNewlines(stdout)),
           indentation, "system-err", TrimNewlines(stderr))
  }

  function CaseEnds(report: string, time: string, stdout: string, stderr: string): string {
    Line(Outputs(WithTime(report, time), "      ", stdout, stderr), TagLine("    ", "/testcase"))
  }

  function SuiteEnds(report: string, stdout: string, stderr: string): string {
    Line(Outputs(report, "    ", stdout, stderr), TagLine("  ", "/testsuite"))
  }

  function ReportEnds(report: string): string {
    Line(report, TagLine("", "/testsuites"))
  }

  // ---------- the run ----------

  const YES := "yes"
  const NO := "no"

  /** The counters, the `global_setup` flag as last written, the current suite name, and the report. */
  datatype State = State(successful: nat, failing: nat, skipped: nat, setupFailed: string, suite: string,
                         report: string)

  function RunTest(st: State, t: Test): State {
    var started := CaseStarts(st.report, t.name, st.suite);
    if TestStatus(t) == 0 then
      st.(successful := st.successful + 1, report := CaseEnds(started, PrintInt(t.seconds), t.stdout, t.stderr))
    else
      st.(failing := st.failing + 1,
          report := CaseEnds(Marked(started, "failure"), PrintInt(t.seconds), t.stdout, t.stderr))
  }

  function SkipTest(st: State, t: Test): State {
    st.(skipped := st.skipped + 1,
        report := CaseEnds(Marked(CaseStarts(st.report, t.name, st.suite), "skipped"), "0", "", ""))
  }

  function RunTests(st: State, tests: seq<Test>): State
    decreases |tests|
  {
    if tests == [] then st else RunTests(RunTest(st, tests[0]), tests[1..])
  }

  function SkipTests(st: State, tests: seq<Test>): State
    decreases |tests|
  {
    if tests == [] then st else SkipTests(SkipTest(st, tests[0]), tests[1..])
  }

  /** The subshell that sources the file: nothing happens in it when sourcing exits. */
  function RunSubshell(st: State, f: TestFile): State {
    if f.sourcingExits then st
    else if GlobalSetupSucceeds(f) then RunTests(st.(setupFailed := NO), f.tests)
    else st.(setupFailed := YES)
  }

  function RunFile(st: State, f: TestFile): State {
    var suite := SuiteName(f.name);
    var started := st.(suite := suite, report := SuiteStarts(st.report, suite, |f.tests|));
    var ran := RunSubshell(started, f);
    var done := if ran.setupFailed == YES then SkipTests(ran, f.tests) else ran;
    done.(suite := "", report := SuiteEnds(done.report, f.stdout, f.stderr))
  }

  function RunFiles(st: State, files: seq<TestFile>): State
    decreases |files|
  {
    if files == [] then st else RunFiles(RunFile(st, files[0]), files[1..])
  }

  const NEW_STATE := State(0, 0, 0, "", "", ReportStarts())

  function RunAll(files: seq<TestFile>): State {
    var st := RunFiles(NEW_STATE, files);
    st.(report := ReportEnds(st.report))
  }

  /** The exit condition of the whole run. */
  predicate Successful(st: State) {
    st.failing == 0 && st.skipped == 0
  }
}
