/** The test runner as it works: counters and flags in a key-value database, a report file written by events. */
module TestRunner {
  import opened Text
  import opened XmlText
  import opened TestRun

  /** The classes of tests that are counted. */
  datatype Kind = Successes | Failures | Skips

  datatype Scope = SuiteScope | TestScope

  /** The names of the database entries. */
  datatype Key =
    | TestsCount(kind: Kind)
    | GlobalSetupHasFailed
    | CurrentSuiteName
    | StandardOutput(scope: Scope)
    | ErrorOutput(scope: Scope)

  /** Shell arithmetic on a stored number; an unset entry counts as zero. */
  function Number(s: string): nat {
    if AllDigits(s) then FromDecimal(s) else 0
  }

  /** The database after the outputs under a key were moved to the report: only an empty entry is left. */
  function Flushed(db: map<Key, string>, key: Key): map<Key, string> {
    if key in db && TrimNewlines(db[key]) != "" then db[key := ""] else db
  }

  function FlushedBoth(db: map<Key, string>, scope: Scope): map<Key, string> {
    Flushed(Flushed(db, StandardOutput(scope)), ErrorOutput(scope))
  }

  class Runner {
    /** The database: one text per key. */
    var db: map<Key, string>
    /** The JUnit report file. */
    var report: string

    constructor ()
      ensures db == map[] && report == ""
    {
      db := map[];
      report := "";
    }

    function Get(key: Key): string
      reads this
    {
      if key in db then db[key] else ""
    }

    ghost function Contents(): State
      reads this
    {
      State(Number(Get(TestsCount(Successes))), Number(Get(TestsCount(Failures))), Number(Get(TestsCount(Skips))),
            Get(GlobalSetupHasFailed), Get(CurrentSuiteName), report)
    }

    method Put(key: Key, value: string)
      modifies this`db
      ensures db == old(db)[key := value]
    {
      db := db[key := value];
    }

    /** Reads a counter, adds one and writes it back as text. */
    method IncrementTests(kind: Kind)
      modifies this`db
      ensures db == old(db)[TestsCount(kind) := ToDecimal(Number(old(Get(TestsCount(kind)))) + 1)]
      ensures Number(Get(TestsCount(kind))) == Number(old(Get(TestsCount(kind)))) + 1
    {
      var count := Number(Get(TestsCount(kind)));
      PrintThenParse(count + 1);
      Put(TestsCount(kind), ToDecimal(count + 1));
    }

    method ResetResults()
      modifies this`db
      ensures Contents() == old(Contents()).(successful := 0, failing := 0, skipped := 0)
    {
      Put(TestsCount(Successes), "0");
      Put(TestsCount(Failures), "0");
      Put(TestsCount(Skips), "0");
      ZeroIsZero();
    }

    method WriteLine(line: string)
      modifies this`report
      ensures report == Line(old(report), line)
    {
      report := report + line + "\n";
    }

    // ---------- the events of the JUnit reporter ----------

    method TestFilesStartRunning()
      modifies this`report
      ensures report == ReportStarts()
    {
      report := "";
      WriteLine(TagLine("", REPORT_HEADER));
      WriteLine(TagLine("", "testsuites"));
    }

    method TestFileStartsRunning(fileName: string, count: nat)
      modifies this
      ensures db == old(db)[CurrentSuiteName := SuiteName(fileName)]
                           [StandardOutput(SuiteScope) := ""][ErrorOutput(SuiteScope) := ""]
      ensures Contents() == old(Contents()).(suite := SuiteName(fileName),
                                             report := SuiteStarts(old(report), SuiteName(fileName), count))
    {
      var suite := SuiteName(fileName);
      Put(CurrentSuiteName, suite);
      WriteLine(TagLine("  ", SuiteTag(suite, count)));
      DeleteOutputs(SuiteScope);
    }

    method DeleteOutputs(scope: Scope)
      modifies this`db
      ensures db == old(db)[StandardOutput(scope) := ""][ErrorOutput(scope) := ""]
    {
      Put(StandardOutput(scope), "");
      Put(ErrorOutput(scope), "");
    }

    method TestStartsRunning(name: string)
      modifies this
      ensures report == CaseStarts(old(report), name, old(Get(CurrentSuiteName)))
      ensures db == old(db)[StandardOutput(TestScope) := ""][ErrorOutput(TestScope) := ""]
    {
      WriteLine(TagLine("    ", CaseTag(name, Get(CurrentSuiteName))));
      DeleteOutputs(TestScope);
    }

    method MarkTest(element: string)
      modifies this`report
      ensures report == Marked(old(report), element)
    {
      WriteLine(TagLine("      ", element));
      WriteLine(TagLine("      ", "/" + element));
    }

    method TestEndsRunning(time: string)
      modifies this
      ensures report == CaseEnds(old(report), time, old(Get(StandardOutput(TestScope))),
                                 old(Get(ErrorOutput(TestScope))))
      ensures db == FlushedBoth(old(db), TestScope)
      ensures Contents() == old(Contents()).(report := report)
    {
      hide ReplaceAll, TrimNewlines, EncodeText, FromDecimal, AllDigits, TagLine, Output;
      report := ReplaceAll(TrimNewlines(report), TIME_VARIABLE, time) + "\n";
      FlushOutputs(TestScope, "      ");
      WriteLine(TagLine("    ", "/testcase"));
    }

    method FlushOutputs(scope: Scope, indentation: string)
      modifies this
      ensures report == Outputs(old(report), indentation, old(Get(StandardOutput(scope))), old(Get(ErrorOutput(scope))))
      ensures db == FlushedBoth(old(db), scope)
    {
      FlushOutput(StandardOutput(scope), indentation, "system-out");
      FlushOutput(ErrorOutput(scope), indentation, "system-err");
    }

    method FlushOutput(key: Key, indentation: string, element: string)
      modifies this
      ensures report == Output(old(report), indentation, element, TrimNewlines(old(Get(key))))
      ensures db == Flushed(old(db), key)
    {
      var outputs := TrimNewlines(Get(key));
      if outputs != "" {
        WriteLine(TagLine(indentation, element));
        WriteLine(EncodeText(outputs));
        WriteLine(TagLine(indentation, "/" + element));
        Put(key, "");
      }
    }

    method TestFileEndsRunning()
      modifies this
      ensures db == FlushedBoth(old(db), SuiteScope)[CurrentSuiteName := ""]
      ensures Contents() == old(Contents()).(suite := "",
        report := SuiteEnds(old(report), old(Get(StandardOutput(SuiteScope))), old(Get(ErrorOutput(SuiteScope)))))
    {
      hide Number, Outputs, TrimNewlines, EncodeText, TagLine;
      FlushOutputs(SuiteScope, "    ");
      WriteLine(TagLine("  ", "/testsuite"));
      Put(CurrentSuiteName, "");
    }

    // ---------- running ----------

    /** What is printed while standard output and error are redirected to the database. */
    method Capture(scope: Scope, stdout: string, stderr: string)
      modifies this`db
      ensures Contents() == old(Contents())
      ensures Get(StandardOutput(scope)) == stdout && Get(ErrorOutput(scope)) == stderr
    {
      Put(StandardOutput(scope), stdout);
      Put(ErrorOutput(scope), stderr);
    }

    /** Counts the test by the status of its subshell. */
    method ParseTestFunctionResult(status: nat)
      modifies this
      ensures Contents() == if status == 0 then old(Contents()).(successful := old(Contents()).successful + 1)
        else old(Contents()).(failing := old(Contents()).failing + 1, report := Marked(old(report), "failure"))
      ensures forall key: Key :: !key.TestsCount? ==>
        (key in db <==> key in old(db)) && (key in db ==> db[key] == old(db)[key])
    {
      if status == 0 {
        IncrementTests(Successes);
      } else {
        IncrementTests(Failures);
        MarkTest("failure");
      }
    }

    method RunOneTest(t: Test)
      modifies this
      ensures Contents() == RunTest(old(Contents()), t)
    {
      hide CaseStarts, CaseEnds, Marked, FromDecimal, AllDigits, PrintInt, TestStatus, GlobalSetupSucceeds;
      TestStartsRunning(t.name);
      Capture(TestScope, t.stdout, t.stderr);
      ParseTestFunctionResult(TestStatus(t));
      TestEndsRunning(PrintInt(t.seconds));
    }

    method SkipOneTest(t: Test)
      modifies this
      ensures Contents() == SkipTest(old(Contents()), t)
    {
      hide CaseStarts, CaseEnds, Marked, FromDecimal, AllDigits;
      TestStartsRunning(t.name);
      IncrementTests(Skips);
      MarkTest("skipped");
      TestEndsRunning("0");
    }

    method CallAllTests(tests: seq<Test>)
      modifies this
      ensures Contents() == RunTests(old(Contents()), tests)
    {
      assert tests[0..] == tests;
      for i := 0 to |tests|
        invariant RunTests(Contents(), tests[i..]) == RunTests(old(Contents()), tests)
      {
        assert tests[i..][0] == tests[i] && tests[i..][1..] == tests[i + 1..];
        RunOneTest(tests[i]);
      }
    }

    method SkipAllTests(tests: seq<Test>)
      modifies this
      ensures Contents() == SkipTests(old(Contents()), tests)
    {
      assert tests[0..] == tests;
      for i := 0 to |tests|
        invariant SkipTests(Contents(), tests[i..]) == SkipTests(old(Contents()), tests)
      {
        assert tests[i..][0] == tests[i] && tests[i..][1..] == tests[i + 1..];
        SkipOneTest(tests[i]);
      }
    }

    /** The flag says "yes" before `global_setup` is called and "no" only after it has returned successfully. */
    method RunInSubshell(f: TestFile)
      modifies this
      ensures Contents() == RunSubshell(old(Contents()), f)
    {
      if f.sourcingExits {
        return;
      }
      Put(GlobalSetupHasFailed, YES);
      if GlobalSetupSucceeds(f) {
        Put(GlobalSetupHasFailed, NO);
        CallAllTests(f.tests);
      }
    }

    method RunTestFile(f: TestFile)
      modifies this
      ensures Contents() == RunFile(old(Contents()), f)
    {
      TestFileStartsRunning(f.name, |f.tests|);
      RunInSubshell(f);
      if Get(GlobalSetupHasFailed) == YES {
        SkipAllTests(f.tests);
      }
      Capture(SuiteScope, f.stdout, f.stderr);
      TestFileEndsRunning();
    }

    /** A whole run over the test files in their order; the result is the exit condition. */
    method RunAllTestFiles(files: seq<TestFile>) returns (success: bool)
      requires db == map[]
      modifies this
      ensures Contents() == RunAll(files)
      ensures success <==> Successful(RunAll(files))
    {
      TestFilesStartRunning();
      ResetResults();
      assert files[0..] == files;
      for i := 0 to |files|
        invariant RunFiles(Contents(), files[i..]) == RunFiles(NEW_STATE, files)
      {
        assert files[i..][0] == files[i] && files[i..][1..] == files[i + 1..];
        RunTestFile(files[i]);
      }
      WriteLine(TagLine("", "/testsuites"));
      return Number(Get(TestsCount(Failures))) == 0 && Number(Get(TestsCount(Skips))) == 0;
    }
  }

  lemma ZeroIsZero()
    ensures Number("0") == 0
  {
    PrintThenParse(0);
    assert ToDecimal(0) == "0";
  }
}
