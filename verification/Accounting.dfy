/** Test accounting: every test function is counted once, and what the exit condition of a run means. */
module Accounting {
  import opened Outcomes
  import opened TestRun

  function Total(st: State): nat {
    st.successful + st.failing + st.skipped
  }

  function TotalTests(files: seq<TestFile>): nat {
    if files == [] then 0 else |files[0].tests| + TotalTests(files[1..])
  }

  function Passed(tests: seq<Test>): nat {
    if tests == [] then 0 else (if TestStatus(tests[0]) == 0 then 1 else 0) + Passed(tests[1..])
  }

  lemma {:induction false} PassedAtMost(tests: seq<Test>)
    ensures Passed(tests) <= |tests|
    ensures Passed(tests) == |tests| <==> forall i :: 0 <= i < |tests| ==> TestStatus(tests[i]) == 0
  {
    if tests != [] {
      PassedAtMost(tests[1..]);
      assert forall i :: 0 <= i < |tests[1..]| ==> tests[1..][i] == tests[i + 1];
      if forall i :: 0 <= i < |tests[1..]| ==> TestStatus(tests[1..][i]) == 0 {
        forall i | 1 <= i < |tests| ensures TestStatus(tests[i]) == 0 {
          assert tests[1..][i - 1] == tests[i];
        }
      }
    }
  }

  // ---------- one test ----------

  /**
   A test is counted as a success exactly when everything returned zero, or when `setup` or `teardown` ended the
   subshell early with `exit 0`: then the status of the test itself does not matter.
   */
  lemma SuccessOfATest(t: Test)
    ensures TestStatus(t) == 0 <==>
      t.setup == Some(Exits(0))
      || (!ExitsShell(t.setup) && t.teardown == Some(Exits(0)))
      || (!ExitsShell(t.setup) && StatusOf(t.setup) == 0 && t.body == 0
          && !ExitsShell(t.teardown) && StatusOf(t.teardown) == 0)
  {
  }

  // ---------- one file ----------

  /** A global setup succeeds when there is none or it returns zero; one that exits does not, whatever its status. */
  lemma GlobalSetupSucceedsIff(f: TestFile)
    ensures GlobalSetupSucceeds(f) <==> f.globalSetup == None || f.globalSetup == Some(Returns(0))
  {
  }

  /** The flag in the database after a file. */
  function FlagAfter(flag: string, f: TestFile): string {
    if f.sourcingExits then flag else if GlobalSetupSucceeds(f) then NO else YES
  }

  lemma {:induction false} CountRun(st: State, tests: seq<Test>)
    ensures var st' := RunTests(st, tests);
      st'.successful == st.successful + Passed(tests) && st'.failing == st.failing + |tests| - Passed(tests)
      && st'.skipped == st.skipped && st'.setupFailed == st.setupFailed && st'.suite == st.suite
    decreases |tests|
  {
    if tests != [] {
      CountRun(RunTest(st, tests[0]), tests[1..]);
    }
  }

  lemma {:induction false} CountSkipped(st: State, tests: seq<Test>)
    ensures var st' := SkipTests(st, tests);
      st'.skipped == st.skipped + |tests| && st'.successful == st.successful && st'.failing == st.failing
      && st'.setupFailed == st.setupFailed && st'.suite == st.suite
    decreases |tests|
  {
    if tests != [] {
      CountSkipped(SkipTest(st, tests[0]), tests[1..]);
    }
  }

  /** Each test of a file is counted in exactly one class, all in the same way. */
  lemma CountFile(st: State, f: TestFile)
    ensures var st' := RunFile(st, f);
      st'.setupFailed == FlagAfter(st.setupFailed, f)
      && if f.sourcingExits && st.setupFailed != YES then
           st'.successful == st.successful && st'.failing == st.failing && st'.skipped == st.skipped
         else if !f.sourcingExits && GlobalSetupSucceeds(f) then
           st'.successful == st.successful + Passed(f.tests)
           && st'.failing == st.failing + |f.tests| - Passed(f.tests) && st'.skipped == st.skipped
         else st'.skipped == st.skipped + |f.tests| && st'.successful == st.successful && st'.failing == st.failing
  {
    var suite := SuiteName(f.name);
    var started := st.(suite := suite, report := SuiteStarts(st.report, suite, |f.tests|));
    CountRun(started.(setupFailed := NO), f.tests);
    CountSkipped(RunSubshell(started, f), f.tests);
  }

  // ---------- a whole run ----------

  /**
   The files whose tests are counted: sourcing the file completes, or it exits while the flag still says "yes"
   because the last file that was sourced completely failed in `global_setup`.
   */
  predicate AllCounted(flag: string, files: seq<TestFile>)
    decreases |files|
  {
    files != [] ==>
      (files[0].sourcingExits && files[0].tests != [] ==> flag == YES)
      && AllCounted(FlagAfter(flag, files[0]), files[1..])
  }

  lemma {:induction false} TotalsOf(st: State, files: seq<TestFile>)
    ensures Total(RunFiles(st, files)) <= Total(st) + TotalTests(files)
    ensures Total(RunFiles(st, files)) == Total(st) + TotalTests(files) <==> AllCounted(st.setupFailed, files)
    decreases |files|
  {
    if files != [] {
      PassedAtMost(files[0].tests);
      CountFile(st, files[0]);
      TotalsOf(RunFile(st, files[0]), files[1..]);
    }
  }

  /**
   After any run, successes, failures and skips add up to all test functions of all files if and only if every
   file that has tests is sourced completely or meets a flag left at "yes".
   */
  lemma AccountingIsConservedIff(files: seq<TestFile>)
    ensures Total(RunAll(files)) <= TotalTests(files)
    ensures Total(RunAll(files)) == TotalTests(files) <==> AllCounted("", files)
  {
    TotalsOf(NEW_STATE, files);
  }

  /** Where sourcing always completes, nothing is lost. */
  lemma {:induction false} SourcedFilesAreCounted(flag: string, files: seq<TestFile>)
    requires forall i :: 0 <= i < |files| ==> !files[i].sourcingExits
    ensures AllCounted(flag, files)
    decreases |files|
  {
    if files != [] {
      assert forall i :: 0 <= i < |files[1..]| ==> files[1..][i] == files[i + 1];
      SourcedFilesAreCounted(FlagAfter(flag, files[0]), files[1..]);
    }
  }

  /** A file that exits while it is sourced loses its tests: no counter changes, nor does the exit condition. */
  lemma LostTests(st: State, f: TestFile)
    requires f.sourcingExits && st.setupFailed != YES
    ensures var st' := RunFile(st, f);
      st'.successful == st.successful && st'.failing == st.failing && st'.skipped == st.skipped
      && (Successful(st') <==> Successful(st))
  {
    CountFile(st, f);
  }

  const LOST_TEST := Test("test_lost", None, 1, None, "", "", 0)

  /** A run whose only file exits while it is sourced succeeds without counting its one, failing, test. */
  lemma LostTestIsNotCounted()
    ensures var files := [TestFile("lost_test.sh", [LOST_TEST], true, None, "", "")];
      TotalTests(files) == 1 && Total(RunAll(files)) == 0 && Successful(RunAll(files)) && TestStatus(LOST_TEST) != 0
  {
    hide RunFile;
    var f := TestFile("lost_test.sh", [LOST_TEST], true, None, "", "");
    assert [f][1..] == [];
    CountFile(NEW_STATE, f);
    assert RunFiles(NEW_STATE, [f]) == RunFile(NEW_STATE, f);
  }

  /** A run with all tests counted succeeds exactly when every test of every file passed. */
  lemma SuccessIff(files: seq<TestFile>)
    ensures Successful(RunAll(files)) && AllCounted("", files) <==> RunAll(files).successful == TotalTests(files)
  {
    AccountingIsConservedIff(files);
  }

  // ---------- the exit condition ----------

  /** The last file that was sourced completely; its `global_setup` left the flag. */
  function LastSourced(files: seq<TestFile>): Option<TestFile> {
    if files == [] then None
    else if !files[|files| - 1].sourcingExits then Some(files[|files| - 1])
    else LastSourced(files[..|files| - 1])
  }

  ghost predicate AllPass(tests: seq<Test>) {
    forall j :: 0 <= j < |tests| ==> TestStatus(tests[j]) == 0
  }

  /** The tests of file `i` pass, or are lost: the flag is not "yes", and what runs of them succeeds. */
  ghost predicate FileIsFine(files: seq<TestFile>, i: nat)
    requires i < |files|
  {
    files[i].tests != [] ==>
      (LastSourced(files[..i + 1]).Some? ==> GlobalSetupSucceeds(LastSourced(files[..i + 1]).value))
      && (!files[i].sourcingExits ==> AllPass(files[i].tests))
  }

  lemma {:induction false} RunFilesAppend(st: State, files: seq<TestFile>, f: TestFile)
    ensures RunFiles(st, files + [f]) == RunFile(RunFiles(st, files), f)
    decreases |files|
  {
    hide RunFile;
    if files == [] {
      assert files + [f] == [f] && [f][1..] == [];
    } else {
      assert (files + [f])[0] == files[0] && (files + [f])[1..] == files[1..] + [f];
      RunFilesAppend(RunFile(st, files[0]), files[1..], f);
    }
  }

  /** Along a run, the flag and the exit condition so far. */
  lemma {:induction false} SuccessOfFiles(files: seq<TestFile>)
    ensures var st := RunFiles(NEW_STATE, files);
      (st.setupFailed == YES <==> LastSourced(files).Some? && !GlobalSetupSucceeds(LastSourced(files).value))
      && (Successful(st) <==> forall i :: 0 <= i < |files| ==> FileIsFine(files, i))
  {
    hide RunFile, FileIsFine;
    if files != [] {
      var front, last := files[..|files| - 1], files[|files| - 1];
      assert files == front + [last];
      SuccessOfFiles(front);
      RunFilesAppend(NEW_STATE, front, last);
      forall i | 0 <= i < |front| ensures FileIsFine(files, i) <==> FileIsFine(front, i) {
        FineInFront(front, last, i);
      }
      SuccessOfLast(RunFiles(NEW_STATE, front), files);
    }
  }

  lemma FineInFront(front: seq<TestFile>, last: TestFile, i: nat)
    requires i < |front|
    ensures FileIsFine(front + [last], i) <==> FileIsFine(front, i)
  {
    assert (front + [last])[..i + 1] == front[..i + 1];
  }

  lemma SuccessOfLast(st: State, files: seq<TestFile>)
    requires files != []
    requires var sourced := LastSourced(files[..|files| - 1]);
      st.setupFailed == YES <==> sourced.Some? && !GlobalSetupSucceeds(sourced.value)
    ensures var st' := RunFile(st, files[|files| - 1]);
      (st'.setupFailed == YES <==> LastSourced(files).Some? && !GlobalSetupSucceeds(LastSourced(files).value))
      && (Successful(st') <==> Successful(st) && FileIsFine(files, |files| - 1))
  {
    hide RunFile, FileIsFine, LastSourced, AllPass, TestStatus;
    CountFile(st, files[|files| - 1]);
    PassedAtMost(files[|files| - 1].tests);
    FineLast(files);
  }

  /** What the last file asks for, told from the last completely sourced file before it. */
  lemma FineLast(files: seq<TestFile>)
    requires files != []
    ensures var f, sourced := files[|files| - 1], LastSourced(files[..|files| - 1]);
      LastSourced(files) == (if f.sourcingExits then sourced else Some(f))
      && (FileIsFine(files, |files| - 1) <==>
            f.tests == []
            || ((LastSourced(files).Some? ==> GlobalSetupSucceeds(LastSourced(files).value))
                && (!f.sourcingExits ==> Passed(f.tests) == |f.tests|)))
  {
    assert files[..|files|] == files;
    PassedAtMost(files[|files| - 1].tests);
  }

  /**
   A run succeeds exactly when no file with tests stands under a failed `global_setup`, its own or, if it exits
   while it is sourced, that of the last file before it, and all tests of the completely sourced files succeed.
   */
  lemma ExitConditionIff(files: seq<TestFile>)
    ensures Successful(RunAll(files)) <==> forall i :: 0 <= i < |files| ==> FileIsFine(files, i)
  {
    hide RunFiles, FileIsFine, ReportStarts;
    SuccessOfFiles(files);
  }

  /** Every test of every file succeeds, behind a `global_setup` that does. */
  ghost predicate EveryTestPasses(files: seq<TestFile>) {
    forall i :: 0 <= i < |files| && files[i].tests != [] ==> GlobalSetupSucceeds(files[i]) && AllPass(files[i].tests)
  }

  lemma FineWhenSourced(files: seq<TestFile>, i: nat)
    requires i < |files| && !files[i].sourcingExits
    ensures FileIsFine(files, i)
       <==> (files[i].tests != [] ==> GlobalSetupSucceeds(files[i]) && AllPass(files[i].tests))
  {
    assert files[..i + 1][i] == files[i];
  }

  /** Where sourcing always completes, every test is counted, and success means that every test passed. */
  lemma SourcedRunSucceedsIff(files: seq<TestFile>)
    requires forall i :: 0 <= i < |files| ==> !files[i].sourcingExits
    ensures Total(RunAll(files)) == TotalTests(files)
    ensures Successful(RunAll(files)) <==> EveryTestPasses(files)
  {
    hide RunAll, AllPass, AllCounted, GlobalSetupSucceeds;
    SourcedFilesAreCounted("", files);
    AccountingIsConservedIff(files);
    ExitConditionIff(files);
    hide FileIsFine;
    forall i | 0 <= i < |files|
      ensures FileIsFine(files, i)
         <==> (files[i].tests != [] ==> GlobalSetupSucceeds(files[i]) && AllPass(files[i].tests))
    {
      FineWhenSourced(files, i);
    }
    if forall i :: 0 <= i < |files| ==> FileIsFine(files, i) {
      forall i | 0 <= i < |files| && files[i].tests != []
        ensures GlobalSetupSucceeds(files[i]) && AllPass(files[i].tests)
      {
        assert FileIsFine(files, i);
      }
    }
    if EveryTestPasses(files) {
      assert forall i :: 0 <= i < |files| ==> FileIsFine(files, i);
    }
  }
}
