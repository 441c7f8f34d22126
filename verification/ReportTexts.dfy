/** The texts that a report is made of: titles of files, times, and outputs without trailing newlines. */
module ReportTexts {
  import opened Text
  import opened TestRun

  lemma {:induction false} ReplaceCharacter(s: string, c: char, d: char)
    ensures var r := ReplaceAll(s, [c], [d]);
      |r| == |s| && forall i :: 0 <= i < |s| ==> r[i] == if s[i] == c then d else s[i]
  {
    if s != "" {
      var r, rest := ReplaceAll(s, [c], [d]), ReplaceAll(s[1..], [c], [d]);
      ReplaceCharacter(s[1..], c, d);
      assert [c] <= s <==> s[0] == c;
      assert r == [if s[0] == c then d else s[0]] + rest;
      forall i | 0 <= i < |s| ensures r[i] == if s[i] == c then d else s[i] {
        if i > 0 {
          assert r[i] == rest[i - 1] && s[i] == s[1..][i - 1];
        }
      }
    }
  }

  /** The title of a test file is its name with `_` for every dot and a dot for every slash. */
  lemma SuiteTitleMeans(fileName: string)
    ensures |SuiteTitle(fileName)| == |fileName|
    ensures forall i :: 0 <= i < |fileName| ==>
      SuiteTitle(fileName)[i] == if fileName[i] == '.' then '_' else if fileName[i] == '/' then '.' else fileName[i]
  {
    hide ReplaceAll;
    ReplaceCharacter(fileName, '.', '_');
    ReplaceCharacter(ReplaceAll(fileName, ".", "_"), '/', '.');
  }

  predicate IsInteger(s: string) {
    s != "" && if s[0] == '-' then AllDigits(s[1..]) else AllDigits(s)
  }

  function FromInteger(s: string): int
    requires IsInteger(s)
  {
    if s[0] == '-' then 0 - FromDecimal(s[1..]) as int else FromDecimal(s)
  }

  /** A printed time parses to the seconds it was printed from, sign included. */
  lemma PrintedTimeParses(seconds: int)
    ensures IsInteger(PrintInt(seconds)) && FromInteger(PrintInt(seconds)) == seconds
  {
    if seconds < 0 {
      PrintThenParse(-seconds);
      assert PrintInt(seconds)[1..] == ToDecimal(-seconds);
    } else {
      PrintThenParse(seconds);
    }
  }

  /** Only newlines are cut off, and all of those at the end. */
  lemma {:induction false} TrimNewlinesMeans(s: string)
    ensures var t := TrimNewlines(s);
      t <= s && (forall i :: |t| <= i < |s| ==> s[i] == '\n') && (t != "" ==> t[|t| - 1] != '\n')
  {
    if s != "" && s[|s| - 1] == '\n' {
      TrimNewlinesMeans(s[..|s| - 1]);
    }
  }
}
