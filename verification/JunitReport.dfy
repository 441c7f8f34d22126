/**
 The JUnit report as an XML reader sees it: a reader that accepts only well-nested reports, collects suites, cases and
 their outputs, and what filling in a time does to a report under that reader.
 */
module JunitReport {
  import opened Outcomes
  import opened Text
  import opened TestRun

  // ---------- replacing inside a report ----------

  lemma {:induction false} SplitAfterText(text: string, sep: char, s: string)
    requires sep !in text
    ensures SplitFirst(text + s, sep) ==
      match SplitFirst(s, sep)
      case None => None
      case Some((head, rest)) => Some((text + head, rest))
  {
    match SplitFirst(s, sep)
    case None =>
      assert sep !in text + s;
    case Some((head, rest)) =>
      assert text + s == text + head + [sep] + rest;
      SplitFirstAt(text + head, sep, rest);
  }

  lemma {:induction false} ReplaceLacks(s: string, key: string, value: string, c: char)
    requires key != "" && c !in s && c !in value
    ensures c !in ReplaceAll(s, key, value)
    decreases |s|
  {
    if s != "" {
      if key <= s {
        ReplaceLacks(s[|key|..], key, value, c);
      } else {
        ReplaceLacks(s[1..], key, value, c);
      }
    }
  }

  function ReplaceEach(parts: seq<string>, key: string, value: string): (r: seq<string>)
    requires key != ""
    ensures |r| == |parts| && forall i :: 0 <= i < |parts| ==> r[i] == ReplaceAll(parts[i], key, value)
  {
    if parts == [] then [] else [ReplaceAll(parts[0], key, value)] + ReplaceEach(parts[1..], key, value)
  }

  lemma {:induction false} ReplaceInSplit(s: string, c: char, key: string, value: string)
    requires key != "" && c !in key && c !in value
    ensures Split(ReplaceAll(s, key, value), c) == ReplaceEach(Split(s, c), key, value)
    decreases |s|
  {
    if c !in s {
      ReplaceLacks(s, key, value, c);
    } else {
      var (head, rest) := SplitFirst(s, c).value;
      ReplaceAroundChar(head, c, rest, key, value);
      ReplaceLacks(head, key, value, c);
      SplitAtSeparator(head, c, rest);
      SplitAtSeparator(ReplaceAll(head, key, value), c, ReplaceAll(rest, key, value));
      ReplaceInSplit(rest, c, key, value);
    }
  }

  // ---------- tokens ----------

  /**
   A tag as the reader sees it: its element, the texts around its quoted values, which hold the names of the
   attributes, and these values.
   */
  datatype Token =
    | Prolog
    | Open(element: string, labels: seq<string>, attributes: seq<string>)
    | Close(element: string)
    | Malformed

  /** Every second text: what stands between quotes when a tag is split at them. */
  function Odd(parts: seq<string>): seq<string> {
    if |parts| < 2 then [] else [parts[1]] + Odd(parts[2..])
  }

  function Even(parts: seq<string>): seq<string> {
    if |parts| < 2 then parts else [parts[0]] + Even(parts[2..])
  }

  function Attributes(tag: string): seq<string> {
    Odd(Split(tag, '"'))
  }

  function Labels(tag: string): seq<string> {
    Even(Split(tag, '"'))
  }

  const PROLOG := "?xml version=\"1.0\" encoding=\"UTF-8\" ?"

  function TokenOf(tag: string): Token {
    if tag == PROLOG then Prolog
    else if tag == "" || tag[0] == '?' then Malformed
    else if tag[0] == '/' then Close(tag[1..])
    else Open(Split(tag, ' ')[0], Labels(tag), Attributes(tag))
  }

  predicate TimeText(value: string) {
    '<' !in value && '>' !in value && '"' !in value && ' ' !in value && '$' !in value
  }

  lemma {:induction false} PrintIntIsTimeText(n: int)
    ensures TimeText(PrintInt(n))
  {
  }

  function Fill(s: string, value: string): string {
    ReplaceAll(s, TIME_VARIABLE, value)
  }

  function FillEach(parts: seq<string>, value: string): (r: seq<string>)
    ensures |r| == |parts| && forall i :: 0 <= i < |parts| ==> r[i] == Fill(parts[i], value)
  {
    ReplaceEach(parts, TIME_VARIABLE, value)
  }

  function FillToken(t: Token, value: string): Token {
    match t
    case Open(element, labels, attributes) => Open(element, labels, FillEach(attributes, value))
    case _ => t
  }

  lemma {:induction false} FillOdd(parts: seq<string>, value: string)
    ensures Odd(FillEach(parts, value)) == FillEach(Odd(parts), value)
    decreases |parts|
  {
    if |parts| >= 2 {
      assert FillEach(parts, value)[2..] == FillEach(parts[2..], value);
      FillOdd(parts[2..], value);
    }
  }

  lemma {:induction false} FillEven(parts: seq<string>, value: string)
    ensures Even(FillEach(parts, value)) == FillEach(Even(parts), value)
    decreases |parts|
  {
    if |parts| >= 2 {
      assert FillEach(parts, value)[2..] == FillEach(parts[2..], value);
      FillEven(parts[2..], value);
    }
  }

  lemma {:induction false} FillNothingEach(parts: seq<string>, value: string)
    requires forall i :: 0 <= i < |parts| ==> '$' !in parts[i]
    ensures FillEach(parts, value) == parts
  {
    hide Fill;
    forall i | 0 <= i < |parts| ensures Fill(parts[i], value) == parts[i] {
      FillNothing(parts[i], value);
    }
  }

  lemma {:induction false} FirstCharStays(s: string, value: string)
    requires s != "" && s[0] != '$'
    ensures Fill(s, value) == [s[0]] + Fill(s[1..], value)
  {
    assert TIME_VARIABLE[0] == '$';
  }

  lemma {:induction false} FillNothing(s: string, value: string)
    requires '$' !in s
    ensures Fill(s, value) == s
  {
    assert TIME_VARIABLE[0] == '$';
    ReplaceNothing(s, TIME_VARIABLE, value);
  }

  // ---------- the document ----------

  datatype Verdict = CasePassed | CaseFailed | CaseSkipped

  /** A case, with the texts of its `system-out` and `system-err` if there are any. */
  datatype Case = Case(name: string, classname: string, time: string, verdict: Verdict,
                       stdout: Option<string>, stderr: Option<string>)

  datatype Suite = Suite(name: string, declared: string, cases: seq<Case>,
                         stdout: Option<string>, stderr: Option<string>)

  /**
   What has been read: whether there was a prolog and a root, the elements still open, the suites so far, and the text
   since the last tag.
   */
  datatype Doc = Doc(prolog: bool, rooted: bool, open: seq<string>, suites: seq<Suite>, text: string)

  const EMPTY_DOC := Doc(false, false, [], [], "")
  const ROOT := ["testsuites"]
  const IN_SUITE := ["testsuites", "testsuite"]
  const IN_CASE := ["testsuites", "testsuite", "testcase"]

  predicate IsBlank(s: string) {
    forall i :: 0 <= i < |s| ==> s[i] == ' ' || s[i] == '\n'
  }

  predicate IsOutput(element: string) {
    element == "system-out" || element == "system-err"
  }

  function AddCase(suites: seq<Suite>, c: Case): (r: seq<Suite>)
    requires suites != []
    ensures |r| == |suites|
  {
    var last := suites[|suites| - 1];
    suites[|suites| - 1 := last.(cases := last.cases + [c])]
  }

  /** Marks the last case, which must not be marked yet. */
  function MarkCase(suites: seq<Suite>, verdict: Verdict): Option<seq<Suite>> {
    if suites == [] then None
    else
      var last := suites[|suites| - 1];
      if last.cases == [] || last.cases[|last.cases| - 1].verdict != CasePassed then None
      else
        var c := last.cases[|last.cases| - 1];
        Some(suites[|suites| - 1 := last.(cases := last.cases[|last.cases| - 1 := c.(verdict := verdict)])])
  }

  /** Gives the last case an output, which it must not have yet. */
  function CaseOutput(suites: seq<Suite>, element: string, text: string): Option<seq<Suite>> {
    if suites == [] then None
    else
      var last := suites[|suites| - 1];
      if last.cases == [] then None
      else
        var c := last.cases[|last.cases| - 1];
        if (if element == "system-out" then c.stdout else c.stderr).Some? then None
        else
          var c' := if element == "system-out" then c.(stdout := Some(text)) else c.(stderr := Some(text));
          Some(suites[|suites| - 1 := last.(cases := last.cases[|last.cases| - 1 := c'])])
  }

  /** Gives the last suite an output, which it must not have yet. */
  function SuiteOutput(suites: seq<Suite>, element: string, text: string): Option<seq<Suite>> {
    if suites == [] then None
    else
      var last := suites[|suites| - 1];
      if (if element == "system-out" then last.stdout else last.stderr).Some? then None
      else
        Some(suites[|suites| - 1 := if element == "system-out" then last.(stdout := Some(text))
                                    else last.(stderr := Some(text))])
  }

  /** The tags with attributes: the element and the names of the attributes, in their order. */
  const SUITE_LABELS := ["testsuite name=", " tests=", ""]
  const CASE_LABELS := ["testcase name=", " classname=", " time=", ""]

  /** What an opening tag means where it stands. */
  datatype Move = OpensRoot | OpensSuite | OpensCase | Marks(verdict: Verdict) | OpensOutput | Misplaced

  function MoveOf(open: seq<string>, element: string, labels: seq<string>): Move {
    if element == "testsuite" && labels == SUITE_LABELS && open == ROOT then OpensSuite
    else if element == "testcase" && labels == CASE_LABELS && open == IN_SUITE then OpensCase
    else if labels != [element] then Misplaced
    else if element == "testsuites" && open == [] then OpensRoot
    else if element == "failure" && open == IN_CASE then Marks(CaseFailed)
    else if element == "skipped" && open == IN_CASE then Marks(CaseSkipped)
    else if IsOutput(element) && (open == IN_SUITE || open == IN_CASE) then OpensOutput
    else Misplaced
  }

  /** The suites after an opening tag. */
  function Entered(suites: seq<Suite>, move: Move, attributes: seq<string>): Option<seq<Suite>> {
    match move
    case OpensRoot => Some(suites)
    case OpensSuite =>
      if |attributes| == 2 then Some(suites + [Suite(attributes[0], attributes[1], [], None, None)]) else None
    case OpensCase =>
      if suites != [] && |attributes| == 3
      then Some(AddCase(suites, Case(attributes[0], attributes[1], attributes[2], CasePassed, None, None))) else None
    case Marks(verdict) => MarkCase(suites, verdict)
    case OpensOutput => Some(suites)
    case Misplaced => None
  }

  /** An opening tag: behind nothing but space, the root once and behind the prolog. */
  function Enter(d: Doc, element: string, labels: seq<string>, attributes: seq<string>): Option<Doc> {
    var move := MoveOf(d.open, element, labels);
    if !IsBlank(d.text) || (move.OpensRoot? && (!d.prolog || d.rooted)) then None
    else
      match Entered(d.suites, move, attributes)
      case None => None
      case Some(suites) => Some(Doc(d.prolog, d.rooted || move.OpensRoot?, d.open + [element], suites, ""))
  }

  /** The suites after a closing tag: the text in an output is kept, elsewhere there may be only space. */
  function Left(suites: seq<Suite>, outer: seq<string>, element: string, text: string): Option<seq<Suite>> {
    if !IsOutput(element) then if IsBlank(text) then Some(suites) else None
    else if outer == IN_CASE then CaseOutput(suites, element, text)
    else SuiteOutput(suites, element, text)
  }

  function Leave(d: Doc, element: string): Option<Doc> {
    if d.open == [] || d.open[|d.open| - 1] != element then None
    else
      var outer := d.open[..|d.open| - 1];
      match Left(d.suites, outer, element, d.text)
      case None => None
      case Some(suites) => Some(d.(open := outer, suites := suites, text := ""))
  }

  function ReadToken(d: Doc, t: Token): Option<Doc> {
    match t
    case Prolog => if d.prolog || d.rooted || !IsBlank(d.text) then None else Some(d.(prolog := true, text := ""))
    case Open(element, labels, attributes) => Enter(d, element, labels, attributes)
    case Close(element) => Leave(d, element)
    case Malformed => None
  }

  /** Reads a text from left to right; `None` when its tags do not nest as in a report, or one is left open. */
  function ReadText(d: Doc, s: string): Option<Doc>
    decreases |s|
  {
    match SplitFirst(s, '<')
    case None => Some(d.(text := d.text + s))
    case Some((head, rest)) =>
      match SplitFirst(rest, '>')
      case None => None
      case Some((tag, after)) =>
        match ReadToken(d.(text := d.text + head), TokenOf(tag))
        case None => None
        case Some(d') => ReadText(d', after)
  }

  // ---------- reading on ----------

  lemma {:induction false} ReadPlain(d: Doc, text: string, s: string)
    requires '<' !in text
    ensures ReadText(d, text + s) == ReadText(d.(text := d.text + text), s)
  {
    hide ReadToken, TokenOf;
    SplitAfterText(text, '<', s);
    match SplitFirst(s, '<')
    case None => assert d.text + (text + s) == d.text + text + s;
    case Some((head, rest)) => assert d.text + (text + head) == d.text + text + head;
  }

  lemma {:induction false} ReadTag(d: Doc, head: string, tag: string, after: string)
    requires '<' !in head && '>' !in tag
    ensures ReadText(d, head + ['<'] + (tag + ['>'] + after)) ==
      match ReadToken(d.(text := d.text + head), TokenOf(tag))
      case None => None
      case Some(d') => ReadText(d', after)
  {
    hide ReadToken, TokenOf;
    SplitFirstAt(head, '<', tag + ['>'] + after);
    SplitFirstAt(tag, '>', after);
  }

  /** A text with a tag, taken apart. */
  lemma {:induction false} FirstTag(d: Doc, s: string) returns (head: string, tag: string, after: string)
    requires ReadText(d, s).Some? && '<' in s
    ensures '<' !in head && '>' !in tag && |after| < |s|
    ensures s == head + ['<'] + (tag + ['>'] + after)
    ensures ReadToken(d.(text := d.text + head), TokenOf(tag)).Some?
    ensures ReadText(d, s) == ReadText(ReadToken(d.(text := d.text + head), TokenOf(tag)).value, after)
  {
    hide ReadToken, TokenOf;
    var rest := SplitFirst(s, '<').value.1;
    head := SplitFirst(s, '<').value.0;
    tag, after := SplitFirst(rest, '>').value.0, SplitFirst(rest, '>').value.1;
    assert s == head + ['<'] + rest;
    assert rest == tag + ['>'] + after;
  }

  lemma {:induction false} ReadAppend(d: Doc, a: string, b: string)
    requires ReadText(d, a).Some?
    ensures ReadText(d, a + b) == ReadText(ReadText(d, a).value, b)
    decreases |a|
  {
    hide ReadToken, TokenOf, ReadText;
    if '<' in a {
      var head, tag, after := FirstTag(d, a);
      var d' := ReadToken(d.(text := d.text + head), TokenOf(tag)).value;
      ReadAppend(d', after, b);
      assert a + b == head + ['<'] + (tag + ['>'] + (after + b));
      ReadTag(d, head, tag, after + b);
    } else {
      ReadPlain(d, a, b);
      ReadOnlyText(d, a);
    }
  }

  lemma {:induction false} ReadOnlyText(d: Doc, text: string)
    requires '<' !in text
    ensures ReadText(d, text) == Some(d.(text := d.text + text))
  {
  }

  /** Trailing newlines belong to the text behind the last tag. */
  lemma {:induction false} ReadNewlineBack(d: Doc, s: string)
    requires ReadText(d, s + "\n").Some?
    ensures ReadText(d, s).Some?
    ensures ReadText(d, s + "\n") == Some(ReadText(d, s).value.(text := ReadText(d, s).value.text + "\n"))
    decreases |s|
  {
    hide ReadToken, TokenOf, ReadText;
    if '<' in s {
      var head, tag, after := FirstTag(d, s + "\n");
      TagBeforeNewline(s, head, tag, after);
      var front := after[..|after| - 1];
      var d' := ReadToken(d.(text := d.text + head), TokenOf(tag)).value;
      assert after == front + "\n";
      ReadNewlineBack(d', front);
      ReadTag(d, head, tag, front);
    } else {
      ReadOnlyText(d, s);
      ReadOnlyText(d, s + "\n");
      assert d.text + (s + "\n") == d.text + s + "\n";
    }
  }

  lemma {:induction false} TagBeforeNewline(s: string, head: string, tag: string, after: string)
    requires s + "\n" == head + ['<'] + (tag + ['>'] + after)
    ensures after != "" && after[|after| - 1] == '\n'
    ensures s == head + ['<'] + (tag + ['>'] + after[..|after| - 1])
  {
    var all := head + ['<'] + (tag + ['>'] + after);
    assert all[|all| - 1] == if after == "" then '>' else after[|after| - 1];
    assert all[..|all| - 1] == head + ['<'] + (tag + ['>'] + after[..|after| - 1]);
    assert (s + "\n")[..|s|] == s;
  }

  lemma {:induction false} ReadTrimmed(d: Doc, s: string)
    requires ReadText(d, s).Some?
    ensures ReadText(d, TrimNewlines(s)).Some?
    ensures var r, r' := ReadText(d, s).value, ReadText(d, TrimNewlines(s)).value;
      r'.text <= r.text && r == r'.(text := r.text)
  {
    hide ReadText;
    if s != "" && s[|s| - 1] == '\n' {
      var front := s[..|s| - 1];
      assert s == front + "\n";
      ReadNewlineBack(d, front);
      ReadTrimmed(d, front);
    }
  }

  // ---------- reading after the time is filled in ----------

  function FillOption(text: Option<string>, value: string): Option<string> {
    if text.None? then None else Some(Fill(text.value, value))
  }

  function FillCase(c: Case, value: string): Case {
    Case(Fill(c.name, value), Fill(c.classname, value), Fill(c.time, value), c.verdict,
         FillOption(c.stdout, value), FillOption(c.stderr, value))
  }

  function FillCases(cases: seq<Case>, value: string): (r: seq<Case>)
    ensures |r| == |cases| && forall i :: 0 <= i < |cases| ==> r[i] == FillCase(cases[i], value)
  {
    if cases == [] then [] else [FillCase(cases[0], value)] + FillCases(cases[1..], value)
  }

  function FillSuite(s: Suite, value: string): Suite {
    Suite(Fill(s.name, value), Fill(s.declared, value), FillCases(s.cases, value),
          FillOption(s.stdout, value), FillOption(s.stderr, value))
  }

  function FillSuites(suites: seq<Suite>, value: string): (r: seq<Suite>)
    ensures |r| == |suites| && forall i :: 0 <= i < |suites| ==> r[i] == FillSuite(suites[i], value)
  {
    if suites == [] then [] else [FillSuite(suites[0], value)] + FillSuites(suites[1..], value)
  }

  function FillDoc(d: Doc, value: string): Doc {
    d.(suites := FillSuites(d.suites, value), text := Fill(d.text, value))
  }

  lemma {:induction false} FillCasesAt(cases: seq<Case>, n: nat, c: Case, value: string)
    requires n < |cases|
    ensures FillCases(cases[n := c], value) == FillCases(cases, value)[n := FillCase(c, value)]
  {
    hide FillCase;
  }

  lemma {:induction false} FillSuitesAt(suites: seq<Suite>, n: nat, s: Suite, value: string)
    requires n < |suites|
    ensures FillSuites(suites[n := s], value) == FillSuites(suites, value)[n := FillSuite(s, value)]
  {
    hide FillSuite;
  }

  lemma {:induction false} FillAddCase(suites: seq<Suite>, c: Case, value: string)
    requires suites != []
    ensures FillSuites(AddCase(suites, c), value) == AddCase(FillSuites(suites, value), FillCase(c, value))
  {
    hide FillCase, FillOption;
    var last := suites[|suites| - 1];
    assert FillCases(last.cases + [c], value) == FillCases(last.cases, value) + [FillCase(c, value)];
    FillSuitesAt(suites, |suites| - 1, last.(cases := last.cases + [c]), value);
  }

  lemma {:induction false} FillLastCase(suites: seq<Suite>, c: Case, value: string)
    requires suites != [] && suites[|suites| - 1].cases != []
    ensures var n := |suites| - 1;
      var m := |suites[n].cases| - 1;
      var filled := FillSuites(suites, value);
      filled[n].cases != [] && |filled[n].cases| == m + 1
      && filled[n].cases[m] == FillCase(suites[n].cases[m], value)
      && FillSuites(suites[n := suites[n].(cases := suites[n].cases[m := c])], value)
      == filled[n := filled[n].(cases := filled[n].cases[m := FillCase(c, value)])]
  {
    hide FillCase, FillOption;
    var n := |suites| - 1;
    var last := suites[n];
    var m := |last.cases| - 1;
    FillCasesAt(last.cases, m, c, value);
    FillSuitesAt(suites, n, last.(cases := last.cases[m := c]), value);
  }

  lemma {:induction false} FillMarkCase(suites: seq<Suite>, verdict: Verdict, value: string)
    requires MarkCase(suites, verdict).Some?
    ensures MarkCase(FillSuites(suites, value), verdict) == Some(FillSuites(MarkCase(suites, verdict).value, value))
  {
    hide Fill, FillCases, FillSuites, FillOption;
    var cases := suites[|suites| - 1].cases;
    FillLastCase(suites, cases[|cases| - 1].(verdict := verdict), value);
  }

  lemma {:induction false} FillCaseOutput(suites: seq<Suite>, element: string, text: string, value: string)
    requires CaseOutput(suites, element, text).Some?
    ensures CaseOutput(FillSuites(suites, value), element, Fill(text, value))
         == Some(FillSuites(CaseOutput(suites, element, text).value, value))
  {
    hide Fill, FillCases, FillSuites;
    var cases := suites[|suites| - 1].cases;
    var c := cases[|cases| - 1];
    FillLastCase(suites, if element == "system-out" then c.(stdout := Some(text)) else c.(stderr := Some(text)), value);
  }

  lemma {:induction false} FillSuiteOutput(suites: seq<Suite>, element: string, text: string, value: string)
    requires SuiteOutput(suites, element, text).Some?
    ensures SuiteOutput(FillSuites(suites, value), element, Fill(text, value))
         == Some(FillSuites(SuiteOutput(suites, element, text).value, value))
  {
    hide Fill, FillCases;
    var last := suites[|suites| - 1];
    FillSuitesAt(suites, |suites| - 1,
                 if element == "system-out" then last.(stdout := Some(text)) else last.(stderr := Some(text)), value);
  }

  lemma {:induction false} FillSuitesAppend(suites: seq<Suite>, s: Suite, value: string)
    ensures FillSuites(suites + [s], value) == FillSuites(suites, value) + [FillSuite(s, value)]
  {
    hide FillSuite;
  }

  lemma {:induction false} FillEntered(suites: seq<Suite>, move: Move, attributes: seq<string>, value: string)
    requires Entered(suites, move, attributes).Some?
    ensures Entered(FillSuites(suites, value), move, FillEach(attributes, value))
         == Some(FillSuites(Entered(suites, move, attributes).value, value))
  {
    hide Fill, FillSuites, AddCase, MarkCase;
    match move
    case OpensSuite =>
      var s := Suite(attributes[0], attributes[1], [], None, None);
      FillSuitesAppend(suites, s, value);
      assert FillCases([], value) == [];
    case OpensCase =>
      FillAddCase(suites, Case(attributes[0], attributes[1], attributes[2], CasePassed, None, None), value);
    case Marks(verdict) => FillMarkCase(suites, verdict, value);
    case _ =>
  }

  lemma {:induction false} FillBlank(text: string, value: string)
    requires IsBlank(text)
    ensures Fill(text, value) == text
  {
    hide Fill;
    FillNothing(text, value);
  }

  lemma {:induction false} FillLeft(suites: seq<Suite>, outer: seq<string>, element: string, text: string,
                                    value: string)
    requires Left(suites, outer, element, text).Some?
    ensures Left(FillSuites(suites, value), outer, element, Fill(text, value))
         == Some(FillSuites(Left(suites, outer, element, text).value, value))
  {
    hide Fill, FillSuites, CaseOutput, SuiteOutput;
    if !IsOutput(element) {
      FillBlank(text, value);
    } else if outer == IN_CASE {
      FillCaseOutput(suites, element, text, value);
    } else {
      FillSuiteOutput(suites, element, text, value);
    }
  }

  lemma {:induction false} FillReadToken(d: Doc, t: Token, value: string)
    requires ReadToken(d, t).Some?
    ensures ReadToken(FillDoc(d, value), FillToken(t, value)) == Some(FillDoc(ReadToken(d, t).value, value))
  {
    hide Fill, FillSuites, MoveOf, Entered, Left;
    FillNothingAtAll(value);
    match t
    case Prolog => FillBlank(d.text, value);
    case Open(element, labels, attributes) =>
      FillBlank(d.text, value);
      FillEntered(d.suites, MoveOf(d.open, element, labels), attributes, value);
    case Close(element) =>
      FillLeft(d.suites, d.open[..|d.open| - 1], element, d.text, value);
  }

  lemma {:induction false} FillNothingAtAll(value: string)
    ensures Fill("", value) == ""
  {
  }

  lemma {:induction false} VariableIsFilled(time: string)
    ensures Fill(TIME_VARIABLE, time) == time
  {
    ReplaceWhole(TIME_VARIABLE, time);
  }

  lemma {:induction false} ReplaceWhole(key: string, value: string)
    requires key != ""
    ensures ReplaceAll(key, key, value) == value
  {
    assert key[|key|..] == "";
    assert value + "" == value;
  }

  // ---------- tags under the time ----------

  /** The time variable stands in no element that is open. */
  ghost predicate PlainOpen(open: seq<string>) {
    forall i :: 0 <= i < |open| ==> '$' !in open[i]
  }

  lemma {:induction false} MoveIsPlain(open: seq<string>, element: string, labels: seq<string>)
    requires MoveOf(open, element, labels) != Misplaced
    ensures '$' !in element && forall i :: 0 <= i < |labels| ==> '$' !in labels[i]
  {
  }

  lemma {:induction false} ReadTokenKeepsPlain(d: Doc, t: Token)
    requires ReadToken(d, t).Some? && PlainOpen(d.open)
    ensures PlainOpen(ReadToken(d, t).value.open) && ReadToken(d, t).value.text == ""
  {
    hide AddCase, MarkCase, Left, MoveOf;
    if t.Open? {
      MoveIsPlain(d.open, t.element, t.labels);
    }
  }

  /** Filling in the time fills it into the attribute values and leaves the rest of an accepted tag alone. */
  lemma {:induction false} TokenUnderTime(d: Doc, tag: string, value: string)
    requires ReadToken(d, TokenOf(tag)).Some? && PlainOpen(d.open) && TimeText(value)
    ensures TokenOf(Fill(tag, value)) == FillToken(TokenOf(tag), value)
  {
    hide Split, Fill, Labels, Attributes, AddCase, MarkCase, Left, MoveOf;
    match TokenOf(tag)
    case Prolog => FillProlog(value);
    case Open(element, labels, attributes) =>
      MoveIsPlain(d.open, element, labels);
      OpenUnderTime(tag, value);
    case Close(element) =>
      assert d.open[|d.open| - 1] == element;
      FillNothing(element, value);
      assert tag == "/" + element;
      FirstCharStays(tag, value);
  }

  lemma {:induction false} FillProlog(value: string)
    ensures Fill(PROLOG, value) == PROLOG
  {
    hide Fill;
    FillNothing(PROLOG, value);
  }

  lemma {:induction false} OpenUnderTime(tag: string, value: string)
    requires TokenOf(tag).Open? && TimeText(value)
    requires '$' !in TokenOf(tag).element
    requires forall i :: 0 <= i < |TokenOf(tag).labels| ==> '$' !in TokenOf(tag).labels[i]
    ensures TokenOf(Fill(tag, value)) == FillToken(TokenOf(tag), value)
  {
    hide Split, Fill, Labels, Attributes;
    FirstOfOpen(tag);
    FirstCharStays(tag, value);
    FillProlog(value);
    ElementUnderTime(tag, value);
    AttributesUnderTime(tag, value);
    assert Fill(tag, value)[0] == tag[0];
  }

  lemma {:induction false} ElementUnderTime(tag: string, value: string)
    requires TimeText(value) && '$' !in Split(tag, ' ')[0]
    ensures Split(Fill(tag, value), ' ')[0] == Split(tag, ' ')[0]
  {
    hide Split, ReplaceAll;
    assert ' ' !in TIME_VARIABLE;
    ReplaceInSplit(tag, ' ', TIME_VARIABLE, value);
    FillNothing(Split(tag, ' ')[0], value);
  }

  lemma {:induction false} AttributesUnderTime(tag: string, value: string)
    requires TimeText(value) && forall i :: 0 <= i < |Labels(tag)| ==> '$' !in Labels(tag)[i]
    ensures Labels(Fill(tag, value)) == Labels(tag) && Attributes(Fill(tag, value)) == FillEach(Attributes(tag), value)
  {
    hide Split, ReplaceAll, Odd, Even;
    assert '"' !in TIME_VARIABLE;
    ReplaceInSplit(tag, '"', TIME_VARIABLE, value);
    FillOdd(Split(tag, '"'), value);
    FillEven(Split(tag, '"'), value);
    FillNothingEach(Labels(tag), value);
  }

  /** The first character of a tag belongs to its element. */
  lemma {:induction false} FirstOfOpen(tag: string)
    requires TokenOf(tag).Open? && '$' !in TokenOf(tag).element
    ensures tag[0] != '$'
  {
    if tag[0] != ' ' {
      assert Split(tag, ' ')[0][0] == tag[0];
    }
  }

  lemma {:induction false} FillReadText(d: Doc, s: string, value: string)
    requires ReadText(d, s).Some? && PlainOpen(d.open) && d.text == "" && TimeText(value)
    ensures ReadText(FillDoc(d, value), Fill(s, value)) == Some(FillDoc(ReadText(d, s).value, value))
    ensures PlainOpen(ReadText(d, s).value.open)
    decreases |s|
  {
    hide ReadToken, TokenOf, ReadText, FillSuites, ReplaceAll, PlainOpen;
    FillNothingAtAll(value);
    assert '<' !in TIME_VARIABLE && '>' !in TIME_VARIABLE;
    if '<' in s {
      var head, tag, after := FirstTag(d, s);
      var d0 := d.(text := d.text + head);
      assert d0.text == head;
      TokenUnderTime(d0, tag, value);
      FillReadToken(d0, TokenOf(tag), value);
      ReadTokenKeepsPlain(d0, TokenOf(tag));
      FillReadText(ReadToken(d0, TokenOf(tag)).value, after, value);
      ReplaceAroundChar(head, '<', tag + ['>'] + after, TIME_VARIABLE, value);
      ReplaceAroundChar(tag, '>', after, TIME_VARIABLE, value);
      ReplaceLacks(head, TIME_VARIABLE, value, '<');
      ReplaceLacks(tag, TIME_VARIABLE, value, '>');
      ReadTag(FillDoc(d, value), Fill(head, value), Fill(tag, value), Fill(after, value));
      assert "" + Fill(head, value) == Fill(head, value);
    } else {
      ReplaceLacks(s, TIME_VARIABLE, value, '<');
      ReadOnlyText(d, s);
      ReadOnlyText(FillDoc(d, value), Fill(s, value));
      assert "" + s == s && "" + Fill(s, value) == Fill(s, value);
    }
  }

  // ---------- reports as documents ----------

  /** The report so far reads as the document so far, with nothing but space behind the last tag. */
  ghost predicate Reads(report: string, d: Doc) {
    var read := ReadText(EMPTY_DOC, report);
    read.Some? && IsBlank(read.value.text) && d == read.value.(text := "") && PlainOpen(d.open)
  }

  lemma {:induction false} MoreReads(report: string, d: Doc, more: string, d': Doc)
    requires Reads(report, d) && ReadText(d.(text := ReadText(EMPTY_DOC, report).value.text), more).Some?
    requires var read := ReadText(d.(text := ReadText(EMPTY_DOC, report).value.text), more).value;
      IsBlank(read.text) && d' == read.(text := "") && PlainOpen(d'.open)
    ensures Reads(report + more, d')
  {
    hide ReadText;
    ReadAppend(EMPTY_DOC, report, more);
  }

  lemma {:induction false} BlankAppend(a: string, b: string)
    ensures IsBlank(a + b) <==> IsBlank(a) && IsBlank(b)
  {
    assert forall i :: 0 <= i < |a| ==> (a + b)[i] == a[i];
    assert forall i :: 0 <= i < |b| ==> (a + b)[|a| + i] == b[i];
  }

  /** Space before a tag does not matter, except at the end of an output. */
  lemma {:induction false} BlankBeforeTag(d: Doc, t: Token, text: string)
    requires d.text == "" && IsBlank(text) && !(t.Close? && IsOutput(t.element))
    ensures ReadToken(d.(text := text), t) == ReadToken(d, t)
  {
    hide MoveOf, Entered;
  }

  lemma {:induction false} TagLineReads(report: string, d: Doc, indentation: string, tag: string, d': Doc)
    requires Reads(report, d) && IsBlank(indentation) && '>' !in tag
    requires !(TokenOf(tag).Close? && IsOutput(TokenOf(tag).element))
    requires ReadToken(d, TokenOf(tag)) == Some(d')
    ensures Reads(Line(report, TagLine(indentation, tag)), d')
  {
    hide ReadToken, TokenOf, ReadText;
    var before := d.(text := ReadText(EMPTY_DOC, report).value.text);
    assert '<' !in indentation by { BlankHasNoTag(indentation); }
    assert TagLine(indentation, tag) + "\n" == indentation + ['<'] + (tag + ['>'] + "\n");
    ReadTag(before, indentation, tag, "\n");
    BlankAppend(before.text, indentation);
    BlankBeforeTag(d, TokenOf(tag), before.text + indentation);
    ReadTokenKeepsPlain(d, TokenOf(tag));
    ReadOnlyText(d', "\n");
    MoreReads(report, d, TagLine(indentation, tag) + "\n", d');
    assert Line(report, TagLine(indentation, tag)) == report + (TagLine(indentation, tag) + "\n");
  }

  lemma {:induction false} BlankHasNoTag(s: string)
    requires IsBlank(s)
    ensures '<' !in s
  {
  }

  /** The time filled into the whole report is filled into everything that was read. */
  lemma {:induction false} TimeReads(report: string, d: Doc, value: string)
    requires Reads(report, d) && TimeText(value)
    ensures Reads(WithTime(report, value), FillDoc(d, value))
  {
    hide ReadText, FillSuites, ReplaceAll, PlainOpen;
    var trimmed := TrimNewlines(report);
    ReadTrimmed(EMPTY_DOC, report);
    var text := ReadText(EMPTY_DOC, trimmed).value.text;
    NothingIsOpen();
    FillReadText(EMPTY_DOC, trimmed, value);
    EmptyDocFills(value);
    assert IsBlank(text);
    FillBlank(text, value);
    var filled := ReadText(EMPTY_DOC, Fill(trimmed, value)).value;
    ReadAppend(EMPTY_DOC, Fill(trimmed, value), "\n");
    ReadOnlyText(filled, "\n");
    BlankAppend(text, "\n");
    FillNothingAtAll(value);
  }

  lemma {:induction false} NothingIsOpen()
    ensures PlainOpen([])
  {
  }

  lemma {:induction false} EmptyDocFills(value: string)
    ensures FillDoc(EMPTY_DOC, value) == EMPTY_DOC
  {
    FillNothingAtAll(value);
    assert FillSuites([], value) == [];
  }
}
