/**
 The JUnit source and sink of the default plugin. `ReadJunit` turns a parsed
 JUnit document into problems, one per failing test case; the sink groups the
 problems it receives by file and, at the end of the stream, writes one test
 suite per file in sorted file-name order.
 */
module Junit {
  import opened Types
  import opened Dict
  import opened Text
  import opened Xml
  import opened ESLintText

  // ---------------------------------------------------------------------
  // Reading

  /**
   An element of a parsed XML document: its name, its attributes, its child
   elements, and `val`, the text it contains.
   */
  datatype Element = Element(name: string, attributes: map<string, string>, children: seq<Element>, val: string)

  /** `childrenNamed`: the children with the given name, in document order. */
  function ChildrenNamed(children: seq<Element>, name: string): (r: seq<Element>)
    ensures |r| <= |children|
    ensures forall e :: e in r <==> e in children && e.name == name
  {
    if |children| == 0 then []
    else
      var rest := ChildrenNamed(children[1..], name);
      assert forall e :: e in children <==> e == children[0] || e in children[1..];
      if children[0].name == name then [children[0]] + rest else rest
  }

  /** Selecting the named children of two lists one after the other selects from their concatenation. */
  lemma {:induction false} ChildrenNamedAppend(a: seq<Element>, b: seq<Element>, name: string)
    ensures ChildrenNamed(a + b, name) == ChildrenNamed(a, name) + ChildrenNamed(b, name)
  {
    if |a| > 0 {
      assert (a + b)[0] == a[0];
      assert (a + b)[1..] == a[1..] + b;
      ChildrenNamedAppend(a[1..], b, name);
    } else {
      assert a + b == b;
    }
  }

  /** A single child is kept exactly when it has the name. */
  lemma ChildrenNamedSingle(e: Element, name: string)
    ensures ChildrenNamed([e], name) == if e.name == name then [e] else []
  {
    assert [e][1..] == [];
  }

  /** `childNamed`: the first child with the given name, or `None`. */
  function ChildNamed(children: seq<Element>, name: string): (r: Option<Element>)
    ensures r.Some? ==> r.value in children && r.value.name == name
  {
    if |children| == 0 then None
    else if children[0].name == name then Some(children[0])
    else ChildNamed(children[1..], name)
  }

  /** The first named child is the head of the list of named children. */
  lemma {:induction false} ChildNamedIsFirst(children: seq<Element>, name: string)
    ensures ChildNamed(children, name).Some? <==> |ChildrenNamed(children, name)| > 0
    ensures ChildNamed(children, name).Some? ==> ChildNamed(children, name).value == ChildrenNamed(children, name)[0]
  {
    if |children| > 0 && children[0].name != name {
      ChildNamedIsFirst(children[1..], name);
    }
  }

  /**
   The file name a suite's problems carry: its `name` attribute. An absent
   attribute reads as `undefined`, which the sink writes as this text.
   */
  function SuiteFilename(suite: Element): string {
    if "name" in suite.attributes then suite.attributes["name"] else "undefined"
  }

  /**
   The problem for one failure text: the parsed fields when the text matches
   the ESLint pattern, and otherwise an error at line 1, column 1 whose
   message is the whole text and which has no code.
   */
  function ProblemFromText(filename: string, text: string): (p: Problem)
    ensures p.filename == filename && p.start == p.end
    ensures ParseESLintText(text).None? ==>
      p == Problem(filename, Error, None, Position(1, 1), Position(1, 1), text)
    ensures ParseESLintText(text).Some? ==>
      var d := ParseESLintText(text).value;
      p.severity == d.severity && p.code == Some(d.code) && p.start == Position(d.line, d.column)
      && p.message == d.message
  {
    match ParseESLintText(text)
    case None => Problem(filename, Error, None, Position(1, 1), Position(1, 1), text)
    case Some(d) => Problem(filename, d.severity, Some(d.code), Position(d.line, d.column), Position(d.line, d.column), d.message)
  }

  /** The problems of one suite's test cases: one per test case that has a `failure` child. */
  function CaseProblems(filename: string, testcases: seq<Element>): (ps: seq<Problem>)
    ensures |ps| <= |testcases|
    ensures forall i :: 0 <= i < |ps| ==> ps[i].filename == filename && ps[i].start == ps[i].end
  {
    if |testcases| == 0 then []
    else
      var rest := CaseProblems(filename, testcases[1..]);
      match ChildNamed(testcases[0].children, "failure")
      case None => rest
      case Some(failure) =>
        var p := ProblemFromText(filename, failure.val);
        assert forall i :: 0 < i < |rest| + 1 ==> ([p] + rest)[i] == rest[i - 1];
        [p] + rest
  }

  function SuiteProblems(suites: seq<Element>): (ps: seq<Problem>)
    ensures forall i :: 0 <= i < |ps| ==> ps[i].start == ps[i].end
  {
    if |suites| == 0 then []
    else CaseProblems(SuiteFilename(suites[0]), ChildrenNamed(suites[0].children, "testcase")) + SuiteProblems(suites[1..])
  }

  /**
   `readJunit`: a document whose root is not `testsuites` is invalid source
   data; otherwise the problems of its suites in document order.
   */
  function ReadJunit(doc: Element): (r: Result<seq<Problem>>)
    ensures r.Failure? <==> doc.name != "testsuites"
    ensures r.Failure? ==> r.error == InvalidSourceDataError
    ensures r.Success? ==> forall i :: 0 <= i < |r.value| ==> r.value[i].start == r.value[i].end
  {
    if doc.name != "testsuites" then Failure(InvalidSourceDataError)
    else Success(SuiteProblems(ChildrenNamed(doc.children, "testsuite")))
  }

  /** Test cases are read in order: the problems of a list are those of its parts, concatenated. */
  lemma {:induction false} CaseProblemsAppend(filename: string, a: seq<Element>, b: seq<Element>)
    ensures CaseProblems(filename, a + b) == CaseProblems(filename, a) + CaseProblems(filename, b)
  {
    if |a| > 0 {
      assert (a + b)[0] == a[0];
      assert (a + b)[1..] == a[1..] + b;
      CaseProblemsAppend(filename, a[1..], b);
    } else {
      assert a + b == b;
    }
  }

  /** Suites are read in order: the problems of a list are those of its parts, concatenated. */
  lemma {:induction false} SuiteProblemsAppend(a: seq<Element>, b: seq<Element>)
    ensures SuiteProblems(a + b) == SuiteProblems(a) + SuiteProblems(b)
  {
    if |a| > 0 {
      assert (a + b)[1..] == a[1..] + b;
      SuiteProblemsAppend(a[1..], b);
    } else {
      assert a + b == b;
    }
  }

  /** A test case without a `failure` child contributes nothing; one with a failure contributes one problem. */
  lemma OneTestcase(filename: string, testcase: Element)
    ensures ChildNamed(testcase.children, "failure").None? ==> CaseProblems(filename, [testcase]) == []
    ensures ChildNamed(testcase.children, "failure").Some? ==>
      CaseProblems(filename, [testcase]) == [ProblemFromText(filename, ChildNamed(testcase.children, "failure").value.val)]
  {
    assert [testcase][1..] == [];
  }

  /** A text without `(` never matches the pattern, so it is read as a plain error message. */
  lemma NoParenNoMatch(text: string)
    requires !HasOpenParen(text)
    ensures ParseESLintText(text).None?
  {
    MatchHasParen(text);
  }

  // ---------------------------------------------------------------------
  // Writing

  const Prologue := "<?xml version=\"1.0\" encoding=\"utf-8\"?>\n<testsuites>\n"
  const Epilogue := "</testsuites>\n"

  /** Whether a problem has a code the sink writes: present and non-empty. */
  predicate HasCode(p: Problem) {
    p.code.Some? && p.code.value != ""
  }

  /** The test case name: `org.report.` and the code, or `org.report.error` without one. */
  function TestcaseName(p: Problem): string {
    if HasCode(p) then "org.report." + p.code.value else "org.report.error"
  }

  /** Errors are written `Error`; warnings and infos both `Warning`. */
  function SeverityText(s: Severity): string {
    if s == Error then "Error" else "Warning"
  }

  /** The failure text as written, XML-escaped. */
  function FailureText(p: Problem): string {
    XmlText(["line ", ", col ", ", ", ""], [Num(p.start.line), Num(p.start.column), Str(SeverityText(p.severity))])
      + XmlText([" - ", ""], [Str(p.message)])
      + (if HasCode(p) then XmlText([" (", ")"], [Str(p.code.value)]) else "")
  }

  /** The failure text an XML reader decodes: the ESLint form of the problem. */
  function PlainFailureText(p: Problem): string {
    "line " + NatToString(p.start.line) + ", col " + NatToString(p.start.column) + ", "
      + SeverityText(p.severity) + " - " + p.message
      + (if HasCode(p) then " (" + p.code.value + ")" else "")
  }

  /**
   The failure text is the escaped ESLint form of the problem: the template
   pieces are plain text, so an XML reader decodes exactly the plain form.
   */
  lemma FailureTextEscapes(p: Problem)
    ensures FailureText(p) == EscapeXml(PlainFailureText(p))
    ensures Unescape(FailureText(p)) == PlainFailureText(p)
  {
    var h := "line " + NatToString(p.start.line) + ", col " + NatToString(p.start.column) + ", " + SeverityText(p.severity);
    var i1 := h + "";
    var i2 := " - " + p.message + "";
    var i3 := if HasCode(p) then " (" + p.code.value + ")" else "";
    FailurePieces(p);
    EscapeConcat(i1, i2);
    EscapeConcat(i1 + i2, i3);
    assert i1 == h;
    assert i2 == " - " + p.message;
    PlainJoin(h, p.message, i3, PlainFailureText(p), p);
    UnescapeEscape(PlainFailureText(p));
  }

  lemma PlainJoin(h: string, m: string, c: string, plain: string, p: Problem)
    requires h == "line " + NatToString(p.start.line) + ", col " + NatToString(p.start.column) + ", " + SeverityText(p.severity)
    requires m == p.message && c == (if HasCode(p) then " (" + p.code.value + ")" else "")
    requires plain == PlainFailureText(p)
    ensures plain == h + (" - " + m) + c
  {
  }

  lemma FailurePieces(p: Problem)
    ensures FailureText(p) ==
      EscapeXml("line " + NatToString(p.start.line) + ", col " + NatToString(p.start.column) + ", " + SeverityText(p.severity) + "")
      + EscapeXml(" - " + p.message + "")
      + EscapeXml(if HasCode(p) then " (" + p.code.value + ")" else "")
  {
    assert NoSpecial("line ") && NoSpecial(", col ") && NoSpecial(", ") && NoSpecial("");
    assert NoSpecial(" - ") && NoSpecial(" (") && NoSpecial(")");
    TemplateThree("line ", ", col ", ", ", "", Num(p.start.line), Num(p.start.column), Str(SeverityText(p.severity)));
    TemplateOne(" - ", "", Str(p.message));
    if HasCode(p) {
      TemplateOne(" (", ")", Str(p.code.value));
    } else {
      assert EscapeXml("") == "";
    }
  }

  /** What the reader needs of a problem to recover it from the written failure text. */
  predicate Recoverable(p: Problem) {
    && p.severity != Info
    && HasCode(p) && SingleLine(p.code.value) && !HasOpenParen(p.code.value)
    && |p.message| >= 1 && SingleLine(p.message)
    && p.start == p.end
  }

  /**
   Round trip of one problem: reading the text of the failure the sink writes
   gives the problem back, provided it is an error or warning with a
   single-line message and a code without `(`, and starts where it ends.
   */
  lemma FailureRoundTrip(p: Problem)
    requires Recoverable(p)
    ensures ProblemFromText(p.filename, Unescape(FailureText(p))) == p
  {
    FailureTextEscapes(p);
    var d := ESLintTextData(p.start.line, p.start.column, p.severity, p.message, p.code.value);
    PlainIsRendered(p, d);
    ParseRender(d);
  }

  lemma PlainIsRendered(p: Problem, d: ESLintTextData)
    requires HasCode(p) && p.severity != Info
    requires d == ESLintTextData(p.start.line, p.start.column, p.severity, p.message, p.code.value)
    ensures PlainFailureText(p) == ESLintText.Render(d)
  {
    var h := "line " + NatToString(p.start.line) + ", col " + NatToString(p.start.column) + ", "
      + SeverityText(p.severity) + " - " + p.message;
    assert PlainFailureText(p) == h + (" (" + p.code.value + ")");
    assert ESLintText.Render(d) == h + " (" + p.code.value + ")";
  }

  lemma NoParenConcat(a: string, b: string)
    requires !HasOpenParen(a) && !HasOpenParen(b)
    ensures !HasOpenParen(a + b)
  {
    forall i | 0 <= i < |a + b|
      ensures (a + b)[i] != '('
    {
      if i < |a| {
        assert (a + b)[i] == a[i];
      } else {
        assert (a + b)[i] == b[i - |a|];
      }
    }
  }

  lemma NoParenDigits(s: string)
    requires AllDigits(s)
    ensures !HasOpenParen(s)
  {
    forall i | 0 <= i < |s|
      ensures s[i] != '('
    {
      assert IsDigit(s[i]);
    }
  }

  /**
   Without a code the round trip is lossy: when the message has no `(`, the
   reader finds no match and reports an error at line 1, column 1 whose
   message is the whole failure text.
   */
  lemma CodelessFailureReadsAsText(p: Problem)
    requires !HasCode(p) && !HasOpenParen(p.message)
    ensures ProblemFromText(p.filename, Unescape(FailureText(p)))
         == Problem(p.filename, Error, None, Position(1, 1), Position(1, 1), PlainFailureText(p))
  {
    FailureTextEscapes(p);
    CodelessPlainNoParen(p);
    NoParenNoMatch(PlainFailureText(p));
  }

  lemma CodelessPlainNoParen(p: Problem)
    requires !HasCode(p) && !HasOpenParen(p.message)
    ensures !HasOpenParen(PlainFailureText(p))
  {
    var line := NatToString(p.start.line);
    var column := NatToString(p.start.column);
    var severity := SeverityText(p.severity);
    NoParenDigits(line);
    NoParenDigits(column);
    assert !HasOpenParen("line ") && !HasOpenParen(", col ") && !HasOpenParen(", ") && !HasOpenParen(" - ");
    assert !HasOpenParen(severity);
    NoParenConcat("line ", line);
    NoParenConcat("line " + line, ", col ");
    NoParenConcat("line " + line + ", col ", column);
    NoParenConcat("line " + line + ", col " + column, ", ");
    NoParenConcat("line " + line + ", col " + column + ", ", severity);
    NoParenConcat("line " + line + ", col " + column + ", " + severity, " - ");
    NoParenConcat("line " + line + ", col " + column + ", " + severity + " - ", p.message);
    assert PlainFailureText(p) == "line " + line + ", col " + column + ", " + severity + " - " + p.message + "";
  }

  function TestcaseText(p: Problem): string {
    XmlText(["<testcase time=\"0\" name=\"", "\">"], [Str(TestcaseName(p))])
      + XmlText(["<failure message=\"", "\">"], [Str(p.message)])
      + FailureText(p)
      + "</failure></testcase>\n"
  }

  function TestcasesText(ps: seq<Problem>): string {
    if |ps| == 0 then "" else TestcaseText(ps[0]) + TestcasesText(ps[1..])
  }

  /** One test suite: `tests` and `errors` both count the file's problems. */
  function SuiteText(filename: string, ps: seq<Problem>): string {
    "<testsuite package=\"org.report\" time=\"0\""
      + XmlText([" tests=\"", "\""], [Num(|ps|)])
      + XmlText([" errors=\"", "\""], [Num(|ps|)])
      + XmlText([" name=\"", "\">\n"], [Str(filename)])
      + TestcasesText(ps)
      + "</testsuite>\n"
  }

  function SuitesText(suites: seq<(string, seq<Problem>)>): string {
    if |suites| == 0 then "" else SuiteText(suites[0].0, suites[0].1) + SuitesText(suites[1..])
  }

  /** The state of the JUnit sink: what it has written and the problems collected per file. */
  datatype JunitWriter = JunitWriter(output: string, problemsForFiles: Dict<seq<Problem>>)

  /** `writeJunit(stream)`: the declaration and the opening `testsuites` tag, and no problems yet. */
  function OpenJunit(): JunitWriter {
    JunitWriter(Prologue, Dict([]))
  }

  /** The collected files in sorted order with their problems, files without problems dropped. */
  function SortedEntries(groups: Dict<seq<Problem>>): (r: seq<(string, seq<Problem>)>)
    ensures forall i :: 0 <= i < |r| ==> |r[i].1| > 0 && Get(groups, r[i].0) == Some(r[i].1)
  {
    SortPermutes(Keys(groups));
    NonEmpty(Entries(groups, Sort(Keys(groups))))
  }

  function Entries(groups: Dict<seq<Problem>>, keys: seq<string>): (r: seq<(string, seq<Problem>)>)
    requires forall i :: 0 <= i < |keys| ==> keys[i] in Keys(groups)
    ensures |r| == |keys|
    ensures forall i :: 0 <= i < |r| ==> r[i].0 == keys[i] && Get(groups, keys[i]) == Some(r[i].1)
  {
    seq(|keys|, i requires 0 <= i < |keys| && keys[i] in Keys(groups) => (keys[i], Get(groups, keys[i]).value))
  }

  function NonEmpty(entries: seq<(string, seq<Problem>)>): (r: seq<(string, seq<Problem>)>)
    ensures forall i :: 0 <= i < |r| ==> |r[i].1| > 0 && r[i] in entries
    ensures (forall i :: 0 <= i < |entries| ==> |entries[i].1| > 0) ==> r == entries
  {
    if |entries| == 0 then []
    else
      var rest := NonEmpty(entries[1..]);
      if |entries[0].1| > 0 then [entries[0]] + rest else rest
  }

  /**
   The sink's writer called with one input: a problem is appended to its
   file's list and nothing is written; the end marker writes every suite
   and the closing tag.
   */
  function Accept(w: JunitWriter, input: SinkInput): (r: JunitWriter)
    requires Valid(w.problemsForFiles)
    ensures Valid(r.problemsForFiles)
    ensures input.Next? ==>
      var f := input.problem.filename;
      var before := Get(w.problemsForFiles, f);
      && r.output == w.output
      && Get(r.problemsForFiles, f) == Some((if before.Some? then before.value else []) + [input.problem])
      && (forall g :: g != f ==> Get(r.problemsForFiles, g) == Get(w.problemsForFiles, g))
      && Keys(r.problemsForFiles) == (if before.Some? then Keys(w.problemsForFiles) else Keys(w.problemsForFiles) + [f])
    ensures input.End? ==>
      r.output == w.output + SuitesText(SortedEntries(w.problemsForFiles)) + Epilogue
  {
    match input
    case Next(p) =>
      var groups := w.problemsForFiles;
      var created := if Get(groups, p.filename).None? then Put(groups, p.filename, []) else groups;
      JunitWriter(w.output, Put(created, p.filename, Get(created, p.filename).value + [p]))
    case End =>
      JunitWriter(w.output + SuitesText(SortedEntries(w.problemsForFiles)) + Epilogue, w.problemsForFiles)
  }

  /** The writer after a sequence of calls. */
  function Feed(w: JunitWriter, inputs: seq<SinkInput>): (r: JunitWriter)
    requires Valid(w.problemsForFiles)
    ensures Valid(r.problemsForFiles)
  {
    if |inputs| == 0 then w
    else Accept(Feed(w, inputs[..|inputs| - 1]), inputs[|inputs| - 1])
  }

  // ---------------------------------------------------------------------
  // Reference definitions for what the writer collects

  /** Whether some problem of `ps` is reported for file `f`. */
  predicate Mentions(ps: seq<Problem>, f: string) {
    exists i :: 0 <= i < |ps| && ps[i].filename == f
  }

  lemma MentionsSnoc(ps: seq<Problem>, f: string)
    requires |ps| > 0
    ensures Mentions(ps, f) <==> Mentions(ps[..|ps| - 1], f) || ps[|ps| - 1].filename == f
  {
    var init := ps[..|ps| - 1];
    if Mentions(ps, f) && ps[|ps| - 1].filename != f {
      var i :| 0 <= i < |ps| && ps[i].filename == f;
      assert init[i] == ps[i];
    }
    if Mentions(init, f) {
      var i :| 0 <= i < |init| && init[i].filename == f;
      assert ps[i] == init[i];
    }
  }

  /** The distinct file names of `ps`, in order of first appearance. */
  function FileOrder(ps: seq<Problem>): (r: seq<string>)
    ensures Distinct(r)
    ensures forall f :: f in r <==> Mentions(ps, f)
  {
    if |ps| == 0 then []
    else
      var d := FileOrder(ps[..|ps| - 1]);
      var f := ps[|ps| - 1].filename;
      assert forall g :: Mentions(ps, g) <==> Mentions(ps[..|ps| - 1], g) || g == f by {
        forall g
          ensures Mentions(ps, g) <==> Mentions(ps[..|ps| - 1], g) || g == f
        {
          MentionsSnoc(ps, g);
        }
      }
      if f in d then d else d + [f]
  }

  /** The problems of `ps` reported for file `f`, in arrival order. */
  function ProblemsOf(ps: seq<Problem>, f: string): (r: seq<Problem>)
    ensures forall i :: 0 <= i < |r| ==> r[i].filename == f && r[i] in ps
    ensures |r| <= |ps|
  {
    if |ps| == 0 then []
    else
      var rest := ProblemsOf(ps[..|ps| - 1], f);
      if ps[|ps| - 1].filename == f then rest + [ps[|ps| - 1]] else rest
  }

  /** No problem for the file is lost: each occurs as often as in `ps`, and no other problem occurs. */
  lemma {:induction false} ProblemsOfComplete(ps: seq<Problem>, f: string)
    ensures forall p :: multiset(ProblemsOf(ps, f))[p] == if p.filename == f then multiset(ps)[p] else 0
  {
    if |ps| > 0 {
      var init := ps[..|ps| - 1];
      var last := ps[|ps| - 1];
      ProblemsOfComplete(init, f);
      assert ps == init + [last];
      assert multiset(ps) == multiset(init) + multiset{last};
      if last.filename == f {
        assert multiset(ProblemsOf(init, f) + [last]) == multiset(ProblemsOf(init, f)) + multiset{last};
      }
    }
  }

  /** A single problem is kept exactly when it is for the file. */
  lemma ProblemsOfSingle(p: Problem, f: string)
    ensures ProblemsOf([p], f) == if p.filename == f then [p] else []
  {
    assert [p][..0] == [];
  }

  lemma {:induction false} ProblemsOfNonEmpty(ps: seq<Problem>, f: string)
    ensures |ProblemsOf(ps, f)| > 0 <==> f in FileOrder(ps)
  {
    if |ps| > 0 {
      ProblemsOfNonEmpty(ps[..|ps| - 1], f);
    }
  }

  /** The delivered problems as the writer groups them. */
  ghost predicate Collected(groups: Dict<seq<Problem>>, ps: seq<Problem>) {
    && Keys(groups) == FileOrder(ps)
    && forall f :: Get(groups, f) == (if f in FileOrder(ps) then Some(ProblemsOf(ps, f)) else None)
  }

  lemma DeliveriesSnoc(ps: seq<Problem>)
    requires |ps| > 0
    ensures Deliveries(ps)[..|ps| - 1] == Deliveries(ps[..|ps| - 1])
    ensures Deliveries(ps)[|ps| - 1] == Next(ps[|ps| - 1])
  {
  }

  /** Accepting one more problem keeps the grouping in step with the reference definitions. */
  lemma CollectStep(w: JunitWriter, ps: seq<Problem>)
    requires |ps| > 0 && Valid(w.problemsForFiles)
    requires Collected(w.problemsForFiles, ps[..|ps| - 1])
    ensures Collected(Accept(w, Next(ps[|ps| - 1])).problemsForFiles, ps)
  {
    var init := ps[..|ps| - 1];
    var p := ps[|ps| - 1];
    var after := Accept(w, Next(p)).problemsForFiles;
    assert FileOrder(ps) == if p.filename in FileOrder(init) then FileOrder(init) else FileOrder(init) + [p.filename];
    forall f
      ensures Get(after, f) == (if f in FileOrder(ps) then Some(ProblemsOf(ps, f)) else None)
    {
      ProblemsOfNonEmpty(init, f);
      assert ProblemsOf(ps, f) == if p.filename == f then ProblemsOf(init, f) + [p] else ProblemsOf(init, f);
    }
  }

  /**
   While problems arrive nothing is written, and the writer holds, for each
   file in order of first appearance, exactly that file's problems in
   arrival order.
   */
  lemma {:induction false} CollectInvariant(ps: seq<Problem>)
    ensures Feed(OpenJunit(), Deliveries(ps)).output == Prologue
    ensures Collected(Feed(OpenJunit(), Deliveries(ps)).problemsForFiles, ps)
  {
    if |ps| > 0 {
      var init := ps[..|ps| - 1];
      CollectInvariant(init);
      DeliveriesSnoc(ps);
      var before := Feed(OpenJunit(), Deliveries(init));
      assert Feed(OpenJunit(), Deliveries(ps)) == Accept(before, Next(ps[|ps| - 1]));
      CollectStep(before, ps);
    } else {
      assert Deliveries(ps) == [];
    }
  }

  /** The files in the order they are written, with their problems. */
  function FileSuites(ps: seq<Problem>): (r: seq<(string, seq<Problem>)>)
    ensures |r| == |FileOrder(ps)|
  {
    var files := Sort(FileOrder(ps));
    SortPermutes(FileOrder(ps));
    seq(|files|, i requires 0 <= i < |files| => (files[i], ProblemsOf(ps, files[i])))
  }

  /**
   The files are written in strictly ascending order, each file of the
   stream exactly once, and each suite holds the file's problems in arrival
   order and is never empty.
   */
  lemma FileSuitesOrdered(ps: seq<Problem>)
    ensures StrictlySorted(SuiteNames(FileSuites(ps)))
    ensures forall f :: Mentions(ps, f) ==> exists i :: 0 <= i < |FileSuites(ps)| && FileSuites(ps)[i].0 == f
    ensures forall i :: 0 <= i < |FileSuites(ps)| ==> Mentions(ps, FileSuites(ps)[i].0)
    ensures forall i :: 0 <= i < |FileSuites(ps)| ==>
      |FileSuites(ps)[i].1| > 0 && FileSuites(ps)[i].1 == ProblemsOf(ps, FileSuites(ps)[i].0)
  {
    FileSuitesSorted(ps);
    FileSuitesCover(ps);
    FileSuitesNonEmpty(ps);
  }

  lemma FileSuitesSorted(ps: seq<Problem>)
    ensures StrictlySorted(SuiteNames(FileSuites(ps)))
  {
    var suites := FileSuites(ps);
    var files := Sort(FileOrder(ps));
    SortDistinct(FileOrder(ps));
    var names := SuiteNames(suites);
    forall i | 0 <= i < |names|
      ensures names[i] == files[i]
    {
      assert suites[i] == (files[i], ProblemsOf(ps, files[i]));
    }
    assert names == files;
  }

  /** The file names of a list of suites, in order. */
  function SuiteNames(suites: seq<(string, seq<Problem>)>): (r: seq<string>)
    ensures |r| == |suites|
    ensures forall i :: 0 <= i < |r| ==> r[i] == suites[i].0
  {
    seq(|suites|, i requires 0 <= i < |suites| => suites[i].0)
  }

  lemma FileSuitesCover(ps: seq<Problem>)
    ensures forall f :: Mentions(ps, f) ==> exists i :: 0 <= i < |FileSuites(ps)| && FileSuites(ps)[i].0 == f
    ensures forall i :: 0 <= i < |FileSuites(ps)| ==> Mentions(ps, FileSuites(ps)[i].0)
  {
    var suites := FileSuites(ps);
    var files := Sort(FileOrder(ps));
    SortPermutes(FileOrder(ps));
    forall i | 0 <= i < |suites|
      ensures Mentions(ps, suites[i].0)
    {
      assert suites[i].0 == files[i] && files[i] in files;
    }
    forall f | Mentions(ps, f)
      ensures exists i :: 0 <= i < |suites| && suites[i].0 == f
    {
      assert f in files;
      var i :| 0 <= i < |files| && files[i] == f;
      assert suites[i].0 == f;
    }
  }

  lemma FileSuitesNonEmpty(ps: seq<Problem>)
    ensures forall i :: 0 <= i < |FileSuites(ps)| ==>
      |FileSuites(ps)[i].1| > 0 && FileSuites(ps)[i].1 == ProblemsOf(ps, FileSuites(ps)[i].0)
  {
    var suites := FileSuites(ps);
    var files := Sort(FileOrder(ps));
    SortPermutes(FileOrder(ps));
    forall i | 0 <= i < |suites|
      ensures |suites[i].1| > 0 && suites[i].1 == ProblemsOf(ps, suites[i].0)
    {
      assert suites[i] == (files[i], ProblemsOf(ps, files[i]));
      assert files[i] in files;
      ProblemsOfNonEmpty(ps, files[i]);
    }
  }

  /** The suites the end marker writes from a collected stream are the reference suites. */
  lemma CollectedEntries(groups: Dict<seq<Problem>>, ps: seq<Problem>)
    requires Valid(groups) && Collected(groups, ps)
    ensures SortedEntries(groups) == FileSuites(ps)
  {
    SortPermutes(Keys(groups));
    var entries := Entries(groups, Sort(Keys(groups)));
    FileSuitesOrdered(ps);
    assert entries == FileSuites(ps) by {
      forall i | 0 <= i < |entries|
        ensures entries[i] == FileSuites(ps)[i]
      {
        assert Sort(Keys(groups))[i] in Sort(Keys(groups));
      }
    }
  }

  /**
   What the sink writes for a whole stream: the prologue, one suite per file
   in sorted order with that file's problems in arrival order, and the
   closing tag.
   */
  lemma WriteJunitOutput(ps: seq<Problem>)
    ensures Feed(OpenJunit(), Deliveries(ps) + [End]).output == Prologue + SuitesText(FileSuites(ps)) + Epilogue
  {
    var t := Deliveries(ps) + [End];
    assert t[..|t| - 1] == Deliveries(ps);
    CollectInvariant(ps);
    var w := Feed(OpenJunit(), Deliveries(ps));
    assert Feed(OpenJunit(), t) == Accept(w, End);
    CollectedEntries(w.problemsForFiles, ps);
  }

  /** A stream without problems writes an empty `testsuites` element. */
  lemma WriteJunitEmpty()
    ensures Feed(OpenJunit(), [End]).output == Prologue + Epilogue
  {
    WriteJunitOutput([]);
    assert Deliveries([]) + [End] == [End];
  }

  // ---------------------------------------------------------------------
  // Reading back what was written

  function TestcaseElement(p: Problem): Element {
    Element("testcase", map["time" := "0", "name" := TestcaseName(p)],
      [Element("failure", map["message" := p.message], [], Unescape(FailureText(p)))], "")
  }

  function TestcaseElements(ps: seq<Problem>): (r: seq<Element>)
    ensures |r| == |ps|
    ensures forall i :: 0 <= i < |ps| ==> r[i] == TestcaseElement(ps[i])
  {
    seq(|ps|, i requires 0 <= i < |ps| => TestcaseElement(ps[i]))
  }

  function SuiteElement(filename: string, ps: seq<Problem>): Element {
    Element("testsuite",
      map["package" := "org.report", "time" := "0", "tests" := NatToString(|ps|),
          "errors" := NatToString(|ps|), "name" := filename],
      TestcaseElements(ps), "")
  }

  function SuiteElements(suites: seq<(string, seq<Problem>)>): (r: seq<Element>)
    ensures |r| == |suites|
    ensures forall i :: 0 <= i < |suites| ==> r[i] == SuiteElement(suites[i].0, suites[i].1)
  {
    seq(|suites|, i requires 0 <= i < |suites| => SuiteElement(suites[i].0, suites[i].1))
  }

  /**
   The element tree of the document the sink writes for `ps`: the names,
   attribute values and failure texts an XML reader decodes from the output
   of `WriteJunitOutput` (whitespace between elements is not represented).
   */
  function WrittenDocument(ps: seq<Problem>): Element {
    Element("testsuites", map[], SuiteElements(FileSuites(ps)), "")
  }

  /** The problems of the suites, one suite after the other. */
  function Flatten(suites: seq<(string, seq<Problem>)>): seq<Problem> {
    if |suites| == 0 then [] else suites[0].1 + Flatten(suites[1..])
  }

  lemma {:induction false} AllNamed(children: seq<Element>, name: string)
    requires forall i :: 0 <= i < |children| ==> children[i].name == name
    ensures ChildrenNamed(children, name) == children
  {
    if |children| > 0 {
      AllNamed(children[1..], name);
    }
  }

  /** Problems that all belong to `filename` and can each be recovered from their text. */
  predicate RecoverableIn(filename: string, ps: seq<Problem>) {
    forall i :: 0 <= i < |ps| ==> Recoverable(ps[i]) && ps[i].filename == filename
  }

  lemma TestcaseElementsCons(ps: seq<Problem>)
    requires |ps| > 0
    ensures TestcaseElements(ps) == [TestcaseElement(ps[0])] + TestcaseElements(ps[1..])
  {
    var a, b := TestcaseElements(ps), [TestcaseElement(ps[0])] + TestcaseElements(ps[1..]);
    forall i | 0 <= i < |a|
      ensures a[i] == b[i]
    {
      if i > 0 {
        assert ps[1..][i - 1] == ps[i];
      }
    }
  }

  lemma {:induction false} ReadTestcases(filename: string, ps: seq<Problem>)
    requires RecoverableIn(filename, ps)
    ensures CaseProblems(filename, TestcaseElements(ps)) == ps
  {
    if |ps| > 0 {
      TestcaseElementsCons(ps);
      RecoverableTail(filename, ps);
      ReadTestcases(filename, ps[1..]);
      CaseOfTestcase(filename, ps[0], TestcaseElements(ps[1..]));
      assert ps == [ps[0]] + ps[1..];
    } else {
      assert TestcaseElements(ps) == [];
    }
  }

  lemma RecoverableTail(filename: string, ps: seq<Problem>)
    requires |ps| > 0 && RecoverableIn(filename, ps)
    ensures Recoverable(ps[0]) && ps[0].filename == filename && RecoverableIn(filename, ps[1..])
  {
    forall i | 0 <= i < |ps[1..]|
      ensures Recoverable(ps[1..][i]) && ps[1..][i].filename == filename
    {
      assert ps[1..][i] == ps[i + 1];
    }
  }

  /** The test case written for a recoverable problem reads back as that problem. */
  lemma CaseOfTestcase(filename: string, p: Problem, rest: seq<Element>)
    requires Recoverable(p) && p.filename == filename
    ensures CaseProblems(filename, [TestcaseElement(p)] + rest) == [p] + CaseProblems(filename, rest)
  {
    var cs := [TestcaseElement(p)] + rest;
    assert cs[0] == TestcaseElement(p) && cs[1..] == rest;
    var f := cs[0].children[0];
    assert cs[0].children == [f];
    assert ChildNamed([f], "failure") == Some(f);
    FailureRoundTrip(p);
  }

  /** Suites whose problems all carry the suite's file name and can be recovered. */
  predicate ReadableSuites(suites: seq<(string, seq<Problem>)>) {
    forall k, i :: 0 <= k < |suites| && 0 <= i < |suites[k].1| ==>
      Recoverable(suites[k].1[i]) && suites[k].1[i].filename == suites[k].0
  }

  lemma {:induction false} ReadSuites(suites: seq<(string, seq<Problem>)>)
    requires ReadableSuites(suites)
    ensures SuiteProblems(SuiteElements(suites)) == Flatten(suites)
  {
    if |suites| > 0 {
      var elements := SuiteElements(suites);
      assert elements[1..] == SuiteElements(suites[1..]);
      ReadSuites(suites[1..]);
      var s := elements[0];
      assert SuiteFilename(s) == suites[0].0;
      AllNamed(s.children, "testcase");
      assert RecoverableIn(suites[0].0, suites[0].1);
      ReadTestcases(suites[0].0, suites[0].1);
    } else {
      assert SuiteElements(suites) == [];
    }
  }

  /**
   Reading back the document the sink writes gives the problems grouped by
   file, files in sorted order, each file's problems in arrival order and
   each problem exactly as delivered, when every problem is recoverable.
   */
  lemma ReadWrittenDocument(ps: seq<Problem>)
    requires forall i :: 0 <= i < |ps| ==> Recoverable(ps[i])
    ensures ReadJunit(WrittenDocument(ps)) == Success(Flatten(FileSuites(ps)))
  {
    var suites := FileSuites(ps);
    SuitesReadable(ps);
    AllNamed(SuiteElements(suites), "testsuite");
    ReadSuites(suites);
  }

  lemma SuitesReadable(ps: seq<Problem>)
    requires forall i :: 0 <= i < |ps| ==> Recoverable(ps[i])
    ensures ReadableSuites(FileSuites(ps))
  {
    var suites := FileSuites(ps);
    forall k, i | 0 <= k < |suites| && 0 <= i < |suites[k].1|
      ensures Recoverable(suites[k].1[i]) && suites[k].1[i].filename == suites[k].0
    {
      var f := suites[k].0;
      assert suites[k].1 == ProblemsOf(ps, f);
      var q := suites[k].1[i];
      assert q in ps;
    }
  }

  lemma {:induction false} ProblemsOfAppend(a: seq<Problem>, b: seq<Problem>, f: string)
    ensures ProblemsOf(a + b, f) == ProblemsOf(a, f) + ProblemsOf(b, f)
    decreases |b|
  {
    if |b| > 0 {
      var b' := b[..|b| - 1];
      assert (a + b)[..|a + b| - 1] == a + b';
      assert (a + b)[|a + b| - 1] == b[|b| - 1];
      ProblemsOfAppend(a, b', f);
    } else {
      assert a + b == a;
    }
  }

  lemma {:induction false} ProblemsOfProblemsOf(ps: seq<Problem>, g: string, f: string)
    ensures ProblemsOf(ProblemsOf(ps, g), f) == if f == g then ProblemsOf(ps, g) else []
  {
    if |ps| > 0 {
      var init := ps[..|ps| - 1];
      ProblemsOfProblemsOf(init, g, f);
      var last := ps[|ps| - 1];
      if last.filename == g {
        var r := ProblemsOf(init, g) + [last];
        assert r[..|r| - 1] == ProblemsOf(init, g);
      }
    }
  }

  /** Whether one of the suites is for file `f`. */
  predicate HasSuite(suites: seq<(string, seq<Problem>)>, f: string) {
    exists k :: 0 <= k < |suites| && suites[k].0 == f
  }

  lemma HasSuiteCons(suites: seq<(string, seq<Problem>)>, f: string)
    requires |suites| > 0
    ensures HasSuite(suites, f) <==> suites[0].0 == f || HasSuite(suites[1..], f)
  {
    var rest := suites[1..];
    if HasSuite(suites, f) && suites[0].0 != f {
      var k :| 0 <= k < |suites| && suites[k].0 == f;
      assert rest[k - 1] == suites[k];
    }
    if HasSuite(rest, f) {
      var k :| 0 <= k < |rest| && rest[k].0 == f;
      assert suites[k + 1] == rest[k];
    }
  }

  lemma {:induction false} FlattenProblemsOf(ps: seq<Problem>, suites: seq<(string, seq<Problem>)>, f: string)
    requires forall k :: 0 <= k < |suites| ==> suites[k].1 == ProblemsOf(ps, suites[k].0)
    requires forall k, l :: 0 <= k < l < |suites| ==> suites[k].0 != suites[l].0
    ensures ProblemsOf(Flatten(suites), f) == if HasSuite(suites, f) then ProblemsOf(ps, f) else []
  {
    if |suites| > 0 {
      var rest := suites[1..];
      assert forall k :: 0 <= k < |rest| ==> rest[k] == suites[k + 1];
      FlattenProblemsOf(ps, rest, f);
      ProblemsOfAppend(suites[0].1, Flatten(rest), f);
      ProblemsOfProblemsOf(ps, suites[0].0, f);
      HasSuiteCons(suites, f);
      if suites[0].0 == f {
        assert !HasSuite(rest, f);
      }
    }
  }

  /**
   Regrouping loses and invents nothing: for every file, the problems read
   back for it are exactly those delivered for it, in arrival order.
   */
  lemma RegroupedPerFile(ps: seq<Problem>, f: string)
    ensures ProblemsOf(Flatten(FileSuites(ps)), f) == ProblemsOf(ps, f)
  {
    var suites := FileSuites(ps);
    FileSuitesOrdered(ps);
    var files := Sort(FileOrder(ps));
    SortDistinct(FileOrder(ps));
    forall k, l | 0 <= k < l < |suites|
      ensures suites[k].0 != suites[l].0
    {
      assert suites[k].0 == files[k] && suites[l].0 == files[l];
      LessIrreflexive(files[k]);
    }
    FlattenProblemsOf(ps, suites, f);
    if !HasSuite(suites, f) {
      ProblemsOfNonEmpty(ps, f);
    }
  }
}
