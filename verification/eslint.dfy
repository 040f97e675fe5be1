/**
 The ESLint-style failure text the JUnit format carries,
 `line L, col C, Error|Warning - MESSAGE (CODE)`, and the regular expression
 `^line (\d+), col (\d+), (Error|Warning) - (.+) \((.+)\)$` that reads it.
 */
module ESLintText {
  import opened Types
  import opened Text

  /** The characters JavaScript's `.` does not match. */
  predicate LineTerminator(c: char) {
    c == '\n' || c == '\r' || c == '\U{2028}' || c == '\U{2029}'
  }

  predicate SingleLine(s: string) {
    forall i :: 0 <= i < |s| ==> !LineTerminator(s[i])
  }

  predicate HasOpenParen(s: string) {
    exists i :: 0 <= i < |s| && s[i] == '('
  }

  /** The five capture groups of a successful match, as strings. */
  datatype Groups = Groups(line: string, column: string, severity: string, message: string, code: string)

  /** What each group may hold: `\d+`, `\d+`, `Error|Warning`, `.+`, `.+`. */
  predicate WellFormed(g: Groups) {
    && |g.line| >= 1 && AllDigits(g.line)
    && |g.column| >= 1 && AllDigits(g.column)
    && (g.severity == "Error" || g.severity == "Warning")
    && |g.message| >= 1 && SingleLine(g.message)
    && |g.code| >= 1 && SingleLine(g.code)
  }

  /** The text the pattern's literal parts and the groups spell together. */
  function Compose(g: Groups): string {
    "line " + g.line + ", col " + g.column + ", " + g.severity + " - " + g.message + " (" + g.code + ")"
  }

  /** The number of decimal digits `s` starts with. */
  function DigitRun(s: string): (n: nat)
    ensures n <= |s| && AllDigits(s[..n])
    ensures n < |s| ==> !IsDigit(s[n])
  {
    if |s| == 0 || !IsDigit(s[0]) then 0
    else
      var n := 1 + DigitRun(s[1..]);
      assert forall i :: 1 <= i < n ==> s[..n][i] == s[1..][..n - 1][i - 1];
      n
  }

  /** Matching the literal `lit` at the start of `s`; the rest of `s` on success. */
  function Literal(lit: string, s: string): (r: Option<string>)
    ensures r.Some? <==> |s| >= |lit| && s[..|lit|] == lit
    ensures r.Some? ==> s == lit + r.value
  {
    if |s| >= |lit| && s[..|lit|] == lit then Some(s[|lit|..]) else None
  }

  lemma LiteralPrefix(lit: string, rest: string)
    ensures Literal(lit, lit + rest) == Some(rest)
  {
    assert (lit + rest)[..|lit|] == lit;
    assert (lit + rest)[|lit|..] == rest;
  }

  /** `(\d+)` followed by a non-digit: the digits and the rest of `s`. */
  function Digits(s: string): (r: Option<(string, string)>)
    ensures r.Some? ==> s == r.value.0 + r.value.1 && |r.value.0| >= 1 && AllDigits(r.value.0)
  {
    var n := DigitRun(s);
    if n == 0 then None
    else
      assert s == s[..n] + s[n..];
      Some((s[..n], s[n..]))
  }

  lemma DigitsStop(d: string, rest: string)
    requires |d| >= 1 && AllDigits(d) && |rest| >= 1 && !IsDigit(rest[0])
    ensures Digits(d + rest) == Some((d, rest))
  {
    var s := d + rest;
    var n := DigitRun(s);
    assert s[|d|] == rest[0];
    assert forall i :: 0 <= i < |d| ==> s[i] == d[i];
    assert n == |d|;
    assert s[..n] == d && s[n..] == rest;
  }

  /** `(Error|Warning) - `: the severity word and the rest of `s`. */
  function SeverityWord(s: string): (r: Option<(string, string)>)
    ensures r.Some? ==> (r.value.0 == "Error" || r.value.0 == "Warning") && s == r.value.0 + " - " + r.value.1
  {
    match Literal("Error - ", s)
    case Some(rest) =>
      assert "Error - " == "Error" + " - ";
      Some(("Error", rest))
    case None =>
      match Literal("Warning - ", s)
      case Some(rest) =>
        assert "Warning - " == "Warning" + " - ";
        Some(("Warning", rest))
      case None => None
  }

  lemma SeverityWordOf(w: string, rest: string)
    requires w == "Error" || w == "Warning"
    ensures SeverityWord(w + " - " + rest) == Some((w, rest))
  {
    var s := w + " - " + rest;
    if w == "Error" {
      assert s == "Error - " + rest;
      LiteralPrefix("Error - ", rest);
    } else {
      assert s == "Warning - " + rest;
      assert s[0] == 'W';
      assert Literal("Error - ", s).None?;
      LiteralPrefix("Warning - ", rest);
    }
  }

  /**
   The largest `j` with `1 <= j <= hi` where `body` has ` (` at `j`, or -1:
   the greedy `(.+)` of the message backs off only as far as it must.
   */
  function LastOpen(body: string, hi: int): (j: int)
    requires hi + 1 < |body|
    ensures j == -1 || (1 <= j <= hi && body[j] == ' ' && body[j + 1] == '(')
    ensures forall k :: j < k <= hi && k >= 1 ==> !(body[k] == ' ' && body[k + 1] == '(')
    decreases hi
  {
    if hi < 1 then -1
    else if body[hi] == ' ' && body[hi + 1] == '(' then hi
    else LastOpen(body, hi - 1)
  }

  /**
   `(.+) \((.+)\)$` on what follows `" - "`: the message is the longest
   non-empty prefix after which ` (`, a non-empty code and a final `)` end
   the text, all on one line.
   */
  function SplitMessageCode(t: string): (r: Option<(string, string)>)
    ensures r.Some? ==>
      && t == r.value.0 + " (" + r.value.1 + ")"
      && |r.value.0| >= 1 && SingleLine(r.value.0)
      && |r.value.1| >= 1 && SingleLine(r.value.1)
  {
    if |t| < 4 || t[|t| - 1] != ')' || !SingleLine(t) then None
    else
      var body := t[..|t| - 1];
      var j := LastOpen(body, |body| - 3);
      if j == -1 then None
      else
        var m := body[..j];
        var c := body[j + 2..];
        assert body == m + " (" + c;
        assert t == body + ")";
        assert SingleLine(m) by {
          forall i | 0 <= i < |m|
            ensures !LineTerminator(m[i])
          {
            assert m[i] == t[i];
          }
        }
        assert SingleLine(c) by {
          forall i | 0 <= i < |c|
            ensures !LineTerminator(c[i])
          {
            assert c[i] == t[j + 2 + i];
          }
        }
        Some((m, c))
  }

  lemma SplitNoLaterParen(m: string, c: string)
    requires |m| >= 1 && SingleLine(m) && |c| >= 1 && SingleLine(c) && !HasOpenParen(c)
    ensures SplitMessageCode(m + " (" + c + ")") == Some((m, c))
  {
    var t := m + " (" + c + ")";
    assert SingleLine(t) by {
      forall i | 0 <= i < |t|
        ensures !LineTerminator(t[i])
      {
        if i < |m| {
          assert t[i] == m[i];
        } else if |m| + 2 <= i < |m| + 2 + |c| {
          assert t[i] == c[i - |m| - 2];
        }
      }
    }
    var body := t[..|t| - 1];
    assert body == m + " (" + c;
    assert body[|m|] == ' ' && body[|m| + 1] == '(';
    forall k | |m| < k <= |body| - 3
      ensures !(body[k] == ' ' && body[k + 1] == '(')
    {
      assert body[k + 1] == c[k + 1 - |m| - 2];
    }
    var j := LastOpen(body, |body| - 3);
    assert j == |m|;
    assert body[..j] == m;
    assert body[j + 2..] == c;
  }

  /** The pattern after `, `: severity, message and code. */
  function MatchTail(s: string): (r: Option<(string, string, string)>)
    ensures r.Some? ==>
      && (r.value.0 == "Error" || r.value.0 == "Warning")
      && |r.value.1| >= 1 && SingleLine(r.value.1)
      && |r.value.2| >= 1 && SingleLine(r.value.2)
      && s == r.value.0 + " - " + r.value.1 + " (" + r.value.2 + ")"
  {
    match SeverityWord(s)
    case None => None
    case Some(sw) =>
      match SplitMessageCode(sw.1)
      case None => None
      case Some(mc) =>
        TailJoin(s, sw.0, sw.1, mc.0, mc.1);
        Some((sw.0, mc.0, mc.1))
  }

  lemma TailJoin(s: string, w: string, rest: string, m: string, c: string)
    requires s == w + " - " + rest && rest == m + " (" + c + ")"
    ensures s == w + " - " + m + " (" + c + ")"
  {
  }

  /** The pattern from its start up to the second `, `: line, column and the rest. */
  function MatchHead(text: string): (r: Option<(string, string, string)>)
    ensures r.Some? ==>
      && |r.value.0| >= 1 && AllDigits(r.value.0)
      && |r.value.1| >= 1 && AllDigits(r.value.1)
      && text == "line " + r.value.0 + ", col " + r.value.1 + ", " + r.value.2
  {
    match Literal("line ", text)
    case None => None
    case Some(r1) =>
      match Digits(r1)
      case None => None
      case Some(line) =>
        match Literal(", col ", line.1)
        case None => None
        case Some(r3) =>
          match Digits(r3)
          case None => None
          case Some(column) =>
            match Literal(", ", column.1)
            case None => None
            case Some(rest) =>
              HeadJoin(text, r1, line.0, line.1, r3, column.0, column.1, rest);
              Some((line.0, column.0, rest))
  }

  lemma HeadJoin(text: string, r1: string, l: string, r2: string, r3: string, c: string, r4: string, rest: string)
    requires text == "line " + r1 && r1 == l + r2 && r2 == ", col " + r3 && r3 == c + r4 && r4 == ", " + rest
    ensures text == "line " + l + ", col " + c + ", " + rest
  {
  }

  /** Compose splits after the second `, `. */
  lemma ComposeSplit(g: Groups)
    ensures Compose(g) == "line " + g.line + ", col " + g.column + ", "
                          + (g.severity + " - " + g.message + " (" + g.code + ")")
  {
  }

  /**
   Matching the pattern against the whole text; on success the text is
   exactly the literal parts interleaved with well-formed groups.
   */
  function Match(text: string): (r: Option<Groups>)
    ensures r.Some? ==> WellFormed(r.value) && text == Compose(r.value)
  {
    match MatchHead(text)
    case None => None
    case Some(head) =>
      match MatchTail(head.2)
      case None => None
      case Some(tail) =>
        var g := Groups(head.0, head.1, tail.0, tail.1, tail.2);
        ComposeSplit(g);
        Some(g)
  }

  lemma MatchHeadOf(line: string, column: string, rest: string)
    requires |line| >= 1 && AllDigits(line) && |column| >= 1 && AllDigits(column)
    ensures MatchHead("line " + line + ", col " + column + ", " + rest) == Some((line, column, rest))
  {
    var r4 := ", " + rest;
    var r3 := column + r4;
    var r2 := ", col " + r3;
    var r1 := line + r2;
    HeadRegroup("line ", line, ", col ", column, ", ", rest);
    LiteralPrefix("line ", r1);
    assert r2[0] == ',';
    DigitsStop(line, r2);
    LiteralPrefix(", col ", r3);
    assert r4[0] == ',';
    DigitsStop(column, r4);
    LiteralPrefix(", ", rest);
  }

  lemma HeadRegroup(a: string, b: string, c: string, d: string, e: string, f: string)
    ensures a + b + c + d + e + f == a + (b + (c + (d + (e + f))))
  {
  }

  lemma MatchTailOf(severity: string, message: string, code: string)
    requires severity == "Error" || severity == "Warning"
    requires |message| >= 1 && SingleLine(message)
    requires |code| >= 1 && SingleLine(code) && !HasOpenParen(code)
    ensures MatchTail(severity + " - " + message + " (" + code + ")") == Some((severity, message, code))
  {
    var rest := message + " (" + code + ")";
    assert severity + " - " + message + " (" + code + ")" == severity + " - " + rest;
    SeverityWordOf(severity, rest);
    SplitNoLaterParen(message, code);
  }

  /**
   A text composed of well-formed groups whose code has no `(` matches with
   exactly those groups: the split between message and code is unambiguous.
   */
  lemma MatchCompose(g: Groups)
    requires WellFormed(g) && !HasOpenParen(g.code)
    ensures Match(Compose(g)) == Some(g)
  {
    var tail := g.severity + " - " + g.message + " (" + g.code + ")";
    var text := Compose(g);
    ComposeSplit(g);
    MatchHeadOf(g.line, g.column, tail);
    assert MatchHead(text) == Some((g.line, g.column, tail));
    MatchTailOf(g.severity, g.message, g.code);
    assert MatchTail(tail) == Some((g.severity, g.message, g.code));
  }

  /** Every composed text holds the `(` that opens the code group. */
  lemma ComposeHasParen(g: Groups)
    ensures HasOpenParen(Compose(g))
  {
    var pre := "line " + g.line + ", col " + g.column + ", " + g.severity + " - " + g.message;
    assert Compose(g) == pre + " (" + g.code + ")";
    assert Compose(g)[|pre| + 1] == '(';
  }

  /** So a text the pattern matches holds a `(`. */
  lemma MatchHasParen(text: string)
    ensures Match(text).Some? ==> HasOpenParen(text)
  {
    if Match(text).Some? {
      ComposeHasParen(Match(text).value);
    }
  }

  /** The data `parseESLintText` returns. */
  datatype ESLintTextData = ESLintTextData(line: nat, column: nat, severity: Severity, message: string, code: string)

  /** `parseESLintText`: the numbers parsed in base 10, `Error` read as error and `Warning` as warning. */
  function ParseESLintText(text: string): (r: Option<ESLintTextData>)
    ensures r.Some? <==> Match(text).Some?
    ensures r.Some? ==>
      var g := Match(text).value;
      && r.value.line == ParseNat(g.line) && r.value.column == ParseNat(g.column)
      && (r.value.severity == Error <==> g.severity == "Error")
      && r.value.severity != Info
      && r.value.message == g.message && r.value.code == g.code
      && |r.value.message| >= 1 && |r.value.code| >= 1
  {
    match Match(text)
    case None => None
    case Some(g) =>
      Some(ESLintTextData(
        ParseNat(g.line), ParseNat(g.column),
        if g.severity == "Error" then Error else Warning,
        g.message, g.code))
  }

  /** The failure text the JUnit sink writes for these fields, before XML escaping. */
  function Render(d: ESLintTextData): string {
    "line " + NatToString(d.line) + ", col " + NatToString(d.column) + ", "
      + (if d.severity == Error then "Error" else "Warning") + " - " + d.message + " (" + d.code + ")"
  }

  /**
   Round trip: rendering and parsing give back line, column, severity,
   message and code, provided the severity is error or warning, the message
   and code are non-empty single lines, and the code has no `(`.
   */
  lemma ParseRender(d: ESLintTextData)
    requires d.severity != Info
    requires |d.message| >= 1 && SingleLine(d.message)
    requires |d.code| >= 1 && SingleLine(d.code) && !HasOpenParen(d.code)
    ensures ParseESLintText(Render(d)) == Some(d)
  {
    var g := Groups(NatToString(d.line), NatToString(d.column),
                    if d.severity == Error then "Error" else "Warning", d.message, d.code);
    assert Compose(g) == Render(d);
    MatchCompose(g);
    ParseNatToString(d.line);
    ParseNatToString(d.column);
  }

  /** Parsing a composed text gives the groups' values. */
  lemma ParseCompose(g: Groups)
    requires WellFormed(g) && !HasOpenParen(g.code)
    ensures ParseESLintText(Compose(g)) == Some(ESLintTextData(
      ParseNat(g.line), ParseNat(g.column),
      if g.severity == "Error" then Error else Warning, g.message, g.code))
  {
    MatchCompose(g);
  }

  /** The pattern does not insist on positive numbers: a zero line and column are read as 0. */
  lemma ZeroPositionAccepted(text: string)
    requires text == "line 0, col 0, Error - m (c)"
    ensures ParseESLintText(text) == Some(ESLintTextData(0, 0, Error, "m", "c"))
  {
    var g := Groups("0", "0", "Error", "m", "c");
    assert "line " + "0" == "line 0";
    assert "line 0" + ", col " == "line 0, col ";
    assert "line 0, col " + "0" == "line 0, col 0";
    assert "line 0, col 0" + ", " == "line 0, col 0, ";
    assert "line 0, col 0, " + "Error" == "line 0, col 0, Error";
    assert "line 0, col 0, Error" + " - " == "line 0, col 0, Error - ";
    assert "line 0, col 0, Error - " + "m" == "line 0, col 0, Error - m";
    assert "line 0, col 0, Error - m" + " (" == "line 0, col 0, Error - m (";
    assert "line 0, col 0, Error - m (" + "c" == "line 0, col 0, Error - m (c";
    assert "line 0, col 0, Error - m (c" + ")" == text;
    assert Compose(g) == text;
    assert SingleLine(g.message) && SingleLine(g.code) && !HasOpenParen(g.code);
    MatchCompose(g);
    assert ParseNat("0") == 0;
  }
}
