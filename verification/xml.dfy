/**
 XML escaping (`escapeXML`) and the escaping template tag (`xmlText`) used by
 the JUnit sink. The inverse `Unescape` stands for the entity decoding an XML
 parser performs when the report is read back.
 */
module Xml {
  import opened Text

  /** The five characters `escapeXML` replaces. */
  predicate Special(c: char) {
    c == '&' || c == '<' || c == '>' || c == '\'' || c == '"'
  }

  predicate NoSpecial(s: string) {
    forall i :: 0 <= i < |s| ==> !Special(s[i])
  }

  /** Characters that may not appear raw in an attribute value or text. */
  predicate Markup(c: char) {
    c == '<' || c == '>' || c == '\'' || c == '"'
  }

  /** The replacement `escapeXML` uses for one character. */
  function EscapeChar(c: char): (r: string)
    ensures Special(c) ==> |r| > 1 && r[0] == '&' && r[|r| - 1] == ';'
    ensures !Special(c) ==> r == [c]
    ensures forall i :: 0 <= i < |r| ==> !Markup(r[i])
  {
    if c == '&' then "&amp;"
    else if c == '<' then "&lt;"
    else if c == '>' then "&gt;"
    else if c == '\'' then "&apos;"
    else if c == '"' then "&quot;"
    else [c]
  }

  /**
   `escapeXML`: every special character is replaced by its entity and every
   other character is kept, so the result contains no markup character, is
   never shorter, and a string without special characters is unchanged.
   */
  function EscapeXml(s: string): (r: string)
    ensures forall i :: 0 <= i < |r| ==> !Markup(r[i])
    ensures |r| >= |s|
    ensures NoSpecial(s) ==> r == s
  {
    if |s| == 0 then ""
    else
      var head := EscapeChar(s[0]);
      var tail := EscapeXml(s[1..]);
      assert NoSpecial(s) ==> NoSpecial(s[1..]) by {
        if NoSpecial(s) {
          forall i | 0 <= i < |s[1..]|
            ensures !Special(s[1..][i])
          {
            assert s[1..][i] == s[i + 1];
          }
        }
      }
      assert NoSpecial(s) ==> head + tail == s by {
        if NoSpecial(s) {
          assert !Special(s[0]);
          assert s == [s[0]] + s[1..];
        }
      }
      var r := head + tail;
      assert forall i :: 0 <= i < |r| ==> !Markup(r[i]) by {
        forall i | 0 <= i < |r|
          ensures !Markup(r[i])
        {
          if i < |head| {
            assert r[i] == head[i];
          } else {
            assert r[i] == tail[i - |head|];
          }
        }
      }
      r
  }

  /** Escaping works character by character, so it distributes over concatenation. */
  lemma {:induction false} EscapeConcat(a: string, b: string)
    ensures EscapeXml(a + b) == EscapeXml(a) + EscapeXml(b)
    decreases |a|
  {
    if |a| == 0 {
      assert a + b == b;
    } else {
      assert (a + b)[0] == a[0];
      assert (a + b)[1..] == a[1..] + b;
      EscapeConcat(a[1..], b);
    }
  }

  /** Entity decoding of the five predefined entities, left to right. */
  function Unescape(s: string): string
  {
    if |s| == 0 then ""
    else if |s| >= 5 && s[..5] == "&amp;" then "&" + Unescape(s[5..])
    else if |s| >= 4 && s[..4] == "&lt;" then "<" + Unescape(s[4..])
    else if |s| >= 4 && s[..4] == "&gt;" then ">" + Unescape(s[4..])
    else if |s| >= 6 && s[..6] == "&apos;" then "'" + Unescape(s[6..])
    else if |s| >= 6 && s[..6] == "&quot;" then "\"" + Unescape(s[6..])
    else [s[0]] + Unescape(s[1..])
  }

  /** Decoding one escaped character consumes exactly its replacement. */
  lemma UnescapeEscapeChar(c: char, rest: string)
    ensures Unescape(EscapeChar(c) + rest) == [c] + Unescape(rest)
  {
    if c == '&' {
      UnescapeAmp(rest);
    } else if c == '<' {
      UnescapeLt(rest);
    } else if c == '>' {
      UnescapeGt(rest);
    } else if c == '\'' {
      UnescapeApos(rest);
    } else if c == '"' {
      UnescapeQuot(rest);
    } else {
      UnescapePlain(c, rest);
    }
  }

  lemma UnescapeAmp(rest: string)
    ensures Unescape("&amp;" + rest) == "&" + Unescape(rest)
  {
    var e := "&amp;" + rest;
    assert e[..5] == "&amp;" && e[5..] == rest;
  }

  lemma UnescapeLt(rest: string)
    ensures Unescape("&lt;" + rest) == "<" + Unescape(rest)
  {
    var e := "&lt;" + rest;
    assert e[1] == 'l';
    assert |e| >= 5 ==> e[..5][1] == 'l';
    assert e[..4] == "&lt;" && e[4..] == rest;
  }

  lemma UnescapeGt(rest: string)
    ensures Unescape("&gt;" + rest) == ">" + Unescape(rest)
  {
    var e := "&gt;" + rest;
    assert e[1] == 'g';
    assert |e| >= 5 ==> e[..5][1] == 'g';
    assert e[..4][1] == 'g';
    assert e[..4] == "&gt;" && e[4..] == rest;
  }

  lemma UnescapeApos(rest: string)
    ensures Unescape("&apos;" + rest) == "'" + Unescape(rest)
  {
    var e := "&apos;" + rest;
    assert e[1] == 'a' && e[2] == 'p';
    assert e[..5][2] == 'p' && e[..4][1] == 'a';
    assert e[..6] == "&apos;" && e[6..] == rest;
  }

  lemma UnescapeQuot(rest: string)
    ensures Unescape("&quot;" + rest) == "\"" + Unescape(rest)
  {
    var e := "&quot;" + rest;
    assert e[1] == 'q';
    assert e[..5][1] == 'q' && e[..4][1] == 'q' && e[..6][1] == 'q';
    assert e[..6] == "&quot;" && e[6..] == rest;
  }

  lemma UnescapePlain(c: char, rest: string)
    requires !Special(c)
    ensures Unescape([c] + rest) == [c] + Unescape(rest)
  {
    var e := [c] + rest;
    assert e[0] == c && e[1..] == rest;
    assert |e| >= 4 ==> e[..4][0] == c;
    assert |e| >= 5 ==> e[..5][0] == c;
    assert |e| >= 6 ==> e[..6][0] == c;
  }

  /** Decoding undoes `escapeXML`: the escaped text denotes exactly the original string. */
  lemma {:induction false} UnescapeEscape(s: string)
    ensures Unescape(EscapeXml(s)) == s
  {
    if |s| > 0 {
      UnescapeEscape(s[1..]);
      UnescapeEscapeChar(s[0], EscapeXml(s[1..]));
      assert s == [s[0]] + s[1..];
    }
  }

  /** An interpolated value: a string (escaped) or a natural number (inserted as written). */
  datatype XmlValue = Str(text: string) | Num(number: nat)

  function Render(v: XmlValue): (r: string)
    ensures v.Num? ==> NoSpecial(r)
  {
    match v
    case Str(t) => EscapeXml(t)
    case Num(n) =>
      var d := NatToString(n);
      assert NoSpecial(d) by {
        forall i | 0 <= i < |d|
          ensures !Special(d[i])
        {
          assert IsDigit(d[i]);
        }
      }
      d
  }

  /** The text a plain, untagged template literal gives for the same pieces and values. */
  function Interpolate(strings: seq<string>, values: seq<XmlValue>): string
    requires |strings| == |values| + 1
  {
    if |values| == 0 then strings[0]
    else strings[0] + Raw(values[0]) + Interpolate(strings[1..], values[1..])
  }

  function Raw(v: XmlValue): string {
    match v
    case Str(t) => t
    case Num(n) => NatToString(n)
  }

  /**
   `xmlText`: the literal pieces of a template, `strings[0]`, …, `strings[k]`,
   interleaved with the k rendered values. Literal pieces are copied as they
   are, so the first piece starts the result and the last one ends it.
   */
  function XmlText(strings: seq<string>, values: seq<XmlValue>): string
    requires |strings| == |values| + 1
  {
    if |values| == 0 then strings[0]
    else strings[0] + Render(values[0]) + XmlText(strings[1..], values[1..])
  }

  /** The values as `xmlText` inserts them: strings escaped, numbers as they are. */
  function Escaped(values: seq<XmlValue>): (r: seq<XmlValue>)
    ensures |r| == |values|
    ensures forall i :: 0 <= i < |r| ==> Raw(r[i]) == Render(values[i])
  {
    if |values| == 0 then []
    else
      var t := Escaped(values[1..]);
      assert forall i :: 1 <= i < |values| ==> values[1..][i - 1] == values[i];
      [EscapeValue(values[0])] + t
  }

  function EscapeValue(v: XmlValue): (r: XmlValue)
    ensures Raw(r) == Render(v)
  {
    if v.Str? then Str(EscapeXml(v.text)) else v
  }

  /**
   `xmlText` is the plain template literal with every string value escaped
   and every number inserted as written: literal pieces are never escaped.
   */
  lemma {:induction false} XmlTextInterpolatesEscaped(strings: seq<string>, values: seq<XmlValue>)
    requires |strings| == |values| + 1
    ensures XmlText(strings, values) == Interpolate(strings, Escaped(values))
  {
    if |values| > 0 {
      XmlTextInterpolatesEscaped(strings[1..], values[1..]);
      var e := Escaped(values);
      assert e[1..] == Escaped(values[1..]);
      assert Raw(e[0]) == Render(values[0]);
      assert Interpolate(strings, e) == strings[0] + Raw(e[0]) + Interpolate(strings[1..], e[1..]);
    }
  }

  /**
   When the literal pieces hold no special character, an `xmlText` template
   is the escaped form of the plain template literal: what an XML reader
   decodes from it is exactly the plain text.
   */
  lemma {:induction false} XmlTextIsEscapedInterpolation(strings: seq<string>, values: seq<XmlValue>)
    requires |strings| == |values| + 1
    requires forall i :: 0 <= i < |strings| ==> NoSpecial(strings[i])
    ensures XmlText(strings, values) == EscapeXml(Interpolate(strings, values))
    ensures Unescape(XmlText(strings, values)) == Interpolate(strings, values)
  {
    if |values| > 0 {
      XmlTextIsEscapedInterpolation(strings[1..], values[1..]);
      var rest := Interpolate(strings[1..], values[1..]);
      EscapeConcat(strings[0] + Raw(values[0]), rest);
      EscapeConcat(strings[0], Raw(values[0]));
      assert EscapeXml(strings[0]) == strings[0];
      match values[0]
      case Str(t) =>
      case Num(n) =>
        assert NoSpecial(Render(values[0]));
    } else {
      assert NoSpecial(strings[0]);
    }
    UnescapeEscape(Interpolate(strings, values));
  }

  /** Escaping a string that starts with `c` starts with the replacement of `c`. */
  lemma EscapeCons(c: char, s: string)
    ensures EscapeXml([c] + s) == EscapeChar(c) + EscapeXml(s)
  {
    var t := [c] + s;
    assert t[0] == c && t[1..] == s;
  }

  lemma EscapeQuotTail()
    ensures EscapeXml("\"") == "&quot;"
  {
    EscapeCons('"', "");
    assert ['"'] + "" == "\"";
  }

  lemma EscapeAposTail()
    ensures EscapeXml("'\"") == "&apos;" + "&quot;"
  {
    EscapeQuotTail();
    EscapeCons('\'', "\"");
    assert ['\''] + "\"" == "'\"";
  }

  lemma EscapeGtTail()
    ensures EscapeXml(">'\"") == "&gt;" + "&apos;" + "&quot;"
  {
    EscapeAposTail();
    EscapeCons('>', "'\"");
    assert ['>'] + "'\"" == ">'\"";
  }

  lemma EscapeLtTail()
    ensures EscapeXml("<>'\"") == "&lt;" + "&gt;" + "&apos;" + "&quot;"
  {
    EscapeGtTail();
    EscapeCons('<', ">'\"");
    assert ['<'] + ">'\"" == "<>'\"";
  }

  /** All five special characters in a row become their five entities in the same order. */
  lemma EscapeSpecials()
    ensures EscapeXml("&<>'\"") == "&amp;" + "&lt;" + "&gt;" + "&apos;" + "&quot;"
  {
    EscapeLtTail();
    EscapeCons('&', "<>'\"");
    assert ['&'] + "<>'\"" == "&<>'\"";
  }

  lemma EscapePlainWords()
    ensures EscapeXml("bar") == "bar" && EscapeXml("foo") == "foo"
  {
    assert NoSpecial("bar") && NoSpecial("foo");
  }

  lemma EscapeThree(a: string, b: string, c: string)
    ensures EscapeXml(a + b + c) == EscapeXml(a) + EscapeXml(b) + EscapeXml(c)
  {
    EscapeConcat(a + b, c);
    EscapeConcat(a, b);
  }

  /** The case of the repository's unit test for `escapeXML`. */
  lemma EscapeExample()
    ensures EscapeXml("bar&<>'\"foo") == "bar" + ("&amp;" + "&lt;" + "&gt;" + "&apos;" + "&quot;") + "foo"
  {
    var a, b, c := "bar", "&<>'\"", "foo";
    assert a + b + c == "bar&<>'\"foo";
    EscapeThree(a, b, c);
    EscapeSpecials();
    EscapePlainWords();
  }

  /** Two-value templates unfold into piece, value, piece, value, piece. */
  lemma XmlTextTwo(a: string, b: string, c: string, v: XmlValue, w: XmlValue)
    ensures XmlText([a, b, c], [v, w]) == a + Render(v) + b + Render(w) + c
  {
    assert [a, b, c][1..] == [b, c] && [v, w][1..] == [w];
    assert [b, c][1..] == [c] && [w][1..] == [];
    var tail := XmlText([b, c], [w]);
    assert tail == b + Render(w) + XmlText([c], []);
    assert XmlText([a, b, c], [v, w]) == a + Render(v) + tail;
    Regroup3(a + Render(v), b, Render(w), c);
  }

  lemma Regroup3(x: string, t1: string, t2: string, t3: string)
    ensures x + (t1 + t2 + t3) == x + t1 + t2 + t3
  {
  }

  lemma XmlTextThree(a: string, b: string, c: string, d: string, u: XmlValue, v: XmlValue, w: XmlValue)
    ensures XmlText([a, b, c, d], [u, v, w]) == a + Render(u) + b + Render(v) + c + Render(w) + d
  {
    assert [a, b, c, d][1..] == [b, c, d] && [u, v, w][1..] == [v, w];
    var t := XmlText([b, c, d], [v, w]);
    assert XmlText([a, b, c, d], [u, v, w]) == a + Render(u) + t;
    XmlTextTwo(b, c, d, v, w);
    Regroup(a + Render(u), b, Render(v), c, Render(w), d);
  }

  lemma Regroup(x: string, t1: string, t2: string, t3: string, t4: string, t5: string)
    ensures x + (t1 + t2 + t3 + t4 + t5) == x + t1 + t2 + t3 + t4 + t5
  {
  }

  lemma InterpolateOne(a: string, b: string, v: XmlValue)
    ensures Interpolate([a, b], [v]) == a + Raw(v) + b
  {
    assert [a, b][1..] == [b] && [v][1..] == [];
  }

  lemma InterpolateThree(a: string, b: string, c: string, d: string, u: XmlValue, v: XmlValue, w: XmlValue)
    ensures Interpolate([a, b, c, d], [u, v, w]) == a + Raw(u) + b + Raw(v) + c + Raw(w) + d
  {
    assert [a, b, c, d][1..] == [b, c, d] && [u, v, w][1..] == [v, w];
    assert [b, c, d][1..] == [c, d] && [v, w][1..] == [w];
    InterpolateOne(c, d, w);
  }

  /** A one-value template with plain pieces is the escaped plain text. */
  lemma TemplateOne(a: string, b: string, v: XmlValue)
    requires NoSpecial(a) && NoSpecial(b)
    ensures XmlText([a, b], [v]) == EscapeXml(a + Raw(v) + b)
  {
    XmlTextIsEscapedInterpolation([a, b], [v]);
    InterpolateOne(a, b, v);
  }

  /** A three-value template with plain pieces is the escaped plain text. */
  lemma TemplateThree(a: string, b: string, c: string, d: string, u: XmlValue, v: XmlValue, w: XmlValue)
    requires NoSpecial(a) && NoSpecial(b) && NoSpecial(c) && NoSpecial(d)
    ensures XmlText([a, b, c, d], [u, v, w]) == EscapeXml(a + Raw(u) + b + Raw(v) + c + Raw(w) + d)
  {
    var ss := [a, b, c, d];
    assert forall i :: 0 <= i < |ss| ==> NoSpecial(ss[i]);
    XmlTextIsEscapedInterpolation(ss, [u, v, w]);
    InterpolateThree(a, b, c, d, u, v, w);
  }

  lemma EscapeAmpLt()
    ensures EscapeXml("&") == "&amp;" && EscapeXml("<") == "&lt;"
  {
    EscapeCons('&', "");
    EscapeCons('<', "");
    assert ['&'] + "" == "&" && ['<'] + "" == "<";
  }

  lemma EscapeGt()
    ensures EscapeXml(">") == "&gt;"
  {
    EscapeCons('>', "");
    assert ['>'] + "" == ">";
  }

  /** The two-value cases of the repository's unit tests for `xmlText`, with and without outer pieces. */
  lemma XmlTextExamplesOuter()
    ensures XmlText(["a", "b", "c"], [Str("&"), Str("<")]) == "a" + "&amp;" + "b" + "&lt;" + "c"
    ensures XmlText(["a", "b", ""], [Str("&"), Str("<")]) == "a" + "&amp;" + "b" + "&lt;" + ""
  {
    EscapeAmpLt();
    XmlTextTwo("a", "b", "c", Str("&"), Str("<"));
    XmlTextTwo("a", "b", "", Str("&"), Str("<"));
  }

  lemma XmlTextExamplesLeading()
    ensures XmlText(["", "b", ""], [Str("&"), Str("<")]) == "" + "&amp;" + "b" + "&lt;" + ""
    ensures XmlText(["", "b", "c"], [Str("&"), Str("<")]) == "" + "&amp;" + "b" + "&lt;" + "c"
  {
    EscapeAmpLt();
    XmlTextTwo("", "b", "", Str("&"), Str("<"));
    XmlTextTwo("", "b", "c", Str("&"), Str("<"));
  }

  /** The three-value cases of the repository's unit tests for `xmlText`. */
  lemma XmlTextExamplesThree()
    ensures XmlText(["", "b", "c", ""], [Str("&"), Str("<"), Str(">")]) == "" + "&amp;" + "b" + "&lt;" + "c" + "&gt;" + ""
    ensures XmlText(["", "", "", ""], [Str("&"), Str("<"), Str(">")]) == "" + "&amp;" + "" + "&lt;" + "" + "&gt;" + ""
  {
    EscapeAmpLt();
    EscapeGt();
    XmlTextThree("", "b", "c", "", Str("&"), Str("<"), Str(">"));
    XmlTextThree("", "", "", "", Str("&"), Str("<"), Str(">"));
  }

  lemma XmlTextNumberExample()
    ensures XmlText(["a", "b", "c"], [Num(1), Num(2)]) == "a1b2c"
  {
    XmlTextTwo("a", "b", "c", Num(1), Num(2));
    assert NatToString(1) == "1" && NatToString(2) == "2";
  }
}
