/**
 * Text helpers for XML fragments: the predefined-entity escaping that
 * commons-lang's StringEscapeUtils.escapeXml applies to ASCII text, its
 * inverse, reading back a double-quoted attribute value, and splitting
 * text into lines.
 */
module XmlText {
  import opened Sequences

  /** The characters that can occur inside the five entity references. */
  const EntityChars: string := "&;abglmopqstu"

  /** Characters that must not appear raw inside a double-quoted attribute or text node. */
  predicate IsMarkup(c: char) {
    c == '<' || c == '>' || c == '"' || c == '\''
  }

  function EscapeChar(c: char): string {
    match c
    case '<' => "&lt;"
    case '>' => "&gt;"
    case '&' => "&amp;"
    case '"' => "&quot;"
    case '\'' => "&apos;"
    case _ => [c]
  }

  /**
   * StringEscapeUtils.escapeXml restricted to the predefined entities.
   * The result never holds a raw markup character, and every character
   * in it comes from the input or from an entity reference.
   */
  function EscapeXml(s: string): (r: string)
    ensures forall c :: c in r ==> !IsMarkup(c)
    ensures forall c :: c in r ==> c in s || c in EntityChars
    ensures |r| >= |s|
  {
    if s == [] then [] else EscapeChar(s[0]) + EscapeXml(s[1..])
  }

  /** Replaces each of the five entity references by the character it stands for. */
  function UnescapeXml(s: string): string
    decreases |s|
  {
    if s == [] then []
    else if "&lt;" <= s then "<" + UnescapeXml(s[4..])
    else if "&gt;" <= s then ">" + UnescapeXml(s[4..])
    else if "&amp;" <= s then "&" + UnescapeXml(s[5..])
    else if "&quot;" <= s then "\"" + UnescapeXml(s[6..])
    else if "&apos;" <= s then "'" + UnescapeXml(s[6..])
    else [s[0]] + UnescapeXml(s[1..])
  }

  lemma UnescapeEscapeChar(c: char, rest: string)
    ensures UnescapeXml(EscapeChar(c) + rest) == [c] + UnescapeXml(rest)
  {
    var e := EscapeChar(c) + rest;
    if c == '<' {
      assert e[4..] == rest;
    } else if c == '>' {
      assert e[1] == 'g';
      assert e[4..] == rest;
    } else if c == '&' {
      assert e[1] == 'a' && e[..5] == "&amp;";
      assert e[5..] == rest;
    } else if c == '"' {
      assert e[1] == 'q' && e[..6] == "&quot;";
      assert e[6..] == rest;
    } else if c == '\'' {
      assert e[1] == 'a' && e[2] == 'p' && e[..6] == "&apos;";
      assert e[6..] == rest;
    } else {
      assert e[0] == c && e[1..] == rest;
    }
  }

  /** Escaping loses nothing: the original text is recovered from the escaped one. */
  lemma {:induction false} UnescapeEscape(s: string)
    ensures UnescapeXml(EscapeXml(s)) == s
  {
    if s != [] {
      UnescapeEscapeChar(s[0], EscapeXml(s[1..]));
      UnescapeEscape(s[1..]);
    }
  }

  /** The text of a double-quoted attribute value: everything up to the closing quote. */
  function QuotedValue(s: string): (r: string)
    ensures r <= s && '"' !in r
  {
    if s == [] || s[0] == '"' then [] else [s[0]] + QuotedValue(s[1..])
  }

  /** A value without a double quote is read back whole. */
  lemma {:induction false} QuotedValueDelimited(v: string, rest: string)
    requires '"' !in v
    ensures QuotedValue(v + "\"" + rest) == v
  {
    if v != [] {
      assert (v + "\"" + rest)[1..] == v[1..] + "\"" + rest;
      QuotedValueDelimited(v[1..], rest);
    }
  }

  /** A value holding a double quote is cut short at its first quote, whatever follows. */
  lemma {:induction false} QuotedValueCut(v: string, rest: string)
    requires '"' in v
    ensures QuotedValue(v + rest) == QuotedValue(v)
    ensures |QuotedValue(v + rest)| < |v|
  {
    if v[0] != '"' {
      assert (v + rest)[1..] == v[1..] + rest;
      assert '"' in v[1..] by {
        var i :| 0 <= i < |v| && v[i] == '"';
        assert v[1..][i - 1] == '"';
      }
      QuotedValueCut(v[1..], rest);
    }
  }

  /**
   * The value of the attribute that the line opens with: when the line
   * starts with opening, everything after it up to the closing quote.
   */
  function ValueAfter(line: string, opening: string): string {
    if opening <= line then QuotedValue(line[|opening|..]) else ""
  }

  /**
   * Any text embedded escaped as an attribute value is recovered exactly:
   * read the value, then unescape it.
   */
  lemma EscapedValueRecovered(opening: string, text: string, after: string)
    ensures UnescapeXml(ValueAfter(opening + EscapeXml(text) + "\"" + after, opening)) == text
  {
    assert (opening + EscapeXml(text) + "\"" + after)[..|opening|] == opening;
    assert (opening + EscapeXml(text) + "\"" + after)[|opening|..] == EscapeXml(text) + "\"" + after;
    QuotedValueDelimited(EscapeXml(text), after);
    UnescapeEscape(text);
  }

  /** Text embedded raw as an attribute value is recovered exactly when it holds no double quote. */
  lemma RawValueRecovered(opening: string, text: string, after: string)
    ensures ValueAfter(opening + text + "\"" + after, opening) == text <==> '"' !in text
  {
    assert (opening + text + "\"" + after)[..|opening|] == opening;
    assert (opening + text + "\"" + after)[|opening|..] == text + ("\"" + after);
    if '"' in text {
      QuotedValueCut(text, "\"" + after);
    } else {
      assert text + ("\"" + after) == text + "\"" + after;
      QuotedValueDelimited(text, after);
    }
  }

  /** Text with no newline character: one line of the output. */
  predicate OneLine(s: string) {
    '\n' !in s
  }

  predicate AllOneLine(ls: seq<string>) {
    forall k :: 0 <= k < |ls| ==> OneLine(ls[k])
  }

  lemma AllOneLineAppend(a: seq<string>, b: seq<string>)
    requires AllOneLine(a) && AllOneLine(b)
    ensures AllOneLine(a + b)
  {
    forall k | 0 <= k < |a + b| ensures OneLine((a + b)[k]) {
      if k >= |a| {
        assert (a + b)[k] == b[k - |a|];
      }
    }
  }

  /** Escaping never introduces a newline. */
  lemma EscapeXmlOneLine(s: string)
    requires OneLine(s)
    ensures OneLine(EscapeXml(s))
  {
  }

  function IndexOf(s: string, c: char): (i: nat)
    requires c in s
    ensures i < |s| && s[i] == c && c !in s[..i]
  {
    if s[0] == c then 0 else 1 + IndexOf(s[1..], c)
  }

  /** The lines of a text: the pieces between newline characters, the last one unterminated. */
  function Lines(s: string): (r: seq<string>)
    ensures |r| >= 1
    decreases |s|
  {
    if '\n' !in s then [s]
    else
      var i := IndexOf(s, '\n');
      [s[..i]] + Lines(s[i + 1..])
  }

  lemma LinesCons(line: string, rest: string)
    requires '\n' !in line
    ensures Lines(line + "\n" + rest) == [line] + Lines(rest)
  {
    var s := line + "\n" + rest;
    assert s[|line|] == '\n';
    var i := IndexOf(s, '\n');
    assert s[..i] == line;
    assert s[i + 1..] == rest;
  }

  /** Text made of the given lines, each followed by a newline. */
  function Join(ls: seq<string>): string {
    if ls == [] then "" else ls[0] + "\n" + Join(ls[1..])
  }

  lemma {:induction false} JoinAppend(a: seq<string>, b: seq<string>)
    ensures Join(a + b) == Join(a) + Join(b)
  {
    if a != [] {
      assert (a + b)[0] == a[0];
      assert (a + b)[1..] == a[1..] + b;
      calc {
        Join(a + b);
        a[0] + "\n" + Join(a[1..] + b);
        { JoinAppend(a[1..], b); }
        a[0] + "\n" + (Join(a[1..]) + Join(b));
        { AppendAssoc(a[0] + "\n", Join(a[1..]), Join(b)); }
        Join(a) + Join(b);
      }
    } else {
      assert a + b == b;
    }
  }

  /** Splitting joined lines gives the lines back, as long as none holds a newline. */
  lemma {:induction false} LinesJoin(ls: seq<string>, rest: string)
    requires AllOneLine(ls)
    ensures Lines(Join(ls) + rest) == ls + Lines(rest)
  {
    if ls != [] {
      var tail := ls[1..];
      assert AllOneLine(tail) by {
        forall k | 0 <= k < |tail| ensures OneLine(tail[k]) {
          assert tail[k] == ls[k + 1];
        }
      }
      calc {
        Lines(Join(ls) + rest);
        { AppendAssoc(ls[0] + "\n", Join(tail), rest); }
        Lines(ls[0] + "\n" + (Join(tail) + rest));
        { LinesCons(ls[0], Join(tail) + rest); }
        [ls[0]] + Lines(Join(tail) + rest);
        { LinesJoin(tail, rest); }
        [ls[0]] + (tail + Lines(rest));
        { assert OneLine(ls[0]); assert ls == [ls[0]] + tail; }
        ls + Lines(rest);
      }
    } else {
      assert Join(ls) + rest == rest;
    }
  }

  /** Joined one-line lines read back as those lines, then the empty text after the last newline. */
  lemma JoinedLines(ls: seq<string>)
    requires AllOneLine(ls)
    ensures Lines(Join(ls)) == ls + [""]
  {
    LinesJoin(ls, "");
    AppendEmpty(Join(ls));
  }

  lemma AllOneLinePair(a: string, b: string)
    requires OneLine(a) && OneLine(b)
    ensures AllOneLine([a, b])
  {
  }

  /** Lines joined in front of a text that reads back as more lines give all of them, in order. */
  lemma JoinedLinesBefore(ls: seq<string>, rest: string, restLines: seq<string>)
    requires AllOneLine(ls) && Lines(rest) == restLines + [""]
    ensures Lines(Join(ls) + rest) == ls + (restLines + [""])
  {
    LinesJoin(ls, rest);
  }

  /**
   * Three double-quoted attributes in a row: each value reads back from
   * the text before it exactly when it holds no double quote.
   */
  lemma ThreeValuesRecovered(o1: string, v1: string, o2: string, v2: string, o3: string, v3: string, end: string)
    ensures var line := o1 + v1 + "\"" + o2 + v2 + "\"" + o3 + v3 + "\"" + end;
            && (ValueAfter(line, o1) == v1 <==> '"' !in v1)
            && (ValueAfter(line, o1 + v1 + "\"" + o2) == v2 <==> '"' !in v2)
            && (ValueAfter(line, o1 + v1 + "\"" + o2 + v2 + "\"" + o3) == v3 <==> '"' !in v3)
  {
    var p2 := o1 + v1 + "\"" + o2;
    var p3 := p2 + v2 + "\"" + o3;
    var line := p3 + v3 + "\"" + end;
    var rest1 := o2 + v2 + "\"" + o3 + v3 + "\"" + end;
    var rest2 := o3 + v3 + "\"" + end;
    assert line == o1 + v1 + "\"" + rest1;
    assert line == p2 + v2 + "\"" + rest2;
    RawValueRecovered(o1, v1, rest1);
    RawValueRecovered(p2, v2, rest2);
    RawValueRecovered(p3, v3, end);
  }
}
