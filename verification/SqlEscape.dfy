/** String literals and quoted names as the dumper writes them and the server reads them. */
module SqlEscape {
  import opened Sequences
  import opened SqlLexer
  import opened SqlStatements

  const SUB := 26 as char

  function ReplaceAll(s: string, c: char, rep: string): string {
    if s == "" then "" else (if s[0] == c then rep else [s[0]]) + ReplaceAll(s[1..], c, rep)
  }

  lemma {:induction false} ReplaceConcat(a: string, b: string, c: char, rep: string)
    ensures ReplaceAll(a + b, c, rep) == ReplaceAll(a, c, rep) + ReplaceAll(b, c, rep)
  {
    if a == "" {
      assert a + b == b;
    } else {
      ConsConcat(a, b);
      ReplaceConcat(a[1..], b, c, rep);
      assert ([a[0]] + (a[1..] + b))[1..] == a[1..] + b;
    }
  }

  lemma {:induction false} ReplaceOne(x: char, c: char, rep: string)
    ensures ReplaceAll([x], c, rep) == if x == c then rep else [x]
  {
    assert [x][1..] == "";
  }

  // ---------------------------------------------------------------- the dumper's passes

  /** The passes of escapeString, in the order the program runs them. */
  function EscapeString(s: string): string {
    var s1 := ReplaceAll(s, '\\', "\\\\");
    var s2 := ReplaceAll(s1, '\0', "\\0");
    var s3 := ReplaceAll(s2, '\'', "\\'");
    var s4 := ReplaceAll(s3, '"', "\\\"");
    var s5 := ReplaceAll(s4, '\n', "\\n");
    ReplaceAll(s5, '\r', "\\r")
  }

  function EscapeBlob(s: string): string {
    ReplaceAll(EscapeString(s), SUB, "\\Z")
  }

  /** What one character becomes; only a blob escapes the SUB character. */
  function EscapeChar(c: char, blob: bool): (r: string)
    ensures r != ""
  {
    if c == '\\' then "\\\\"
    else if c == '\0' then "\\0"
    else if c == '\'' then "\\'"
    else if c == '"' then "\\\""
    else if c == '\n' then "\\n"
    else if c == '\r' then "\\r"
    else if blob && c == SUB then "\\Z"
    else [c]
  }

  function Escaped(s: string, blob: bool): string {
    if s == "" then "" else EscapeChar(s[0], blob) + Escaped(s[1..], blob)
  }

  lemma {:induction false} EscapeStringConcat(a: string, b: string)
    ensures EscapeString(a + b) == EscapeString(a) + EscapeString(b)
  {
    ReplaceConcat(a, b, '\\', "\\\\");
    var a1, b1 := ReplaceAll(a, '\\', "\\\\"), ReplaceAll(b, '\\', "\\\\");
    ReplaceConcat(a1, b1, '\0', "\\0");
    var a2, b2 := ReplaceAll(a1, '\0', "\\0"), ReplaceAll(b1, '\0', "\\0");
    ReplaceConcat(a2, b2, '\'', "\\'");
    var a3, b3 := ReplaceAll(a2, '\'', "\\'"), ReplaceAll(b2, '\'', "\\'");
    ReplaceConcat(a3, b3, '"', "\\\"");
    var a4, b4 := ReplaceAll(a3, '"', "\\\""), ReplaceAll(b3, '"', "\\\"");
    ReplaceConcat(a4, b4, '\n', "\\n");
    var a5, b5 := ReplaceAll(a4, '\n', "\\n"), ReplaceAll(b4, '\n', "\\n");
    ReplaceConcat(a5, b5, '\r', "\\r");
  }

  /** A pass leaves a text without its character alone. */
  lemma {:induction false} ReplaceNone(s: string, c: char, rep: string)
    requires c !in s
    ensures ReplaceAll(s, c, rep) == s
  {
    if s != "" {
      assert s == [s[0]] + s[1..];
      ReplaceNone(s[1..], c, rep);
    }
  }

  lemma {:induction false} EscapeStringChar(c: char)
    ensures EscapeString([c]) == EscapeChar(c, false)
  {
    ReplaceOne(c, '\\', "\\\\");
    var s1 := ReplaceAll([c], '\\', "\\\\");
    if c == '\0' { ReplaceOne(c, '\0', "\\0"); } else { ReplaceNone(s1, '\0', "\\0"); }
    var s2 := ReplaceAll(s1, '\0', "\\0");
    if c == '\'' { ReplaceOne(c, '\'', "\\'"); } else { ReplaceNone(s2, '\'', "\\'"); }
    var s3 := ReplaceAll(s2, '\'', "\\'");
    if c == '"' { ReplaceOne(c, '"', "\\\""); } else { ReplaceNone(s3, '"', "\\\""); }
    var s4 := ReplaceAll(s3, '"', "\\\"");
    if c == '\n' { ReplaceOne(c, '\n', "\\n"); } else { ReplaceNone(s4, '\n', "\\n"); }
    var s5 := ReplaceAll(s4, '\n', "\\n");
    if c == '\r' { ReplaceOne(c, '\r', "\\r"); } else { ReplaceNone(s5, '\r', "\\r"); }
  }

  lemma {:induction false} EscapeBlobChar(c: char)
    ensures EscapeBlob([c]) == EscapeChar(c, true)
  {
    EscapeStringChar(c);
    if c == SUB {
      ReplaceOne(c, SUB, "\\Z");
    } else {
      ReplaceNone(EscapeChar(c, false), SUB, "\\Z");
    }
  }

  /** The passes one after the other equal one substitution per character. */
  lemma {:induction false} PassesAreOneSubstitution(s: string)
    ensures EscapeString(s) == Escaped(s, false)
    ensures EscapeBlob(s) == Escaped(s, true)
  {
    if s != "" {
      var t := s[1..];
      assert s == [s[0]] + t;
      PassesAreOneSubstitution(t);
      EscapeStringConcat([s[0]], t);
      EscapeStringChar(s[0]);
      EscapeBlobChar(s[0]);
      ReplaceConcat(EscapeString([s[0]]), EscapeString(t), SUB, "\\Z");
    }
  }

  // ---------------------------------------------------------------- reading a literal back

  /** What a backslash and this character stand for (section 9.1.1 of the MySQL 8.0 Reference Manual). */
  function Meaning(c: char): string {
    if c == '0' then "\0"
    else if c == 'b' then [8 as char]
    else if c == 'n' then "\n"
    else if c == 'r' then "\r"
    else if c == 't' then "\t"
    else if c == 'Z' then [SUB]
    else if c == '%' || c == '_' then ['\\', c]
    else [c]
  }

  function Then(v: string, r: Option<(string, string)>): Option<(string, string)> {
    if r.None? then None else Some((v + r.value.0, r.value.1))
  }

  /** The value of a literal whose opening quote has been read, and the text after its closing quote. */
  function ReadLiteral(s: string): Option<(string, string)>
    decreases |s|
  {
    if s == "" then None
    else if s[0] == '\\' then (if |s| == 1 then None else Then(Meaning(s[1]), ReadLiteral(s[2..])))
    else if s[0] == '\'' then (if |s| > 1 && s[1] == '\'' then Then("'", ReadLiteral(s[2..])) else Some(("", s[1..])))
    else Then([s[0]], ReadLiteral(s[1..]))
  }

  lemma {:induction false} ReadEscapedChar(c: char, blob: bool, t: string)
    ensures ReadLiteral(EscapeChar(c, blob) + t) == Then([c], ReadLiteral(t))
  {
    var e := EscapeChar(c, blob);
    if |e| == 2 {
      assert (e + t)[..2] == e && (e + t)[2..] == t;
    } else {
      assert (e + t)[1..] == t;
    }
  }

  /** The server reads a dumped literal back as the value that was dumped. */
  lemma {:induction false} LiteralRoundTrip(v: string, blob: bool, rest: string)
    requires rest == "" || rest[0] != '\''
    ensures ReadLiteral(Escaped(v, blob) + ("'" + rest)) == Some((v, rest))
  {
    var q := "'" + rest;
    if v == "" {
      assert q[1..] == rest && "" + q == q;
    } else {
      assert Escaped(v, blob) + q == EscapeChar(v[0], blob) + (Escaped(v[1..], blob) + q);
      ReadEscapedChar(v[0], blob, Escaped(v[1..], blob) + q);
      LiteralRoundTrip(v[1..], blob, rest);
      assert [v[0]] + v[1..] == v;
    }
  }

  // ---------------------------------------------------------------- how the splitter scans them

  lemma {:induction false} TraceEscapedChar(c: char, blob: bool, t: string)
    ensures Trace(EscapeChar(c, blob) + t, Single) == Trace(t, Single)
  {
    var e := EscapeChar(c, blob);
    if |e| == 2 {
      assert e + t == [e[0], e[1]] + t;
      TraceTwo(e[0], e[1], t, Single, Single);
    } else {
      TraceOne(c, t, Single, Single);
    }
  }

  lemma {:induction false} TraceEscaped(v: string, blob: bool, t: string)
    requires t == "" || (t[0] != '\'' && t[0] != '\n')
    ensures Trace(Escaped(v, blob) + ("'" + t), Single) == Trace(t, Neutral)
  {
    if v == "" {
      assert "" + ("'" + t) == ['\''] + t;
      if t != "" {
        FirstOfLines(t);
      }
      TraceOne('\'', t, Single, Neutral);
    } else {
      assert Escaped(v, blob) + ("'" + t) == EscapeChar(v[0], blob) + (Escaped(v[1..], blob) + ("'" + t));
      TraceEscapedChar(v[0], blob, Escaped(v[1..], blob) + ("'" + t));
      TraceEscaped(v[1..], blob, t);
    }
  }

  /** A literal leaves the splitter as it found it, whatever its value holds. */
  lemma {:induction false} TraceLiteral(v: string, blob: bool, t: string)
    requires t == "" || (t[0] != '\'' && t[0] != '\n')
    ensures Trace("'" + Escaped(v, blob) + "'" + t, Neutral) == Trace(t, Neutral)
  {
    var x := Escaped(v, blob) + ("'" + t);
    assert "'" + Escaped(v, blob) + "'" + t == ['\''] + x;
    TraceOne('\'', x, Neutral, Single);
    TraceEscaped(v, blob, t);
  }

  lemma {:induction false} EscapedOnOneLine(v: string, blob: bool)
    ensures NoNewline(Escaped(v, blob))
  {
    if v != "" {
      EscapedOnOneLine(v[1..], blob);
    }
  }

  // ---------------------------------------------------------------- quoted names

  function QuoteIdent(s: string): string {
    "`" + ReplaceAll(s, '`', "``") + "`"
  }

  lemma {:induction false} DoubledCons(s: string, q: string)
    requires s != ""
    ensures ReplaceAll(s, '`', "``") + q == (if s[0] == '`' then "``" else [s[0]]) + (ReplaceAll(s[1..], '`', "``") + q)
  {
  }

  /** One character of a quoted name leaves the splitter inside it; a doubled backtick leaves and enters again. */
  lemma {:induction false} TraceDoubledChar(c: char, x: string)
    ensures Trace((if c == '`' then "``" else [c]) + x, Backtick) == Trace(x, Backtick)
  {
    if c == '`' {
      TraceTwoTicks(x);
    } else if c == '\n' {
      TraceNewline(x, Backtick);
    } else {
      TraceOne(c, x, Backtick, Backtick);
    }
  }

  lemma {:induction false} TraceTwoTicks(x: string)
    ensures Trace("``" + x, Backtick) == Trace(x, Backtick)
  {
    assert "``" + x == ['`'] + (['`'] + x);
    TraceOne('`', ['`'] + x, Backtick, Neutral);
    TraceOne('`', x, Neutral, Backtick);
  }

  lemma {:induction false} TraceDoubled(s: string, t: string)
    ensures Trace(ReplaceAll(s, '`', "``") + ("`" + t), Backtick) == Trace(t, Neutral)
  {
    var q := "`" + t;
    if s == "" {
      assert "" + q == ['`'] + t;
      TraceOne('`', t, Backtick, Neutral);
    } else {
      TraceDoubled(s[1..], t);
      DoubledCons(s, q);
      TraceDoubledChar(s[0], ReplaceAll(s[1..], '`', "``") + q);
    }
  }

  /** So does a quoted name, even one with newlines or backticks in it. */
  lemma {:induction false} TraceIdent(s: string, t: string)
    ensures Trace(QuoteIdent(s) + t, Neutral) == Trace(t, Neutral)
  {
    var x := ReplaceAll(s, '`', "``") + ("`" + t);
    assert QuoteIdent(s) + t == ['`'] + x;
    TraceOne('`', x, Neutral, Backtick);
    TraceDoubled(s, t);
  }
}
