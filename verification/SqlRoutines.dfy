/** Routines, events and triggers: a body dumped between two DELIMITER commands. */
module SqlRoutines {
  import opened Sequences
  import opened SqlLexer
  import opened SqlStatements

  /** The definition the dumper frames: without surrounding space and one final semicolon. */
  function BodyOf(createSQL: string): string {
    var s := TrimSpace(createSQL);
    if HasSuffix(s, ";") then s[..|s| - 1] else s
  }

  function FrameText(body: string): string {
    "DELIMITER ;;\n" + body + ";;\n" + "DELIMITER ;\n" + "\n"
  }

  function BodyLines(body: string): seq<string> {
    Lines(body + ";;")
  }

  lemma {:induction false} TrimId(s: string)
    requires s != "" && !IsSpace(s[0]) && !IsSpace(s[|s| - 1])
    ensures TrimSpace(s) == s
  {
  }

  const TAIL := "DELIMITER ;" + ("\n" + "\n")

  lemma {:induction false} NewlineLines()
    ensures ReadLines("\n") == [""]
  {
    assert "\n"[1..] == "";
    assert Lines("\n") == ["", ""];
  }

  lemma {:induction false} TailLines()
    ensures ReadLines(TAIL) == ["DELIMITER ;", ""]
  {
    NewlineLines();
    LinesOfLine("DELIMITER ;");
    ReadLinesConcat("DELIMITER ;", "\n");
  }

  lemma {:induction false} FrameParts(body: string)
    ensures FrameText(body) == "DELIMITER ;;" + ("\n" + ((body + ";;") + ("\n" + TAIL)))
  {
  }

  lemma {:induction false} FrameLines(body: string)
    ensures ReadLines(FrameText(body)) == ["DELIMITER ;;"] + (BodyLines(body) + ["DELIMITER ;", ""])
  {
    FrameParts(body);
    ReadLinesConcat("DELIMITER ;;", (body + ";;") + ("\n" + TAIL));
    LinesOfLine("DELIMITER ;;");
    ReadLinesConcat(body + ";;", TAIL);
    TailLines();
  }

  lemma {:induction false} DelimiterCommand(d: string, d': string)
    requires d' != "" && !IsSpace(d'[0]) && !IsSpace(d'[|d'| - 1])
    ensures PushLine(Start(d), "DELIMITER " + d') == (Start(d'), [])
  {
    var line := "DELIMITER " + d';
    TrimId(line);
    AfterAscii("DELIMITER ", d', 0);
    TrimId(d');
    CommandUpper();
    assert ToUpper(line)[..10] == ToUpper("DELIMITER ");
  }

  lemma {:induction false} CommandUpper()
    ensures ToUpper("DELIMITER ") == "DELIMITER "
  {
  }

  lemma {:induction false} AfterAscii(a: string, s: string, n: nat)
    requires forall i :: 0 <= i < |a| ==> a[i] < '\U{80}'
    ensures AfterBytes(a + s, |a| + n) == AfterBytes(s, n)
    decreases |a|
  {
    if a == "" {
      assert a + s == s;
    } else {
      assert (a + s)[0] == a[0] && (a + s)[1..] == a[1..] + s;
      AfterAscii(a[1..], s, n);
    }
  }

  lemma {:induction false} AfterDotless(s: string, n: nat)
    ensures AfterBytes("\U{131}" + s, n + 2) == AfterBytes(s, n)
  {
    var t := "\U{131}" + s;
    assert t[0] == '\U{131}' && t[1..] == s;
  }

  lemma {:induction false} AfterDotlessWord(d: string)
    ensures AfterBytes("del\U{131}m\U{131}ter " + d, DELIMITER_BYTES) == "r " + d
  {
    var x := "\U{131}" + ("ter " + d);
    assert "del\U{131}m\U{131}ter " + d == "del" + ("\U{131}" + ("m" + x));
    AfterAscii("del", "\U{131}" + ("m" + x), 7);
    AfterDotless("m" + x, 5);
    AfterAscii("m", x, 4);
    AfterDotless("ter " + d, 2);
    assert "ter " + d == "te" + ("r " + d);
    AfterAscii("te", "r " + d, 0);
  }

  /**
   The command is looked for in upper case and cut off by its length: with dotless i for both i, a part of it is left.
   */
  lemma {:induction false} DotlessCommand(d: string, d': string)
    requires d' != "" && !IsSpace(d'[|d'| - 1])
    ensures PushLine(Start(d), "del\U{131}m\U{131}ter " + d') == (Start("r " + d'), [])
  {
    var word := "del\U{131}m\U{131}ter ";
    var line := word + d';
    TrimId(line);
    DotlessUpper(word);
    assert ToUpper(line)[..10] == ToUpper(word);
    AfterDotlessWord(d');
    TrimId("r " + d');
  }

  lemma {:induction false} DotlessUpper(word: string)
    requires word == "del\U{131}m\U{131}ter "
    ensures ToUpper(word) == "DELIMITER "
  {
  }

  /** A definition as the server returns it starts with a word that is neither a semicolon nor a DELIMITER command. */
  ghost predicate Definition(body: string) {
    body != "" && !IsSpace(body[0]) && body[0] != ';' && Upper(body[0]) != 'D'
  }

  /** What the splitter should make of a framed body. */
  ghost predicate ComesBack(body: string) {
    Feed(Start(";;"), BodyLines(body)) == (Start(";;"), [TrimSpace(body)])
  }

  lemma {:induction false} TrimStart(s: string)
    requires s != "" && !IsSpace(s[0])
    ensures TrimSpace(s) == TrimRight(s) && TrimSpace(s) != "" && TrimSpace(s)[0] == s[0]
  {
    TrimKeepsFirst(s);
  }

  lemma {:induction false} FlushBody(body: string)
    requires Definition(body)
    ensures Flushed(body + ";;" + "\n", ";;") == TrimSpace(body) && TrimSpace(body) != ""
  {
    var s := body + ";;";
    assert s[|s| - 1] == ';';
    TrimLine(s);
    assert TrimLeft(s) == s;
    assert s[..|s| - 2] == body && s[|s| - 2..] == ";;";
    TrimStart(body);
  }

  lemma {:induction false} QuietComesBack(body: string)
    requires Definition(body) && OneStatement(";;", BodyLines(body))
    ensures ComesBack(body)
  {
    FeedStatement(";;", BodyLines(body));
    BufferOfLines(body + ";;");
    FlushBody(body);
  }

  // ---------------------------------------------------------------- the other direction

  lemma {:induction false} TrimRightMono(a: string, b: string)
    ensures |TrimRight(a)| <= |TrimRight(a + b)|
    ensures TrimRight(a) <= a
    decreases |b|
  {
    TrimRightPrefix(a);
    if b == "" {
      assert a + b == a;
    } else if IsSpace(b[|b| - 1]) {
      var b' := b[..|b| - 1];
      assert (a + b)[|a + b| - 1] == b[|b| - 1] && (a + b)[..|a + b| - 1] == a + b';
      TrimRightMono(a, b');
    } else {
      assert (a + b)[|a + b| - 1] == b[|b| - 1];
    }
  }

  lemma {:induction false} TrimRightPrefix(a: string)
    ensures TrimRight(a) <= a
  {
    if a != "" && IsSpace(a[|a| - 1]) {
      TrimRightPrefix(a[..|a| - 1]);
    }
  }

  lemma {:induction false} FirstLine(s: string) returns (rest: string)
    requires |Lines(s)| > 1
    ensures s == Lines(s)[0] + ("\n" + rest) && Lines(rest) == Lines(s)[1..]
  {
    if s[0] == '\n' {
      rest := s[1..];
      assert s == "" + ("\n" + rest);
    } else {
      rest := FirstLine(s[1..]);
      assert s == [s[0]] + s[1..];
      var l := Lines(s[1..])[0];
      assert [s[0]] + (l + ("\n" + rest)) == ([s[0]] + l) + ("\n" + rest);
    }
  }

  /** The text before a line and the text from it on. */
  lemma {:induction false} SplitAtLine(s: string, j: nat) returns (rest: string)
    requires j < |Lines(s)|
    ensures s == Buffer(Lines(s), j) + rest && Lines(rest) == Lines(s)[j..]
  {
    if j == 0 {
      rest := s;
      assert s == "" + s;
    } else {
      var r := SplitAtLine(s, j - 1);
      rest := FirstLine(r);
      var b, l := Buffer(Lines(s), j - 1), Lines(s)[j - 1];
      assert Lines(r)[0] == l && Lines(r)[1..] == Lines(s)[j..];
      assert b + (l + ("\n" + rest)) == (b + l + "\n") + rest;
    }
  }

  lemma {:induction false} EndsInNewline(lines: seq<string>, j: nat)
    requires 0 < j <= |lines|
    ensures Buffer(lines, j)[|Buffer(lines, j)| - 1] == '\n'
  {
  }

  /** The text before any line but the first ends inside the body. */
  lemma {:induction false} BeforeLine(body: string, j: nat) returns (rest: string)
    requires 0 < j < |BodyLines(body)|
    ensures body == Buffer(BodyLines(body), j) + rest && Lines(rest + ";;") == BodyLines(body)[j..]
  {
    var s, b := body + ";;", Buffer(BodyLines(body), j);
    var r := SplitAtLine(s, j);
    EndsInNewline(BodyLines(body), j);
    assert s[|b| - 1] == '\n';
    assert |b| <= |body|;
    rest := body[|b|..];
    assert body == s[..|body|] && s == body + ";;";
    assert body[..|b|] == b;
    assert r == s[|b|..] == rest + ";;";
  }

  lemma {:induction false} TrimRightBeyond(a: string, b: string)
    requires exists i :: 0 <= i < |b| && !IsSpace(b[i])
    ensures |TrimRight(a + b)| > |a|
    decreases |b|
  {
    assert (a + b)[|a + b| - 1] == b[|b| - 1];
    if IsSpace(b[|b| - 1]) {
      var b' := b[..|b| - 1];
      var i :| 0 <= i < |b| && !IsSpace(b[i]);
      assert b'[i] == b[i];
      assert (a + b)[..|a + b| - 1] == a + b';
      TrimRightBeyond(a, b');
    }
  }

  lemma {:induction false} TrimMember(s: string)
    requires TrimSpace(s) != ""
    ensures TrimSpace(s)[0] in s && !IsSpace(TrimSpace(s)[0])
  {
    var t := TrimLeft(s);
    TrimRightPrefix(t);
    TrimLeftMember(s);
  }

  lemma {:induction false} TrimLeftMember(s: string)
    ensures TrimLeft(s) != "" ==> TrimLeft(s)[0] in s && !IsSpace(TrimLeft(s)[0])
  {
    if s != "" && IsSpace(s[0]) {
      TrimLeftMember(s[1..]);
    }
  }

  lemma {:induction false} FirstLineMembers(s: string)
    ensures forall c :: c in Lines(s)[0] ==> c in s
  {
    if s != "" && s[0] != '\n' {
      FirstLineMembers(s[1..]);
      assert s == [s[0]] + s[1..];
    }
  }

  /** A DELIMITER line has more to it than the closing semicolons. */
  lemma {:induction false} DelimiterHasText(rest: string)
    requires IsDelimiterLine(Lines(rest + ";;")[0])
    ensures exists i :: 0 <= i < |rest| && !IsSpace(rest[i])
  {
    var line := Lines(rest + ";;")[0];
    var t := TrimSpace(line);
    assert t != "" by { assert |ToUpper(t)| >= 10; }
    TrimMember(line);
    FirstLineMembers(rest + ";;");
    var c := t[0];
    assert ToUpper(t)[0] == "DELIMITER "[0] == 'D';
    assert c != ';' && c in rest + ";;";
    var i :| 0 <= i < |rest + ";;"| && (rest + ";;")[i] == c;
    assert rest[i] == c;
  }

  /** A statement cut off before line `j` is shorter than the body. */
  lemma {:induction false} CutIsShort(body: string, j: nat)
    requires Definition(body) && 0 < j < |BodyLines(body)|
    ensures var ls := BodyLines(body);
      var cut := Flushed(Buffer(ls, j), ";;");
      EndsAt(";;", ls, j) || (ModeAt(ls, j) == Neutral && IsDelimiterLine(ls[j])) ==>
        cut != "" && |cut| < |TrimSpace(body)|
  {
    var ls := BodyLines(body);
    var b := Buffer(ls, j);
    var rest := BeforeLine(body, j);
    assert b[0] == body[0];
    TrimStart(b);
    TrimStart(body);
    TrimRightMono(b, rest);
    if EndsAt(";;", ls, j) {
      ShorterWithoutDelimiter(b);
    } else if ModeAt(ls, j) == Neutral && IsDelimiterLine(ls[j]) {
      assert Lines(rest + ";;")[0] == ls[j];
      DelimiterHasText(rest);
      TrimRightBeyond(b, rest);
    }
  }

  lemma {:induction false} ShorterWithoutDelimiter(b: string)
    requires b != "" && !IsSpace(b[0]) && b[0] != ';' && HasSuffix(TrimSpace(b), ";;")
    ensures Flushed(b, ";;") != "" && |Flushed(b, ";;")| < |TrimSpace(b)|
  {
    TrimStart(b);
    var t := TrimSpace(b);
    var p := t[..|t| - 2];
    assert t == p + t[|t| - 2..];
    assert p != "" && p[0] == b[0];
    TrimStart(p);
    TrimRightPrefix(p);
  }

  /**
   Standing before line `j`, with `tail` to follow the body, the splitter will still return the body alone and end in
   `end`.
   */
  ghost predicate StillWhole(body: string, j: nat, tail: seq<string>, end: Splitter)
    requires j <= |BodyLines(body)|
  {
    Feed(Before(";;", BodyLines(body), j), BodyLines(body)[j..] + tail) == (end, [TrimSpace(body)])
  }

  /** Unless the delimiter ends the body, the tail does not return it. */
  ghost predicate NeedsEnd(body: string, tail: seq<string>, end: Splitter) {
    var ls := BodyLines(body);
    !EndsAt(";;", ls, |ls|) ==> Feed(Before(";;", ls, |ls|), tail) != (end, [TrimSpace(body)])
  }

  lemma {:induction false} FirstOut(sp: Splitter, lines: seq<string>, x: string)
    requires lines != [] && PushLine(sp, lines[0]).1 == [x]
    ensures Feed(sp, lines).1 != [] && Feed(sp, lines).1[0] == x
  {
  }

  lemma {:induction false} NoCommand(body: string, j: nat, tail: seq<string>, end: Splitter)
    requires Definition(body) && 0 < j < |BodyLines(body)| && StillWhole(body, j, tail, end)
    requires !EndsAt(";;", BodyLines(body), j)
    ensures ModeAt(BodyLines(body), j) == Neutral ==> !IsDelimiterLine(BodyLines(body)[j])
  {
    var ls := BodyLines(body);
    if ModeAt(ls, j) == Neutral && IsDelimiterLine(ls[j]) {
      CutIsShort(body, j);
      assert (ls[j..] + tail)[0] == ls[j];
      FirstOut(Before(";;", ls, j), ls[j..] + tail, Flushed(Buffer(ls, j), ";;"));
    }
  }

  lemma {:induction false} NoEarlyEnd(body: string, j: nat, tail: seq<string>, end: Splitter)
    requires Definition(body) && j + 1 < |BodyLines(body)| && StillWhole(body, j, tail, end)
    requires ModeAt(BodyLines(body), j) == Neutral ==> !IsDelimiterLine(BodyLines(body)[j])
    requires j == 0 ==> TrimSpace(BodyLines(body)[0]) != ""
    ensures !EndsAt(";;", BodyLines(body), j + 1) && StillWhole(body, j + 1, tail, end)
  {
    var ls := BodyLines(body);
    assert (ls[j..] + tail)[0] == ls[j] && (ls[j..] + tail)[1..] == ls[j + 1..] + tail;
    if EndsAt(";;", ls, j + 1) {
      CutIsShort(body, j + 1);
      PushEnds(ls, j);
      FirstOut(Before(";;", ls, j), ls[j..] + tail, Flushed(Buffer(ls, j + 1), ";;"));
    } else {
      PushAt(";;", ls, j);
      FeedQuietly(Before(";;", ls, j), Before(";;", ls, j + 1), ls[j..] + tail);
    }
  }

  lemma {:induction false} PushEnds(ls: seq<string>, j: nat)
    requires j < |ls| && EndsAt(";;", ls, j + 1) && Flushed(Buffer(ls, j + 1), ";;") != ""
    requires ModeAt(ls, j) == Neutral ==> !IsDelimiterLine(ls[j])
    requires j == 0 ==> TrimSpace(ls[0]) != ""
    ensures PushLine(Before(";;", ls, j), ls[j]).1 == [Flushed(Buffer(ls, j + 1), ";;")]
  {
  }

  lemma {:induction false} MustEnd(body: string, j: nat, tail: seq<string>, end: Splitter)
    requires Definition(body) && j + 1 == |BodyLines(body)| && StillWhole(body, j, tail, end)
    requires NeedsEnd(body, tail, end)
    requires ModeAt(BodyLines(body), j) == Neutral ==> !IsDelimiterLine(BodyLines(body)[j])
    requires j == 0 ==> TrimSpace(BodyLines(body)[0]) != ""
    ensures EndsAt(";;", BodyLines(body), j + 1)
  {
    var ls := BodyLines(body);
    if !EndsAt(";;", ls, j + 1) {
      PushAt(";;", ls, j);
      assert (ls[j..] + tail)[0] == ls[j] && (ls[j..] + tail)[1..] == tail;
      FeedQuietly(Before(";;", ls, j), Before(";;", ls, j + 1), ls[j..] + tail);
    }
  }

  /** The body is whole up to line `j`, which is no DELIMITER command. */
  ghost predicate WholeAt(body: string, j: nat, tail: seq<string>, end: Splitter) {
    && j < |BodyLines(body)| && StillWhole(body, j, tail, end)
    && (ModeAt(BodyLines(body), j) == Neutral ==> !IsDelimiterLine(BodyLines(body)[j]))
    && (j == 0 ==> TrimSpace(BodyLines(body)[0]) != "")
  }

  /** And no statement has ended before it. */
  ghost predicate QuietTo(body: string, j: nat, tail: seq<string>, end: Splitter) {
    WholeAt(body, j, tail, end) && (j > 0 ==> !EndsAt(";;", BodyLines(body), j))
  }

  lemma {:induction false} QuietNext(body: string, j: nat, tail: seq<string>, end: Splitter)
    requires Definition(body) && QuietTo(body, j, tail, end) && j + 1 < |BodyLines(body)|
    ensures QuietTo(body, j + 1, tail, end)
  {
    NoEarlyEnd(body, j, tail, end);
    NoCommand(body, j + 1, tail, end);
  }

  /** If the body comes back, no line cuts it short. */
  lemma {:induction false} MustBeQuiet(body: string, n: nat, j: nat, tail: seq<string>, end: Splitter)
    requires Definition(body) && QuietTo(body, 0, tail, end) && j < n == |BodyLines(body)|
    ensures QuietTo(body, j, tail, end)
    decreases j
  {
    if j > 0 {
      var i := j - 1;
      MustBeQuiet(body, n, i, tail, end);
      QuietNext(body, i, tail, end);
    }
  }

  lemma {:induction false} FirstLineOf(body: string)
    requires Definition(body)
    ensures TrimSpace(BodyLines(body)[0]) != "" && !IsDelimiterLine(BodyLines(body)[0])
  {
    assert (body + ";;")[0] == body[0];
    FirstOfLines(body + ";;");
    NotDelimiter(BodyLines(body)[0]);
  }

  lemma {:induction false} QuietAt(body: string, j: nat, tail: seq<string>, end: Splitter)
    requires Definition(body) && StillWhole(body, 0, tail, end) && NeedsEnd(body, tail, end) && j < |BodyLines(body)|
    ensures ModeAt(BodyLines(body), j) == Neutral ==> !IsDelimiterLine(BodyLines(body)[j])
    ensures j > 0 ==> !EndsAt(";;", BodyLines(body), j)
    ensures j == |BodyLines(body)| - 1 ==> EndsAt(";;", BodyLines(body), |BodyLines(body)|)
  {
    FirstLineOf(body);
    MustBeQuiet(body, |BodyLines(body)|, j, tail, end);
    if j == |BodyLines(body)| - 1 {
      MustEnd(body, j, tail, end);
    }
  }

  lemma {:induction false} OnlyQuietIsWhole(body: string, tail: seq<string>, end: Splitter)
    requires Definition(body) && StillWhole(body, 0, tail, end) && NeedsEnd(body, tail, end)
    ensures OneStatement(";;", BodyLines(body))
  {
    var ls := BodyLines(body);
    FirstLineOf(body);
    forall j | 0 <= j < |ls| && ModeAt(ls, j) == Neutral ensures !IsDelimiterLine(ls[j]) {
      QuietAt(body, j, tail, end);
    }
    forall j | 0 < j < |ls| ensures !EndsAt(";;", ls, j) {
      QuietAt(body, j, tail, end);
    }
    QuietAt(body, |ls| - 1, tail, end);
  }

  lemma {:induction false} OnlyQuietComesBack(body: string)
    requires Definition(body) && ComesBack(body)
    ensures OneStatement(";;", BodyLines(body))
  {
    var ls := BodyLines(body);
    assert ls[0..] + [] == ls;
    assert Feed(Before(";;", ls, |ls|), []) == (Before(";;", ls, |ls|), []);
    OnlyQuietIsWhole(body, [], Start(";;"));
  }

  /**
   A framed definition comes back as one statement exactly when no line but the last ends in two
   semicolons where the splitter is outside quotes and block comments after it, a line comment
   being no protection; no line is a DELIMITER command where it is outside them before it; and the
   whole ends outside quotes and block comments.
   */
  lemma {:induction false} BodyComesBack(body: string)
    requires Definition(body)
    ensures ComesBack(body) <==> OneStatement(";;", BodyLines(body))
  {
    if OneStatement(";;", BodyLines(body)) {
      QuietComesBack(body);
    }
    if ComesBack(body) {
      OnlyQuietComesBack(body);
    }
  }

  /** What the splitter should make of the whole frame, in its ordinary state before and after. */
  ghost predicate FrameComesBack(body: string) {
    Feed(Start(";"), ReadLines(FrameText(body))) == (Start(";"), [TrimSpace(body)])
  }

  const CLOSING: seq<string> := ["DELIMITER ;", ""]

  /** The frame comes to the body and the closing command, read by a splitter set to two semicolons. */
  lemma {:induction false} FeedFrame(body: string)
    ensures Feed(Start(";"), ReadLines(FrameText(body))) == Feed(Start(";;"), BodyLines(body) + CLOSING)
  {
    FrameLines(body);
    DelimiterCommand(";", ";;");
    assert "DELIMITER " + ";;" == "DELIMITER ;;";
    var lines := ["DELIMITER ;;"] + (BodyLines(body) + CLOSING);
    assert lines[1..] == BodyLines(body) + CLOSING;
    FeedQuietly(Start(";"), Start(";;"), lines);
  }

  lemma {:induction false} FrameBack(body: string)
    requires Definition(body) && OneStatement(";;", BodyLines(body))
    ensures FrameComesBack(body)
  {
    FeedFrame(body);
    QuietComesBack(body);
    FeedEnd();
    FeedConcat(Start(";;"), BodyLines(body), CLOSING);
    assert [TrimSpace(body)] + [] == [TrimSpace(body)];
  }

  /** Inside quotes or a block comment the closing command is text like any other. */
  lemma {:induction false} ClosingSwallowed(sp: Splitter)
    requires sp.mode != Neutral && sp.mode != LineComment && sp.buf != ""
    ensures Feed(sp, CLOSING).0.buf != ""
  {
    var line := CLOSING[0];
    var sp1 := Splitter(sp.buf + line + "\n", sp.delimiter, sp.mode);
    ScanCommand(line, sp.mode);
    assert PushLine(sp, line) == (sp1, []);
    assert Scan("", sp.mode) == sp.mode;
    assert PushLine(sp1, "").0.buf == sp1.buf + "" + "\n";
    FeedQuietly(sp, sp1, CLOSING);
    assert CLOSING[1..] == [""];
    FeedOne(sp1, "");
  }

  lemma {:induction false} ScanCommand(line: string, m: Mode)
    requires forall i :: 0 <= i < |line| ==> IsPlain(line[i]) && line[i] != '\\' && line[i] != '*'
    requires m != Neutral && m != LineComment
    ensures Scan(line, m) == m
    decreases |line|
  {
    if line != "" {
      assert Turn(line, m) == (1, m);
      ScanCommand(line[1..], m);
    }
  }

  lemma {:induction false} BodyEnds(body: string)
    requires Definition(body)
    ensures var ls := BodyLines(body); EndsAt(";;", ls, |ls|) <==> ModeAt(ls, |ls|) == Neutral
    ensures ModeAt(BodyLines(body), |BodyLines(body)|) != LineComment
  {
    var s := body + ";;";
    BufferOfLines(s);
    assert s[|s| - 1] == ';' && s[|s| - 2..] == ";;" && s[0] == body[0];
    TrimLine(s);
    assert TrimLeft(s) == s;
  }

  lemma {:induction false} FrameNeedsEnd(body: string)
    requires Definition(body)
    ensures NeedsEnd(body, CLOSING, Start(";"))
  {
    var ls := BodyLines(body);
    BodyEnds(body);
    if !EndsAt(";;", ls, |ls|) {
      ClosingSwallowed(Before(";;", ls, |ls|));
    }
  }

  lemma {:induction false} OnlyQuietFrame(body: string)
    requires Definition(body) && FrameComesBack(body)
    ensures OneStatement(";;", BodyLines(body))
  {
    FeedFrame(body);
    FrameNeedsEnd(body);
    assert BodyLines(body)[0..] == BodyLines(body);
    OnlyQuietIsWhole(body, CLOSING, Start(";"));
  }

  lemma {:induction false} DumpedDefinition(createSQL: string)
    requires Definition(TrimSpace(createSQL))
    ensures Definition(BodyOf(createSQL))
  {
  }

  /**
   The frame the dumper writes for a definition, read back by a splitter in its ordinary state, yields
   the definition alone and leaves the splitter as it was exactly under the condition of `BodyComesBack`.
   */
  lemma {:induction false} FrameRoundTrip(createSQL: string)
    requires Definition(TrimSpace(createSQL))
    ensures FrameComesBack(BodyOf(createSQL)) <==> OneStatement(";;", BodyLines(BodyOf(createSQL)))
  {
    var body := BodyOf(createSQL);
    DumpedDefinition(createSQL);
    if OneStatement(";;", BodyLines(body)) {
      FrameBack(body);
    } else if FrameComesBack(body) {
      OnlyQuietFrame(body);
    }
  }

  lemma {:induction false} FeedEnd()
    ensures Feed(Start(";;"), CLOSING) == (Start(";"), [])
  {
    DelimiterCommand(";;", ";");
    assert "DELIMITER " + ";" == "DELIMITER ;";
    assert CLOSING[1..] == [""];
    FeedQuietly(Start(";;"), Start(";"), CLOSING);
    FeedOne(Start(";"), "");
    assert TrimSpace("") == "";
  }

  // ---------------------------------------------------------------- definitions that do not come back

  /** After the text `a` the splitter is outside quotes and block comments. */
  ghost predicate LeavesNeutral(a: string) {
    ModeAt(Lines(a), |Lines(a)|) == Neutral
  }

  /** A definition with the line `line` in it, the text `a` before it and `b` after it. */
  function Around(a: string, line: string, b: string): string {
    a + ("\n" + (line + ("\n" + b)))
  }

  lemma {:induction false} AroundLines(a: string, line: string, b: string)
    requires NoNewline(line)
    ensures BodyLines(Around(a, line, b)) == Lines(a) + ([line] + Lines(b + ";;"))
  {
    assert Around(a, line, b) + ";;" == a + ("\n" + (line + ("\n" + (b + ";;"))));
    LinesConcat(a, line + ("\n" + (b + ";;")));
    LinesConcat(line, b + ";;");
    LinesOfLine(line);
  }

  /** What the splitter has before and after the line. */
  lemma {:induction false} AtLine(a: string, line: string, more: seq<string>)
    ensures var ls, j := Lines(a) + ([line] + more), |Lines(a)|;
      && ls[j] == line && ModeAt(ls, j) == ModeAt(Lines(a), j)
      && ModeAt(ls, j + 1) == EndLine(Scan(line, ModeAt(Lines(a), j)))
      && Buffer(ls, j + 1) == (a + "\n") + line + "\n"
  {
    ModePrefix(Lines(a), [line] + more, Neutral, |Lines(a)|);
    BufferOfLines(a);
  }

  lemma {:induction false} AroundDefinition(a: string, line: string, b: string)
    requires Definition(a)
    ensures Definition(Around(a, line, b))
  {
    assert Around(a, line, b)[0] == a[0];
  }

  /** A DELIMITER line outside quotes cuts the definition. */
  lemma {:induction false} DelimiterLineCuts(a: string, line: string, b: string)
    requires Definition(a) && LeavesNeutral(a) && NoNewline(line) && IsDelimiterLine(line)
    ensures !ComesBack(Around(a, line, b))
  {
    AroundDefinition(a, line, b);
    AroundLines(a, line, b);
    AtLine(a, line, Lines(b + ";;"));
    BodyComesBack(Around(a, line, b));
  }

  /** So does a line that leaves the splitter outside quotes and ends in two semicolons. */
  lemma {:induction false} EndingLineCuts(a: string, text: string, b: string)
    requires Definition(a) && LeavesNeutral(a) && NoNewline(text) && EndLine(Scan(text + ";;", Neutral)) == Neutral
    ensures !ComesBack(Around(a, text + ";;", b))
  {
    var line := text + ";;";
    AroundDefinition(a, line, b);
    AroundLines(a, line, b);
    AtLine(a, line, Lines(b + ";;"));
    EndsInDelimiter(a, text);
    var ls, j := Lines(a) + ([line] + Lines(b + ";;")), |Lines(a)|;
    assert EndsAt(";;", ls, j + 1) && 0 < j + 1 < |ls|;
    BodyComesBack(Around(a, line, b));
  }

  lemma {:induction false} EndsInDelimiter(a: string, text: string)
    requires a != "" && !IsSpace(a[0])
    ensures HasSuffix(TrimSpace((a + "\n") + (text + ";;") + "\n"), ";;")
  {
    var s := (a + "\n") + (text + ";;");
    assert s[0] == a[0] && s[|s| - 1] == ';' && s[|s| - 2..] == ";;";
    TrimLine(s);
  }

  /** A comment line ending in two semicolons: the comment is over before the end is looked for. */
  lemma {:induction false} CommentCuts(a: string, text: string, b: string)
    requires Definition(a) && LeavesNeutral(a) && NoNewline(text)
    ensures !ComesBack(Around(a, "-- " + text + ";;", b))
  {
    assert "-- " + text + ";;" == "-- " + (text + ";;");
    ScanCommentLine(text + ";;");
    EndingLineCuts(a, "-- " + text, b);
  }

  /** A line that starts with a column or variable called `delimiter`. */
  lemma {:induction false} DelimiterColumnCuts(a: string, rest: string, b: string)
    requires Definition(a) && LeavesNeutral(a) && NoNewline(rest) && rest != "" && !IsSpace(rest[|rest| - 1])
    ensures !ComesBack(Around(a, "  delimiter " + rest, b))
  {
    var line := "  delimiter " + rest;
    ColumnTrimmed(line, rest);
    assert line[..12] == "  delimiter ";
    DelimiterLineCuts(a, line, b);
  }

  lemma {:induction false} ColumnTrimmed(line: string, rest: string)
    requires line == "  delimiter " + rest && rest != "" && !IsSpace(rest[|rest| - 1])
    ensures IsDelimiterLine(line)
  {
    var t := "delimiter " + rest;
    assert line[0] == ' ' && line[1..][0] == ' ' && line[1..][1..] == t;
    assert TrimLeft(line) == TrimLeft(line[1..]) == TrimLeft(t) == t;
    TrimId(t);
    assert TrimSpace(line) == t;
    assert ToUpper(t)[..10] == "DELIMITER ";
  }

  lemma {:induction false} PlainLeavesNeutral(a: string)
    requires forall i :: 0 <= i < |a| ==> IsPlain(a[i])
    ensures LeavesNeutral(a)
  {
    PlainLine(a);
    LinesOfLine(a);
    assert ModeFrom(Lines(a), Neutral, 0) == Neutral;
  }

  lemma {:induction false} PlainLine(s: string)
    requires forall i :: 0 <= i < |s| ==> IsPlain(s[i])
    ensures NoNewline(s) && Scan(s, Neutral) == Neutral
  {
    assert s + "" == s;
    TracePlain(s, "");
    LinesOfLine(s);
    assert Trace("", Neutral) == Some(Neutral);
  }

  lemma {:induction false} PlainStart(a: string)
    requires a == "CREATE PROCEDURE p() SELECT id,"
    ensures forall i :: 0 <= i < |a| ==> IsPlain(a[i])
  {
  }

  /** A procedure that selects such a column does not come back. */
  lemma {:induction false} SelectedDelimiter(a: string, rest: string, b: string)
    requires a == "CREATE PROCEDURE p() SELECT id," && rest == "FROM t"
    ensures !ComesBack(Around(a, "  delimiter " + rest, b))
  {
    PlainStart(a);
    PlainLeavesNeutral(a);
    DelimiterColumnCuts(a, rest, b);
  }

  // ---------------------------------------------------------------- comment lines

  lemma {:induction false} ScanComment(s: string)
    ensures Scan(s, LineComment) == LineComment
    decreases |s|
  {
    if s != "" {
      ScanComment(s[1..]);
    }
  }

  lemma {:induction false} ScanCommentLine(text: string)
    ensures Scan("-- " + text, Neutral) == LineComment
  {
    var line := "-- " + text;
    assert Turn(line, Neutral) == (1, LineComment);
    ScanComment(line[1..]);
  }

  lemma {:induction false} TrimComment(line: string)
    requires line != "" && !IsSpace(line[0]) && !IsSpace(line[|line| - 1])
    ensures TrimSpace("" + line + "\n") == line && "" + line + "\n" == line + "\n"
    ensures HasSuffix(line, ";") <==> line[|line| - 1] == ';'
  {
    assert "" + line + "\n" == line + "\n";
    TrimLine(line);
    assert line[|line| - 1..] == [line[|line| - 1]];
  }

  lemma {:induction false} PushComment(line: string)
    requires line != "" && !IsSpace(line[0]) && !IsSpace(line[|line| - 1]) && Upper(line[0]) != 'D'
    requires Scan(line, Neutral) == LineComment
    ensures PushLine(Start(";"), line) ==
      if line[|line| - 1] == ';' then (Start(";"), NonEmpty(TrimSpace(line[..|line| - 1])))
      else (Splitter(line + "\n", ";", Neutral), [])
  {
    NotDelimiter(line);
    TrimComment(line);
  }

  /**
   A comment line joins the statement after it, unless it ends in a semicolon: then it is returned as a statement of
   its own.
   */
  lemma {:induction false} CommentLine(text: string)
    requires text != "" && !IsSpace(text[|text| - 1])
    ensures var line := "-- " + text;
      PushLine(Start(";"), line) ==
        if text[|text| - 1] == ';' then (Start(";"), NonEmpty(TrimSpace(line[..|line| - 1])))
        else (Splitter(line + "\n", ";", Neutral), [])
  {
    var line := "-- " + text;
    ScanCommentLine(text);
    assert line[0] == '-' && line[|line| - 1] == text[|text| - 1];
    PushComment(line);
  }
}
