/** When the splitter returns a group of lines as exactly one statement, and how texts scan piece by piece. */
module SqlStatements {
  import opened Sequences
  import opened SqlLexer

  // ---------------------------------------------------------------- one statement

  /** The mode before line `j`, when the first line starts in mode `m`. */
  function ModeFrom(lines: seq<string>, m: Mode, j: nat): Mode
    requires j <= |lines|
  {
    if j == 0 then m else EndLine(Scan(lines[j - 1], ModeFrom(lines, m, j - 1)))
  }

  function ModeAt(lines: seq<string>, j: nat): Mode
    requires j <= |lines|
  {
    ModeFrom(lines, Neutral, j)
  }

  /** The text the splitter has collected before line `j`. */
  function Buffer(lines: seq<string>, j: nat): (b: string)
    requires j <= |lines|
    ensures j > 0 ==> b != ""
  {
    if j == 0 then "" else Buffer(lines, j - 1) + lines[j - 1] + "\n"
  }

  /** A statement could end before line `j`. */
  predicate EndsAt(delimiter: string, lines: seq<string>, j: nat)
    requires j <= |lines|
  {
    ModeAt(lines, j) == Neutral && HasSuffix(TrimSpace(Buffer(lines, j)), delimiter)
  }

  /**
   The lines form one statement: it is not blank at its start, no line outside quotes and
   comments is a DELIMITER command, and the delimiter ends it at its last line and no earlier.
   */
  ghost predicate OneStatement(delimiter: string, lines: seq<string>) {
    && delimiter != "" && lines != [] && TrimSpace(lines[0]) != ""
    && (forall j :: 0 <= j < |lines| && ModeAt(lines, j) == Neutral ==> !IsDelimiterLine(lines[j]))
    && (forall j :: 0 < j < |lines| ==> !EndsAt(delimiter, lines, j))
    && EndsAt(delimiter, lines, |lines|)
  }

  function Start(delimiter: string): Splitter {
    Splitter("", delimiter, Neutral)
  }

  function Before(delimiter: string, lines: seq<string>, j: nat): Splitter
    requires j <= |lines|
  {
    Splitter(Buffer(lines, j), delimiter, ModeAt(lines, j))
  }

  function After(delimiter: string, lines: seq<string>): (Splitter, seq<string>) {
    (Start(delimiter), NonEmpty(Flushed(Buffer(lines, |lines|), delimiter)))
  }

  lemma {:induction false} PushAt(delimiter: string, lines: seq<string>, j: nat)
    requires delimiter != "" && j < |lines|
    requires ModeAt(lines, j) == Neutral ==> !IsDelimiterLine(lines[j])
    requires j == 0 ==> TrimSpace(lines[0]) != ""
    ensures !EndsAt(delimiter, lines, j + 1) ==>
      PushLine(Before(delimiter, lines, j), lines[j]) == (Before(delimiter, lines, j + 1), [])
    ensures j + 1 == |lines| && EndsAt(delimiter, lines, j + 1) ==>
      PushLine(Before(delimiter, lines, j), lines[j]) == After(delimiter, lines)
  {
  }

  lemma {:induction false} FeedRest(delimiter: string, lines: seq<string>, j: nat)
    requires j < |lines|
    requires forall k: nat {:trigger Before(delimiter, lines, k)} :: k < |lines| - 1 ==>
      PushLine(Before(delimiter, lines, k), lines[k]) == (Before(delimiter, lines, k + 1), [])
    requires PushLine(Before(delimiter, lines, |lines| - 1), lines[|lines| - 1]) == After(delimiter, lines)
    ensures Feed(Before(delimiter, lines, j), lines[j..]) == After(delimiter, lines)
    decreases |lines| - j
  {
    if j + 1 < |lines| {
      FeedRest(delimiter, lines, j + 1);
      FeedQuietly(Before(delimiter, lines, j), Before(delimiter, lines, j + 1), lines[j..]);
    } else {
      assert lines[j..] == [lines[j]];
      FeedOne(Before(delimiter, lines, j), lines[j]);
    }
  }

  lemma {:induction false} FeedOne(sp: Splitter, line: string)
    ensures Feed(sp, [line]) == PushLine(sp, line)
  {
    var (sp1, out1) := PushLine(sp, line);
    assert Feed(sp1, [line][1..]) == (sp1, []);
    assert out1 + [] == out1;
  }

  lemma {:induction false} FeedQuietly(sp: Splitter, sp': Splitter, lines: seq<string>)
    requires lines != [] && PushLine(sp, lines[0]) == (sp', [])
    ensures Feed(sp, lines) == Feed(sp', lines[1..])
  {
    var (sp2, out2) := Feed(sp', lines[1..]);
    assert [] + out2 == out2;
  }

  /** The splitter returns such lines as one statement and is ready for the next. */
  lemma {:induction false} FeedStatement(delimiter: string, lines: seq<string>)
    requires OneStatement(delimiter, lines)
    ensures Feed(Start(delimiter), lines) == After(delimiter, lines)
  {
    forall k: nat | k < |lines| - 1
      ensures PushLine(Before(delimiter, lines, k), lines[k]) == (Before(delimiter, lines, k + 1), [])
    {
      assert !EndsAt(delimiter, lines, k + 1);
      PushAt(delimiter, lines, k);
    }
    PushAt(delimiter, lines, |lines| - 1);
    FeedRest(delimiter, lines, 0);
    assert lines[0..] == lines;
  }

  lemma {:induction false} FeedConcat(sp: Splitter, a: seq<string>, b: seq<string>)
    ensures var (sp1, out1) := Feed(sp, a); var (sp2, out2) := Feed(sp1, b); Feed(sp, a + b) == (sp2, out1 + out2)
    decreases |a|
  {
    if a == [] {
      assert a + b == b;
      assert [] + Feed(sp, b).1 == Feed(sp, b).1;
    } else {
      var (sp0, out0) := PushLine(sp, a[0]);
      assert (a + b)[0] == a[0] && (a + b)[1..] == a[1..] + b;
      FeedConcat(sp0, a[1..], b);
      var (sp1, out1) := Feed(sp0, a[1..]);
      var (sp2, out2) := Feed(sp1, b);
      assert out0 + (out1 + out2) == (out0 + out1) + out2;
    }
  }

  // ---------------------------------------------------------------- texts

  predicate NoNewline(s: string) {
    '\n' !in s
  }

  lemma {:induction false} LinesOfLine(s: string)
    requires NoNewline(s)
    ensures Lines(s) == [s]
  {
    if s != "" {
      assert s == [s[0]] + s[1..];
      LinesOfLine(s[1..]);
    }
  }

  lemma {:induction false} LinesCons(c: char, t: string)
    ensures Lines([c] + t) == if c == '\n' then [""] + Lines(t) else Prepend(c, Lines(t))
  {
    assert ([c] + t)[1..] == t;
  }

  lemma {:induction false} PrependConcat(c: char, a: seq<string>, b: seq<string>)
    requires a != []
    ensures Prepend(c, a + b) == Prepend(c, a) + b
  {
    assert (a + b)[1..] == a[1..] + b;
  }

  lemma {:induction false} ConsList(c: char, ls: seq<string>, more: seq<string>)
    requires ls != []
    ensures (if c == '\n' then [""] + (ls + more) else Prepend(c, ls + more))
      == (if c == '\n' then [""] + ls else Prepend(c, ls)) + more
  {
    if c == '\n' {
      assert [""] + (ls + more) == ([""] + ls) + more;
    } else {
      PrependConcat(c, ls, more);
    }
  }

  lemma {:induction false} LinesConsConcat(c: char, t: string, x: string, more: seq<string>)
    requires Lines(t + x) == Lines(t) + more
    ensures Lines([c] + (t + x)) == Lines([c] + t) + more
  {
    LinesCons(c, t + x);
    LinesCons(c, t);
    ConsList(c, Lines(t), more);
  }

  lemma {:induction false} LinesConcat(a: string, b: string)
    ensures Lines(a + ("\n" + b)) == Lines(a) + Lines(b)
  {
    if a == "" {
      assert a + ("\n" + b) == ['\n'] + b;
      LinesCons('\n', b);
    } else {
      LinesConcat(a[1..], b);
      LinesConsConcat(a[0], a[1..], "\n" + b, Lines(b));
      ConsConcat(a, "\n" + b);
    }
  }

  /** The lines a dump is read back as: a last line without a newline counts if it is not empty. */
  function ReadLines(text: string): seq<string> {
    var ls := Lines(text);
    if ls[|ls| - 1] == "" then ls[..|ls| - 1] else ls
  }

  lemma {:induction false} ReadLinesConcat(a: string, b: string)
    ensures ReadLines(a + ("\n" + b)) == Lines(a) + ReadLines(b)
  {
    LinesConcat(a, b);
    var la, lb := Lines(a), Lines(b);
    assert (la + lb)[|la + lb| - 1] == lb[|lb| - 1];
    assert (la + lb)[..|la + lb| - 1] == la + lb[..|lb| - 1];
  }

  lemma {:induction false} BufferFrom(lines: seq<string>, j: nat)
    requires 0 < j <= |lines|
    ensures Buffer(lines, j) == lines[0] + "\n" + Buffer(lines[1..], j - 1)
  {
    if j > 1 {
      BufferFrom(lines, j - 1);
      assert lines[1..][j - 2] == lines[j - 1];
      assert Buffer(lines, j) == lines[0] + "\n" + (Buffer(lines[1..], j - 2) + lines[j - 1] + "\n");
    } else {
      assert Buffer(lines, 0) + lines[0] + "\n" == lines[0] + "\n";
      assert lines[0] + "\n" + "" == lines[0] + "\n";
    }
  }

  lemma {:induction false} BufferPrepend(c: char, ls: seq<string>)
    requires ls != []
    ensures Buffer(Prepend(c, ls), |ls|) == [c] + Buffer(ls, |ls|)
  {
    var ps := Prepend(c, ls);
    BufferFrom(ls, |ls|);
    BufferFrom(ps, |ls|);
    assert ps[1..] == ls[1..];
    var b := Buffer(ls[1..], |ls| - 1);
    assert [c] + (ls[0] + "\n" + b) == ([c] + ls[0]) + "\n" + b;
  }

  lemma {:induction false} BufferNewline(ls: seq<string>)
    ensures Buffer([""] + ls, |ls| + 1) == "\n" + Buffer(ls, |ls|)
  {
    BufferFrom([""] + ls, |ls| + 1);
    assert ([""] + ls)[1..] == ls;
    assert "" + "\n" + Buffer(ls, |ls|) == "\n" + Buffer(ls, |ls|);
  }

  lemma {:induction false} BufferOfLines(s: string)
    ensures Buffer(Lines(s), |Lines(s)|) == s + "\n"
  {
    if s == "" {
      BufferNewline([]);
      assert [""] + [] == [""];
    } else {
      var c, t := s[0], s[1..];
      BufferOfLines(t);
      ConsConcat(s, "\n");
      LinesCons(c, t);
      if c == '\n' {
        BufferNewline(Lines(t));
      } else {
        BufferPrepend(c, Lines(t));
      }
    }
  }

  // ---------------------------------------------------------------- scanning texts piece by piece

  /** The mode a text ends in, or None when a newline in it is met outside quotes and comments. */
  function TraceLines(ls: seq<string>, m: Mode): Option<Mode>
    requires ls != []
    decreases |ls|
  {
    if |ls| == 1 then Some(Scan(ls[0], m))
    else
      var m' := EndLine(Scan(ls[0], m));
      if m' == Neutral then None else TraceLines(ls[1..], m')
  }

  function Trace(s: string, m: Mode): Option<Mode> {
    TraceLines(Lines(s), m)
  }

  lemma {:induction false} TraceOne(c: char, t: string, m: Mode, m': Mode)
    requires c != '\n' && Turn([c] + Lines(t)[0], m) == (1, m')
    ensures Trace([c] + t, m) == Trace(t, m')
  {
    var ls := Lines(t);
    assert ([c] + t)[1..] == t;
    assert Lines([c] + t) == [[c] + ls[0]] + ls[1..];
    assert Drop([c] + ls[0], 1) == ls[0];
    assert Scan([c] + ls[0], m) == Scan(ls[0], m');
    assert ([[c] + ls[0]] + ls[1..])[1..] == ls[1..];
  }

  lemma {:induction false} TraceTwo(c: char, d: char, t: string, m: Mode, m': Mode)
    requires c != '\n' && d != '\n' && Turn([c, d] + Lines(t)[0], m) == (2, m')
    ensures Trace([c, d] + t, m) == Trace(t, m')
  {
    var ls := Lines(t);
    assert ([d] + t)[1..] == t && ([c, d] + t)[1..] == [d] + t;
    assert Lines([d] + t) == [[d] + ls[0]] + ls[1..];
    assert Lines([c, d] + t) == [[c, d] + ls[0]] + ls[1..] by {
      assert [c] + ([d] + ls[0]) == [c, d] + ls[0];
    }
    assert Drop([c, d] + ls[0], 2) == ls[0];
    assert Scan([c, d] + ls[0], m) == Scan(ls[0], m');
    assert ([[c, d] + ls[0]] + ls[1..])[1..] == ls[1..];
  }

  lemma {:induction false} TraceNewline(t: string, m: Mode)
    requires m in {Single, Double, Backtick, BlockComment}
    ensures Trace("\n" + t, m) == Trace(t, m)
  {
    assert ("\n" + t)[1..] == t;
    assert Lines("\n" + t) == [""] + Lines(t);
    assert ([""] + Lines(t))[1..] == Lines(t);
  }

  lemma {:induction false} FirstOfLines(t: string)
    requires t != "" && t[0] != '\n'
    ensures Lines(t)[0] != "" && Lines(t)[0][0] == t[0]
  {
  }

  predicate IsPlain(c: char) {
    c !in {'\'', '"', '`', '#', '-', '/', '\n'}
  }

  lemma {:induction false} TracePlain(p: string, t: string)
    requires forall i :: 0 <= i < |p| ==> IsPlain(p[i])
    ensures Trace(p + t, Neutral) == Trace(t, Neutral)
  {
    if p == "" {
      assert p + t == t;
    } else {
      assert p + t == [p[0]] + (p[1..] + t);
      TraceOne(p[0], p[1..] + t, Neutral, Neutral);
      TracePlain(p[1..], t);
    }
  }

  lemma {:induction false} TraceDash(t: string)
    requires t == "" || (t[0] != '-' && t[0] != '\n')
    ensures Trace("-" + t, Neutral) == Trace(t, Neutral)
  {
    if t != "" {
      FirstOfLines(t);
    }
    TraceOne('-', t, Neutral, Neutral);
  }

  lemma {:induction false} ModeShift(lines: seq<string>, m: Mode, j: nat)
    requires 0 < j <= |lines|
    ensures ModeFrom(lines, m, j) == ModeFrom(lines[1..], EndLine(Scan(lines[0], m)), j - 1)
  {
    if j > 1 {
      ModeShift(lines, m, j - 1);
      assert lines[1..][j - 2] == lines[j - 1];
    }
  }

  lemma {:induction false} ModePrefix(a: seq<string>, b: seq<string>, m: Mode, j: nat)
    requires j <= |a|
    ensures ModeFrom(a + b, m, j) == ModeFrom(a, m, j) && Buffer(a + b, j) == Buffer(a, j)
  {
    if j > 0 {
      ModePrefix(a, b, m, j - 1);
    }
  }

  /** A traced text stays inside quotes at each of its newlines. */
  lemma {:induction false} TracedModes(lines: seq<string>, m: Mode, j: nat)
    requires lines != [] && TraceLines(lines, m) == Some(Neutral) && 0 < j <= |lines|
    ensures ModeFrom(lines, m, j) == Neutral <==> j == |lines|
    decreases |lines|
  {
    ModeShift(lines, m, j);
    if |lines| > 1 && j > 1 {
      TracedModes(lines[1..], EndLine(Scan(lines[0], m)), j - 1);
    }
  }

  // ---------------------------------------------------------------- trimming

  lemma {:induction false} TrimKeepsFirst(s: string)
    requires s != "" && !IsSpace(s[0])
    ensures TrimSpace(s) != "" && TrimSpace(s)[0] == s[0]
  {
    TrimRightKeepsFirst(s);
  }

  lemma {:induction false} TrimRightKeepsFirst(s: string)
    requires s != "" && !IsSpace(s[0])
    ensures TrimRight(s) != "" && TrimRight(s)[0] == s[0]
  {
    if IsSpace(s[|s| - 1]) {
      TrimRightKeepsFirst(s[..|s| - 1]);
    }
  }

  lemma {:induction false} TrimLeftKeepsLast(s: string)
    requires s != "" && !IsSpace(s[|s| - 1])
    ensures TrimLeft(s) != "" && TrimLeft(s)[|TrimLeft(s)| - 1] == s[|s| - 1]
  {
    if IsSpace(s[0]) {
      TrimLeftKeepsLast(s[1..]);
    }
  }

  lemma {:induction false} TrimLeftSnoc(s: string, c: char)
    requires TrimLeft(s) != ""
    ensures TrimLeft(s + [c]) == TrimLeft(s) + [c]
  {
    assert (s + [c])[0] == s[0];
    if IsSpace(s[0]) {
      assert (s + [c])[1..] == s[1..] + [c];
      TrimLeftSnoc(s[1..], c);
    }
  }

  /** A text ends in its last character that is no space, so the newline after a line is trimmed away. */
  lemma {:induction false} TrimLine(s: string)
    requires s != "" && !IsSpace(s[|s| - 1])
    ensures TrimSpace(s + "\n") == TrimLeft(s)
    ensures TrimLeft(s) != "" && TrimLeft(s)[|TrimLeft(s)| - 1] == s[|s| - 1]
  {
    TrimLeftKeepsLast(s);
    TrimLeftSnoc(s, '\n');
    var t := TrimLeft(s);
    assert (t + "\n")[..|t + "\n"| - 1] == t && (t + "\n")[|t|] == '\n';
    assert TrimRight(t + "\n") == TrimRight(t) == t;
  }

  lemma {:induction false} NotDelimiter(line: string)
    requires line != "" && !IsSpace(line[0]) && Upper(line[0]) != 'D'
    ensures TrimSpace(line) != "" && !IsDelimiterLine(line)
  {
    TrimKeepsFirst(line);
    var t := ToUpper(TrimSpace(line));
    assert t[0] == Upper(line[0]) != "DELIMITER "[0];
  }

  // ---------------------------------------------------------------- growing a statement

  /** Line `j` is no DELIMITER command outside quotes and comments, and no statement ends before it. */
  ghost predicate QuietBefore(delimiter: string, lines: seq<string>, j: nat)
    requires j < |lines|
  {
    && (ModeAt(lines, j) == Neutral ==> !IsDelimiterLine(lines[j]))
    && (j > 0 ==> !EndsAt(delimiter, lines, j))
  }

  ghost predicate Quiet(delimiter: string, lines: seq<string>) {
    forall j: nat {:trigger QuietBefore(delimiter, lines, j)} :: j < |lines| ==> QuietBefore(delimiter, lines, j)
  }

  /** The lines so far are inside one statement and end outside quotes and comments. */
  ghost predicate Growing(delimiter: string, lines: seq<string>) {
    && lines != [] && TrimSpace(lines[0]) != ""
    && Quiet(delimiter, lines) && ModeAt(lines, |lines|) == Neutral
  }

  lemma {:induction false} QuietSnoc(delimiter: string, lines: seq<string>, line: string, j: nat)
    requires j <= |lines| && !IsDelimiterLine(line)
    requires if j < |lines| then QuietBefore(delimiter, lines, j) else !EndsAt(delimiter, lines, j)
    ensures QuietBefore(delimiter, lines + [line], j)
  {
    ModePrefix(lines, [line], Neutral, j);
    EndsPrefix(delimiter, lines, [line], j);
  }

  lemma {:induction false} GrowingSnoc(delimiter: string, lines: seq<string>, line: string)
    requires Growing(delimiter, lines) && !EndsAt(delimiter, lines, |lines|)
    requires Scan(line, Neutral) == Neutral && !IsDelimiterLine(line)
    ensures Growing(delimiter, lines + [line])
  {
    var ls := lines + [line];
    forall j: nat | j < |ls| ensures QuietBefore(delimiter, ls, j) {
      assert j < |lines| ==> QuietBefore(delimiter, lines, j);
      QuietSnoc(delimiter, lines, line, j);
    }
    GrowingEnd(lines, line);
  }

  lemma {:induction false} GrowingEnd(lines: seq<string>, line: string)
    requires lines != [] && ModeAt(lines, |lines|) == Neutral && Scan(line, Neutral) == Neutral
    ensures ModeAt(lines + [line], |lines| + 1) == Neutral && (lines + [line])[0] == lines[0]
  {
    ModePrefix(lines, [line], Neutral, |lines|);
  }

  /** Lines that grow and end where the delimiter is are one statement. */
  lemma {:induction false} GrownIsOne(delimiter: string, lines: seq<string>)
    requires delimiter != "" && Growing(delimiter, lines) && EndsAt(delimiter, lines, |lines|)
    ensures OneStatement(delimiter, lines)
  {
    forall j | 0 <= j < |lines| && ModeAt(lines, j) == Neutral ensures !IsDelimiterLine(lines[j]) {
      assert QuietBefore(delimiter, lines, j);
    }
    forall j | 0 < j < |lines| ensures !EndsAt(delimiter, lines, j) {
      assert QuietBefore(delimiter, lines, j);
    }
  }

  lemma {:induction false} EndsPrefix(delimiter: string, a: seq<string>, b: seq<string>, j: nat)
    requires j <= |a|
    ensures EndsAt(delimiter, a + b, j) == EndsAt(delimiter, a, j)
  {
    ModePrefix(a, b, Neutral, j);
  }

  /** A text that keeps its newlines inside quotes is inside one statement. */
  lemma {:induction false} GrowingText(delimiter: string, s: string)
    requires Trace(s, Neutral) == Some(Neutral)
    requires s != "" && s[0] != '\n' && !IsSpace(s[0]) && Upper(s[0]) != 'D'
    ensures Growing(delimiter, Lines(s))
  {
    var ls := Lines(s);
    FirstOfLines(s);
    NotDelimiter(ls[0]);
    forall j: nat | j < |ls| ensures QuietBefore(delimiter, ls, j) {
      if j > 0 {
        TracedModes(ls, Neutral, j);
      }
    }
    TracedModes(ls, Neutral, |ls|);
  }
}
