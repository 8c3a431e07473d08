/**
 The restore side's statement splitter: a line-fed lexer that knows quotes and comments and
 cuts the dump wherever a line leaves it outside both with the delimiter at the end.

 Characters are code points; a byte that is no valid UTF-8 is a character that is neither
 space nor letter nor quote.
 */
module SqlLexer {
  import opened Sequences

  // ---------------------------------------------------------------- text

  /** The characters Go's TrimSpace removes. */
  predicate IsSpace(c: char) {
    || c in {'\t', '\n', 11 as char, 12 as char, '\r', ' ', '\U{85}', '\U{A0}', '\U{1680}', '\U{2028}', '\U{2029}',
      '\U{202F}', '\U{205F}', '\U{3000}'}
    || '\U{2000}' <= c <= '\U{200A}'
  }

  function TrimLeft(s: string): string {
    if s != "" && IsSpace(s[0]) then TrimLeft(s[1..]) else s
  }

  function TrimRight(s: string): string {
    if s != "" && IsSpace(s[|s| - 1]) then TrimRight(s[..|s| - 1]) else s
  }

  function TrimSpace(s: string): string {
    TrimRight(TrimLeft(s))
  }

  /** Upper case as far as it can yield an ASCII letter. */
  function Upper(c: char): char {
    if 'a' <= c <= 'z' then c - 'a' + 'A'
    else if c == '\U{131}' then 'I'
    else if c == '\U{17F}' then 'S'
    else c
  }

  function ToUpper(s: string): (r: string)
    ensures |r| == |s| && forall i :: 0 <= i < |s| ==> r[i] == Upper(s[i])
  {
    seq(|s|, i requires 0 <= i < |s| => Upper(s[i]))
  }

  /** The bytes a character takes in UTF-8. */
  function Width(c: char): (n: nat)
    ensures 1 <= n <= 4
  {
    if c < '\U{80}' then 1 else if c < '\U{800}' then 2 else if c < '\U{10000}' then 3 else 4
  }

  /** The text after its first `n` bytes. A character cut in two would be dropped whole; no caller cuts one. */
  function AfterBytes(s: string, n: nat): string
    decreases |s|
  {
    if n == 0 || s == "" then s
    else if Width(s[0]) <= n then AfterBytes(s[1..], n - Width(s[0]))
    else s[1..]
  }

  function Prepend(c: char, ls: seq<string>): (r: seq<string>)
    requires ls != []
    ensures |r| == |ls|
  {
    [[c] + ls[0]] + ls[1..]
  }

  /** The pieces of a text between its newlines. */
  function Lines(s: string): (ls: seq<string>)
    ensures |ls| > 0
  {
    if s == "" then [""]
    else if s[0] == '\n' then [""] + Lines(s[1..])
    else Prepend(s[0], Lines(s[1..]))
  }

  // ---------------------------------------------------------------- the scanner

  datatype Mode = Neutral | Single | Double | Backtick | LineComment | BlockComment

  predicate Dashes(s: string)
    requires s != ""
  {
    s[0] == '-' && |s| > 1 && s[1] == '-' && (|s| == 2 || s[2] in {' ', '\t', '\r'})
  }

  /** One turn of the scan loop: how many characters it takes, and the mode it leaves. */
  function Turn(s: string, m: Mode): (r: (nat, Mode))
    requires s != ""
    ensures 1 <= r.0 <= 2
  {
    var c := s[0];
    match m
    case LineComment => (1, LineComment)
    case BlockComment => if c == '*' && |s| > 1 && s[1] == '/' then (2, Neutral) else (1, BlockComment)
    case Single =>
      if c == '\\' then (2, Single)
      else if c == '\'' then (if |s| > 1 && s[1] == '\'' then (2, Single) else (1, Neutral))
      else (1, Single)
    case Double => if c == '\\' then (2, Double) else if c == '"' then (1, Neutral) else (1, Double)
    case Backtick => if c == '`' then (1, Neutral) else (1, Backtick)
    case Neutral =>
      if c == '\'' then (1, Single)
      else if c == '"' then (1, Double)
      else if c == '`' then (1, Backtick)
      else if c == '#' || Dashes(s) then (1, LineComment)
      else if c == '/' && |s| > 1 && s[1] == '*' then (2, BlockComment)
      else (1, Neutral)
  }

  function Drop(s: string, n: nat): string {
    if n <= |s| then s[n..] else ""
  }

  /** The mode at the end of a line that starts in mode `m`. */
  function Scan(s: string, m: Mode): Mode
    decreases |s|
  {
    if s == "" then m else var (n, m') := Turn(s, m); Scan(Drop(s, n), m')
  }

  lemma {:induction false} DropDrop(line: string, i: nat, n: nat)
    requires i <= |line|
    ensures Drop(line[i..], n) == Drop(line, i + n)
  {
  }

  /** The mode at the end of the line, from position `i` on. */
  ghost predicate EndsIn(line: string, i: nat, m: Mode, end: Mode) {
    Scan(Drop(line, i), m) == end
  }

  lemma {:induction false} ScanStep(line: string, i: nat, m: Mode, next: nat, m': Mode, end: Mode)
    requires i < |line| && EndsIn(line, i, m, end)
    requires next == i + Turn(line[i..], m).0 && m' == Turn(line[i..], m).1
    ensures EndsIn(line, next, m', end)
  {
    DropDrop(line, i, Turn(line[i..], m).0);
  }

  lemma {:induction false} ScanEnds(line: string, m: Mode, end: Mode)
    ensures EndsIn(line, 0, m, end) <==> Scan(line, m) == end
    ensures forall i: nat :: i >= |line| ==> (EndsIn(line, i, m, end) <==> m == end)
  {
  }

  /** A line comment ends with its line. */
  function EndLine(m: Mode): Mode {
    if m == LineComment then Neutral else m
  }

  // ---------------------------------------------------------------- the splitter

  /** A splitter between two lines. */
  datatype Splitter = Splitter(buf: string, delimiter: string, mode: Mode)

  function Flushed(buf: string, delimiter: string): string {
    var s := TrimSpace(buf);
    if s == "" then ""
    else if delimiter != "" && HasSuffix(s, delimiter) then TrimSpace(s[..|s| - |delimiter|])
    else s
  }

  predicate EndsStatement(sp: Splitter) {
    sp.delimiter != "" && sp.mode == Neutral && HasSuffix(TrimSpace(sp.buf), sp.delimiter)
  }

  /** The length of the command word and the blank after it, in bytes, as the program cuts them off. */
  const DELIMITER_BYTES := 10

  predicate IsDelimiterLine(line: string) {
    "DELIMITER " <= ToUpper(TrimSpace(line))
  }

  function NonEmpty(s: string): seq<string> {
    if s == "" then [] else [s]
  }

  /** What one line does to the splitter, and the statements it completes. */
  function PushLine(sp: Splitter, line: string): (Splitter, seq<string>) {
    if sp.mode == Neutral && IsDelimiterLine(line) then
      (Splitter("", TrimSpace(AfterBytes(TrimSpace(line), DELIMITER_BYTES)), Neutral),
        NonEmpty(Flushed(sp.buf, sp.delimiter)))
    else if TrimSpace(line) == "" && sp.buf == "" then (sp, [])
    else
      var sp' := sp.(buf := sp.buf + line + "\n", mode := EndLine(Scan(line, sp.mode)));
      if EndsStatement(sp') then (sp'.(buf := ""), NonEmpty(Flushed(sp'.buf, sp'.delimiter))) else (sp', [])
  }

  function Feed(sp: Splitter, lines: seq<string>): (Splitter, seq<string>)
    decreases |lines|
  {
    if lines == [] then (sp, [])
    else
      var (sp1, out1) := PushLine(sp, lines[0]);
      var (sp2, out2) := Feed(sp1, lines[1..]);
      (sp2, out1 + out2)
  }

  class StmtSplitter {
    var buf: string
    var delimiter: string
    var inSingle: bool
    var inDouble: bool
    var inBacktick: bool
    var inLineComment: bool
    var inBlockComment: bool

    constructor ()
      ensures Valid() && View() == Splitter("", ";", Neutral) && !inLineComment
    {
      buf, delimiter := "", ";";
      inSingle, inDouble, inBacktick, inLineComment, inBlockComment := false, false, false, false, false;
    }

    /** At most one of the five flags is set. */
    ghost predicate Valid()
      reads this
    {
      && (inSingle ==> !inDouble && !inBacktick && !inLineComment && !inBlockComment)
      && (inDouble ==> !inBacktick && !inLineComment && !inBlockComment)
      && (inBacktick ==> !inLineComment && !inBlockComment)
      && (inLineComment ==> !inBlockComment)
    }

    function ModeOf(): Mode
      reads this
    {
      if inSingle then Single
      else if inDouble then Double
      else if inBacktick then Backtick
      else if inLineComment then LineComment
      else if inBlockComment then BlockComment
      else Neutral
    }

    function View(): Splitter
      reads this
    {
      Splitter(buf, delimiter, ModeOf())
    }

    predicate IsNeutral()
      reads this
    {
      !inSingle && !inDouble && !inBacktick && !inBlockComment
    }

    /** The body of the scan loop at position `i`; the result is the position of the next turn. */
    method ScanTurn(line: string, i: nat) returns (next: nat)
      requires Valid() && i < |line|
      modifies this`inSingle, this`inDouble, this`inBacktick, this`inLineComment, this`inBlockComment
      ensures Valid() && next == i + Turn(line[i..], old(ModeOf())).0 && ModeOf() == Turn(line[i..], old(ModeOf())).1
    {
      ghost var rest := line[i..];
      assert rest[0] == line[i];
      assert i + 1 < |line| ==> rest[1] == line[i + 1];
      assert i + 2 < |line| ==> rest[2] == line[i + 2];
      var c := line[i];
      next := i + 1;
      if inLineComment {
        return;
      }
      if inBlockComment {
        if c == '*' && i + 1 < |line| && line[i + 1] == '/' {
          inBlockComment := false;
          next := i + 2;
        }
        return;
      }
      if inSingle {
        if c == '\\' {
          next := i + 2;
        } else if c == '\'' {
          if i + 1 < |line| && line[i + 1] == '\'' {
            next := i + 2;
          } else {
            inSingle := false;
          }
        }
        return;
      }
      if inDouble {
        if c == '\\' {
          next := i + 2;
        } else if c == '"' {
          inDouble := false;
        }
        return;
      }
      if inBacktick {
        if c == '`' {
          inBacktick := false;
        }
        return;
      }
      if c == '\'' {
        inSingle := true;
      } else if c == '"' {
        inDouble := true;
      } else if c == '`' {
        inBacktick := true;
      } else if c == '#'
        || (c == '-' && i + 1 < |line| && line[i + 1] == '-'
            && (i + 2 >= |line| || line[i + 2] in {' ', '\t', '\r'})) {
        inLineComment := true;
      } else if c == '/' && i + 1 < |line| && line[i + 1] == '*' {
        inBlockComment := true;
        next := i + 2;
      }
    }

    method ScanLine(line: string)
      requires Valid()
      modifies this`inSingle, this`inDouble, this`inBacktick, this`inLineComment, this`inBlockComment
      ensures Valid() && ModeOf() == Scan(line, old(ModeOf()))
    {
      ghost var end := Scan(line, ModeOf());
      ScanEnds(line, ModeOf(), end);
      var i := 0;
      while i < |line|
        invariant 0 <= i && Valid() && EndsIn(line, i, ModeOf(), end)
      {
        ghost var mode := ModeOf();
        var next := ScanTurn(line, i);
        ScanStep(line, i, mode, next, ModeOf(), end);
        i := next;
      }
      ScanEnds(line, ModeOf(), end);
    }

    method Flush() returns (s: string)
      modifies this`buf
      ensures buf == "" && s == Flushed(old(buf), delimiter)
    {
      s := TrimSpace(buf);
      buf := "";
      if s == "" {
        return;
      }
      if delimiter != "" && HasSuffix(s, delimiter) {
        s := TrimSpace(s[..|s| - |delimiter|]);
      }
    }

    method Push(line: string) returns (done: seq<string>)
      requires Valid() && !inLineComment
      modifies this
      ensures Valid() && !inLineComment
      ensures (View(), done) == PushLine(old(View()), line)
    {
      done := [];
      var trimmed := TrimSpace(line);
      if IsNeutral() && !inLineComment && "DELIMITER " <= ToUpper(trimmed) {
        var s := Flush();
        if s != "" {
          done := [s];
        }
        delimiter := TrimSpace(AfterBytes(trimmed, DELIMITER_BYTES));
        return;
      }
      if trimmed == "" && buf == "" {
        inLineComment := false;
        return;
      }
      ScanLine(line);
      buf := buf + line;
      buf := buf + "\n";
      inLineComment := false;
      ghost var sp' := old(View()).(buf := old(buf) + line + "\n", mode := EndLine(Scan(line, old(ModeOf()))));
      assert View() == sp';
      if delimiter != "" && IsNeutral() && !inLineComment && HasSuffix(TrimSpace(buf), delimiter) {
        var s := Flush();
        if s != "" {
          done := [s];
        }
      }
    }
  }
}
