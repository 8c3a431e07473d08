/** The dumper's INSERT batches, and the splitter undoing them. */
module SqlDump {
  import opened Sequences
  import opened SqlLexer
  import opened SqlStatements
  import opened SqlEscape

  /**
   A column value by the branch of the dumper's type switch that prints it. `Number` is what
   fmt prints for an int64 or a float64.
   */
  datatype Value =
    | Null
    | Hex(bytes: seq<nat>)
    | RawBlob(s: string)
    | Number(text: string)
    | Boolean(b: bool)
    | Text(s: string)

  type Row = seq<Value>

  function HexDigit(n: nat): char {
    if n < 16 then "0123456789abcdef"[n] else '0'
  }

  function HexText(bytes: seq<nat>): string {
    if bytes == [] then "" else [HexDigit(bytes[0] / 16), HexDigit(bytes[0] % 16)] + HexText(bytes[1..])
  }

  predicate NumberChar(c: char) {
    '0' <= c <= '9' || c in {'+', '-', '.', 'e', 'E', 'I', 'N', 'a', 'f', 'n'}
  }

  /** Digits, signs and letters, and a minus sign always followed by a digit or a letter. */
  predicate IsNumber(s: string) {
    && (forall i :: 0 <= i < |s| ==> NumberChar(s[i]))
    && (forall i :: 0 <= i < |s| && s[i] == '-' ==> i + 1 < |s| && s[i + 1] != '-')
  }

  predicate Printable(v: Value) {
    v.Number? ==> IsNumber(v.text)
  }

  function Print(v: Value): string {
    match v
    case Null => "NULL"
    case Hex(bytes) => "0x" + HexText(bytes)
    case RawBlob(s) => "'" + EscapeBlob(s) + "'"
    case Number(text) => text
    case Boolean(b) => if b then "1" else "0"
    case Text(s) => "'" + EscapeString(s) + "'"
  }

  function PrintAll(row: Row): (r: seq<string>)
    ensures |r| == |row|
  {
    seq(|row|, i requires 0 <= i < |row| => Print(row[i]))
  }

  function PrintRow(row: Row): string {
    "(" + Join(PrintAll(row), ", ") + ")"
  }

  function Quoted(names: seq<string>): (r: seq<string>)
    ensures |r| == |names|
  {
    seq(|names|, i requires 0 <= i < |names| => QuoteIdent(names[i]))
  }

  /** The first lines of a batch, up to VALUES. */
  function Head(table: string, cols: seq<string>): string {
    "INSERT INTO " + QuoteIdent(table) + " (" + Join(Quoted(cols), ", ") + ") VALUES"
  }

  // ---------------------------------------------------------------- scanning rows

  lemma {:induction false} HexPlain(bytes: seq<nat>)
    ensures forall i :: 0 <= i < |HexText(bytes)| ==> IsPlain(HexText(bytes)[i])
  {
    if bytes != [] {
      HexPlain(bytes[1..]);
    }
  }

  lemma {:induction false} TraceNumber(s: string, t: string)
    requires IsNumber(s)
    ensures Trace(s + t, Neutral) == Trace(t, Neutral)
  {
    if s == "" {
      assert s + t == t;
    } else {
      var x := s[1..] + t;
      assert s + t == [s[0]] + x;
      TraceNumber(s[1..], t);
      if s[0] == '-' {
        assert x[0] == s[1];
        TraceDash(x);
      } else {
        TraceOne(s[0], x, Neutral, Neutral);
      }
    }
  }

  lemma {:induction false} TraceValue(v: Value, t: string)
    requires Printable(v)
    requires t == "" || (t[0] != '\'' && t[0] != '\n')
    ensures Trace(Print(v) + t, Neutral) == Trace(t, Neutral)
  {
    match v
    case Null => TracePlain("NULL", t);
    case Hex(bytes) => HexPlain(bytes); TracePlain(Print(v), t);
    case RawBlob(s) => PassesAreOneSubstitution(s); TraceLiteral(s, true, t);
    case Number(text) => TraceNumber(text, t);
    case Boolean(b) => TracePlain(Print(v), t);
    case Text(s) => PassesAreOneSubstitution(s); TraceLiteral(s, false, t);
  }

  lemma {:induction false} PrintAllCons(row: Row)
    requires row != []
    ensures PrintAll(row)[0] == Print(row[0]) && PrintAll(row)[1..] == PrintAll(row[1..])
  {
  }

  lemma {:induction false} JoinThen(parts: seq<string>, sep: string, t: string)
    requires |parts| > 1
    ensures Join(parts, sep) + t == parts[0] + (sep + (Join(parts[1..], sep) + t))
  {
    var a, b, c := parts[0], sep, Join(parts[1..], sep);
    assert a + b + c + t == a + (b + (c + t));
  }

  lemma {:induction false} TraceValues(row: Row, t: string)
    requires forall v :: v in row ==> Printable(v)
    requires t == "" || (t[0] != '\'' && t[0] != '\n')
    ensures Trace(Join(PrintAll(row), ", ") + t, Neutral) == Trace(t, Neutral)
  {
    if row == [] {
      assert "" + t == t;
    } else {
      PrintAllCons(row);
      if |row| == 1 {
        TraceValue(row[0], t);
      } else {
        var x := Join(PrintAll(row[1..]), ", ") + t;
        JoinThen(PrintAll(row), ", ", t);
        TraceValue(row[0], ", " + x);
        TracePlain(", ", x);
        TraceValues(row[1..], t);
      }
    }
  }

  lemma {:induction false} TraceRow(row: Row, t: string)
    requires forall v :: v in row ==> Printable(v)
    ensures Trace(PrintRow(row) + t, Neutral) == Trace(t, Neutral)
  {
    var x := ")" + t;
    assert PrintRow(row) + t == "(" + (Join(PrintAll(row), ", ") + x);
    TracePlain("(", Join(PrintAll(row), ", ") + x);
    TraceValues(row, x);
    TracePlain(")", t);
  }

  lemma {:induction false} ValueOnOneLine(v: Value)
    requires Printable(v)
    ensures NoNewline(Print(v))
  {
    match v
    case Hex(bytes) => HexPlain(bytes);
    case RawBlob(s) => PassesAreOneSubstitution(s); EscapedOnOneLine(s, true);
    case Text(s) => PassesAreOneSubstitution(s); EscapedOnOneLine(s, false);
    case _ =>
  }

  lemma {:induction false} RowOnOneLine(row: Row)
    requires forall v :: v in row ==> Printable(v)
    ensures NoNewline(Join(PrintAll(row), ", "))
  {
    if row != [] {
      PrintAllCons(row);
      ValueOnOneLine(row[0]);
      RowOnOneLine(row[1..]);
    }
  }

  // ---------------------------------------------------------------- scanning the head

  lemma {:induction false} TraceNames(names: seq<string>, t: string)
    ensures Trace(Join(Quoted(names), ", ") + t, Neutral) == Trace(t, Neutral)
  {
    if names == [] {
      assert "" + t == t;
    } else {
      assert Quoted(names)[1..] == Quoted(names[1..]);
      if |names| == 1 {
        TraceIdent(names[0], t);
      } else {
        var x := Join(Quoted(names[1..]), ", ") + t;
        JoinThen(Quoted(names), ", ", t);
        TraceIdent(names[0], ", " + x);
        TracePlain(", ", x);
        TraceNames(names[1..], t);
      }
    }
  }

  lemma {:induction false} TraceValuesKeyword()
    ensures Trace(") VALUES", Neutral) == Some(Neutral)
  {
    assert ") VALUES" + "" == ") VALUES";
    TracePlain(") VALUES", "");
  }

  lemma {:induction false} HeadParts(a: string, b: string, c: string, d: string, e: string)
    ensures a + b + c + d + e == a + (b + (c + (d + e)))
  {
  }

  /** The head ends outside quotes, and its own newlines, if any, are inside quoted names. */
  lemma {:induction false} TraceHead(table: string, cols: seq<string>)
    ensures Trace(Head(table, cols), Neutral) == Some(Neutral)
  {
    var names := Join(Quoted(cols), ", ");
    HeadParts("INSERT INTO ", QuoteIdent(table), " (", names, ") VALUES");
    TracePlain("INSERT INTO ", QuoteIdent(table) + (" (" + (names + ") VALUES")));
    TraceIdent(table, " (" + (names + ") VALUES"));
    TracePlain(" (", names + ") VALUES");
    TraceNames(cols, ") VALUES");
    TraceValuesKeyword();
  }

  // ---------------------------------------------------------------- batches

  /** The rows of a batch on their lines, without what ends the last one. */
  function Body(rows: seq<Row>): string {
    if rows == [] then ""
    else if |rows| == 1 then PrintRow(rows[0])
    else Body(rows[..|rows| - 1]) + ",\n" + PrintRow(rows[|rows| - 1])
  }

  /** The statement of a batch: its text without the final semicolon. */
  function Statement(table: string, cols: seq<string>, rows: seq<Row>): string {
    Head(table, cols) + "\n" + Body(rows)
  }

  function BatchText(table: string, cols: seq<string>, rows: seq<Row>): string {
    Statement(table, cols, rows) + ";\n"
  }

  ghost predicate PrintableRow(row: Row) {
    forall v :: v in row ==> Printable(v)
  }

  ghost predicate PrintableRows(rows: seq<Row>) {
    forall i :: 0 <= i < |rows| ==> PrintableRow(rows[i])
  }

  /** A row's line, with the comma or semicolon after it, is scanned without a trace. */
  lemma {:induction false} RowLine(row: Row, c: char)
    requires PrintableRow(row) && c in {',', ';'}
    ensures NoNewline(PrintRow(row) + [c]) && Scan(PrintRow(row) + [c], Neutral) == Neutral
    ensures !IsDelimiterLine(PrintRow(row) + [c])
  {
    var line := PrintRow(row) + [c];
    RowOnOneLine(row);
    TraceRow(row, [c]);
    assert [c] + "" == [c];
    TracePlain([c], "");
    LinesOfLine(line);
    assert Trace(line, Neutral) == Some(Scan(line, Neutral));
    assert line[0] == '(';
    NotDelimiter(line);
  }

  lemma {:induction false} LastOf(s: string, c: char)
    ensures s + [c] != "" && (s + [c])[|s + [c]| - 1] == c
  {
  }

  /** A statement does not end after a line that ends in a character other than the delimiter. */
  lemma {:induction false} LineEnd(s: string)
    requires s != "" && !IsSpace(s[|s| - 1])
    ensures EndsAt(";", Lines(s), |Lines(s)|) <==> ModeAt(Lines(s), |Lines(s)|) == Neutral && s[|s| - 1] == ';'
  {
    BufferOfLines(s);
    TrimLine(s);
    var t := TrimLeft(s);
    assert t[|t| - 1..] == [t[|t| - 1]];
    assert HasSuffix(t, ";") <==> t[|t| - 1] == ';';
  }

  lemma {:induction false} HeadGrows(table: string, cols: seq<string>)
    ensures Growing(";", Lines(Head(table, cols)))
    ensures !EndsAt(";", Lines(Head(table, cols)), |Lines(Head(table, cols))|)
  {
    var h := Head(table, cols);
    assert h[0] == 'I' && h[|h| - 1] == 'S';
    TraceHead(table, cols);
    GrowingText(";", h);
    LineEnd(h);
  }

  /** The lines of one more row. */
  lemma {:induction false} RowLines(s: string, row: Row, c: char)
    requires PrintableRow(row) && c in {',', ';'}
    ensures Lines(s + "\n" + PrintRow(row) + [c]) == Lines(s) + [PrintRow(row) + [c]]
  {
    var line := PrintRow(row) + [c];
    assert s + "\n" + PrintRow(row) + [c] == s + ("\n" + line);
    RowLine(row, c);
    LinesConcat(s, line);
    LinesOfLine(line);
  }

  lemma {:induction false} RowGrows(s: string, row: Row, c: char)
    requires Growing(";", Lines(s)) && !EndsAt(";", Lines(s), |Lines(s)|)
    requires PrintableRow(row) && c in {',', ';'}
    ensures Growing(";", Lines(s + "\n" + PrintRow(row) + [c]))
  {
    RowLines(s, row, c);
    RowLine(row, c);
    GrowingSnoc(";", Lines(s), PrintRow(row) + [c]);
  }

  lemma {:induction false} RowEnds(s: string, c: char)
    requires Growing(";", Lines(s + [c])) && c in {',', ';'}
    ensures EndsAt(";", Lines(s + [c]), |Lines(s + [c])|) <==> c == ';'
  {
    LastOf(s, c);
    LineEnd(s + [c]);
  }

  lemma {:induction false} StatementSnoc(table: string, cols: seq<string>, rows: seq<Row>)
    requires |rows| > 1
    ensures Statement(table, cols, rows)
      == Statement(table, cols, rows[..|rows| - 1]) + "," + "\n" + PrintRow(rows[|rows| - 1])
  {
    var h, b, r := Head(table, cols) + "\n", Body(rows[..|rows| - 1]), PrintRow(rows[|rows| - 1]);
    assert h + (b + ",\n" + r) == h + b + "," + "\n" + r;
  }

  /** The lines of a batch grow into one statement, which a semicolon ends and a comma does not. */
  lemma {:induction false} BatchGrows(table: string, cols: seq<string>, rows: seq<Row>, c: char)
    requires rows != [] && PrintableRows(rows) && c in {',', ';'}
    ensures var ls := Lines(Statement(table, cols, rows) + [c]);
      Growing(";", ls) && (EndsAt(";", ls, |ls|) <==> c == ';')
    decreases |rows|
  {
    if |rows| == 1 {
      HeadGrows(table, cols);
      RowGrows(Head(table, cols), rows[0], c);
      RowEnds(Statement(table, cols, rows), c);
    } else {
      var front := rows[..|rows| - 1];
      BatchGrows(table, cols, front, ',');
      RowGrows(Statement(table, cols, front) + ",", rows[|rows| - 1], c);
      StatementSnoc(table, cols, rows);
      RowEnds(Statement(table, cols, rows), c);
    }
  }

  lemma {:induction false} StatementShape(table: string, cols: seq<string>, rows: seq<Row>)
    requires rows != []
    ensures var s := Statement(table, cols, rows); s != "" && s[0] == 'I' && s[|s| - 1] == ')'
  {
    if |rows| > 1 {
      StatementSnoc(table, cols, rows);
    }
  }

  lemma {:induction false} FlushStatement(s: string)
    requires s != "" && !IsSpace(s[0]) && !IsSpace(s[|s| - 1])
    ensures Flushed(s + ";" + "\n", ";") == s
  {
    TrimLine(s + ";");
    assert TrimLeft(s + ";") == s + ";";
    assert (s + ";")[..|s + ";"| - 1] == s;
    assert HasSuffix(s + ";", ";");
    assert TrimSpace(s) == s;
  }

  /** The splitter returns a batch as one statement: its text without the final semicolon. */
  lemma {:induction false} FeedBatch(table: string, cols: seq<string>, rows: seq<Row>)
    requires rows != [] && PrintableRows(rows)
    ensures Feed(Start(";"), Lines(Statement(table, cols, rows) + ";")) == (Start(";"), [Statement(table, cols, rows)])
  {
    var s := Statement(table, cols, rows);
    BatchGrows(table, cols, rows, ';');
    StatementShape(table, cols, rows);
    FeedGrown(s);
  }

  lemma {:induction false} FeedGrown(s: string)
    requires s != "" && !IsSpace(s[0]) && !IsSpace(s[|s| - 1])
    requires Growing(";", Lines(s + ";")) && EndsAt(";", Lines(s + ";"), |Lines(s + ";")|)
    ensures Feed(Start(";"), Lines(s + ";")) == (Start(";"), [s])
  {
    GrownIsOne(";", Lines(s + ";"));
    FeedStatement(";", Lines(s + ";"));
    BufferOfLines(s + ";");
    FlushStatement(s);
  }

  // ---------------------------------------------------------------- the dumper's loop

  function ByteLen(s: string): nat {
    if s == "" then 0 else Width(s[0]) + ByteLen(s[1..])
  }

  /** The buffer of a batch has reached the limit. */
  predicate IsFull(table: string, cols: seq<string>, rows: seq<Row>, limit: int) {
    limit > 0 && ByteLen(Statement(table, cols, rows)) >= limit
  }

  function Full(table: string, cols: seq<string>, limit: int): seq<Row> -> bool {
    (rows: seq<Row>) => IsFull(table, cols, rows, limit)
  }

  /** A batch ends with the first row that makes it full. */
  ghost predicate Cut(full: seq<Row> -> bool, rows: seq<Row>) {
    rows != [] && forall k :: 0 < k < |rows| ==> !full(rows[..k])
  }

  /** The rows in order, cut into batches; only the last may be less than full. */
  ghost predicate Batched(full: seq<Row> -> bool, rows: seq<Row>, batches: seq<seq<Row>>) {
    && Flatten(batches) == rows
    && (forall i :: 0 <= i < |batches| ==> Cut(full, batches[i]))
    && (forall i :: 0 <= i < |batches| - 1 ==> full(batches[i]))
  }

  function Dump(table: string, cols: seq<string>, batches: seq<seq<Row>>): string {
    if batches == [] then "" else BatchText(table, cols, batches[0]) + Dump(table, cols, batches[1..])
  }

  lemma {:induction false} DumpSnoc(table: string, cols: seq<string>, batches: seq<seq<Row>>, rows: seq<Row>)
    ensures Dump(table, cols, batches + [rows]) == Dump(table, cols, batches) + BatchText(table, cols, rows)
  {
    var t := BatchText(table, cols, rows);
    if batches == [] {
      assert batches + [rows] == [rows] && [rows][1..] == [];
      assert t + "" == "" + t;
    } else {
      assert (batches + [rows])[0] == batches[0] && (batches + [rows])[1..] == batches[1..] + [rows];
      DumpSnoc(table, cols, batches[1..], rows);
      assert BatchText(table, cols, batches[0]) + (Dump(table, cols, batches[1..]) + t)
          == (BatchText(table, cols, batches[0]) + Dump(table, cols, batches[1..])) + t;
    }
  }

  lemma {:induction false} JoinSnoc(parts: seq<string>, p: string, sep: string)
    requires parts != []
    ensures Join(parts + [p], sep) == Join(parts, sep) + sep + p
  {
    assert (parts + [p])[1..] == parts[1..] + [p];
    if |parts| == 1 {
      assert parts[1..] + [p] == [p];
    } else {
      JoinSnoc(parts[1..], p, sep);
      var a, b := parts[0], Join(parts[1..], sep);
      assert a + sep + (b + sep + p) == (a + sep + b) + sep + p;
    }
  }

  method FormatRow(row: Row) returns (s: string)
    ensures s == PrintRow(row)
  {
    s := "(";
    var i := 0;
    while i < |row|
      invariant 0 <= i <= |row|
      invariant s == "(" + Join(PrintAll(row[..i]), ", ")
    {
      assert PrintAll(row[..i + 1]) == PrintAll(row[..i]) + [Print(row[i])];
      if i > 0 {
        JoinSnoc(PrintAll(row[..i]), Print(row[i]), ", ");
        s := s + ", ";
      }
      s := s + Print(row[i]);
      i := i + 1;
    }
    assert row[..i] == row;
    s := s + ")";
  }

  /** Where the batching stands: closed batches, the open one in `cur`, the rest of the rows to come. */
  ghost predicate Progress(full: seq<Row> -> bool, rows: seq<Row>, i: nat, batches: seq<seq<Row>>, cur: seq<Row>)
    requires i <= |rows|
  {
    && Flatten(batches) + cur == rows[..i]
    && (forall k :: 0 <= k < |batches| ==> Cut(full, batches[k]) && full(batches[k]))
    && (cur != [] ==> Cut(full, cur) && !full(cur))
  }

  lemma {:induction false} ProgressRow(full: seq<Row> -> bool, rows: seq<Row>, i: nat, batches: seq<seq<Row>>,
      cur: seq<Row>)
    requires i < |rows| && Progress(full, rows, i, batches, cur)
    ensures var cur' := cur + [rows[i]];
      && Cut(full, cur')
      && (!full(cur') ==> Progress(full, rows, i + 1, batches, cur'))
      && (full(cur') ==> Progress(full, rows, i + 1, batches + [cur'], []))
  {
    var cur' := cur + [rows[i]];
    assert rows[..i + 1] == rows[..i] + [rows[i]];
    assert Flatten(batches) + cur' == (Flatten(batches) + cur) + [rows[i]];
    forall k | 0 < k < |cur'| ensures !full(cur'[..k]) {
      if k < |cur| {
        assert cur'[..k] == cur[..k];
      } else {
        assert cur'[..k] == cur;
      }
    }
    FlattenSnoc(batches, cur');
    assert Flatten(batches + [cur']) + [] == Flatten(batches + [cur']);
  }

  lemma {:induction false} StatementNext(table: string, cols: seq<string>, cur: seq<Row>, row: Row)
    ensures Statement(table, cols, cur + [row])
         == (if cur == [] then Head(table, cols) + "\n" else Statement(table, cols, cur) + ",\n") + PrintRow(row)
  {
    var rows := cur + [row];
    assert rows[..|rows| - 1] == cur && rows[|rows| - 1] == row;
    if cur != [] {
      var h := Head(table, cols) + "\n";
      assert h + (Body(cur) + ",\n" + PrintRow(row)) == (h + Body(cur)) + ",\n" + PrintRow(row);
    }
  }

  /** Writes one row, after the header or after a comma. */
  method AddRow(table: string, cols: seq<string>, sb: string, rowsInBatch: nat, row: Row, ghost cur: seq<Row>)
    returns (sb': string)
    requires rowsInBatch == |cur| && sb == if cur == [] then "" else Statement(table, cols, cur)
    ensures sb' == Statement(table, cols, cur + [row])
  {
    StatementNext(table, cols, cur, row);
    if rowsInBatch == 0 {
      sb' := sb + (Head(table, cols) + "\n");
    } else {
      sb' := sb + ",\n";
    }
    var text := FormatRow(row);
    sb' := sb' + text;
  }

  lemma {:induction false} AllBatched(full: seq<Row> -> bool, rows: seq<Row>, batches: seq<seq<Row>>, cur: seq<Row>)
    requires Progress(full, rows, |rows|, batches, cur)
    ensures Batched(full, rows, if cur == [] then batches else batches + [cur])
  {
    assert rows[..|rows|] == rows;
    FlattenSnoc(batches, cur);
    assert Flatten(batches) + [] == Flatten(batches);
  }

  /** What has been written, and what waits in the buffer. */
  ghost predicate Streaming(full: seq<Row> -> bool, table: string, cols: seq<string>, rows: seq<Row>, i: nat,
      batches: seq<seq<Row>>, cur: seq<Row>, out: string, sb: string)
    requires i <= |rows|
  {
    && Progress(full, rows, i, batches, cur)
    && out == Dump(table, cols, batches) && sb == if cur == [] then "" else Statement(table, cols, cur)
  }

  /** The next row joins the open batch. */
  lemma {:induction false} StreamOpen(full: seq<Row> -> bool, table: string, cols: seq<string>, rows: seq<Row>, i: nat,
      batches: seq<seq<Row>>, cur: seq<Row>, out: string, sb: string)
    requires i < |rows| && Streaming(full, table, cols, rows, i, batches, cur, out, sb) && !full(cur + [rows[i]])
    ensures Streaming(full, table, cols, rows, i + 1, batches, cur + [rows[i]], out,
      Statement(table, cols, cur + [rows[i]]))
  {
    ProgressRow(full, rows, i, batches, cur);
  }

  /** The next row fills the batch, which is written. */
  lemma {:induction false} StreamFlush(full: seq<Row> -> bool, table: string, cols: seq<string>, rows: seq<Row>, i: nat,
      batches: seq<seq<Row>>, cur: seq<Row>, out: string, sb: string)
    requires i < |rows| && Streaming(full, table, cols, rows, i, batches, cur, out, sb) && full(cur + [rows[i]])
    ensures Streaming(full, table, cols, rows, i + 1, batches + [cur + [rows[i]]], [],
      out + (Statement(table, cols, cur + [rows[i]]) + ";\n"), "")
  {
    ProgressRow(full, rows, i, batches, cur);
    DumpSnoc(table, cols, batches, cur + [rows[i]]);
  }

  /** After the last row an open batch is written too. */
  lemma {:induction false} StreamEnd(full: seq<Row> -> bool, table: string, cols: seq<string>, rows: seq<Row>,
      batches: seq<seq<Row>>, cur: seq<Row>, out: string, sb: string)
    requires Streaming(full, table, cols, rows, |rows|, batches, cur, out, sb)
    ensures cur == [] ==> out == Dump(table, cols, batches) && Batched(full, rows, batches)
    ensures cur != [] ==>
      out + (sb + ";\n") == Dump(table, cols, batches + [cur]) && Batched(full, rows, batches + [cur])
  {
    AllBatched(full, rows, batches, cur);
    DumpSnoc(table, cols, batches, cur);
  }

  /** One turn of the loop: writes the row to the buffer, and the buffer out once it has reached the limit. */
  method StreamRow(table: string, cols: seq<string>, rows: seq<Row>, i: nat, batchBytes: int, out: string, sb: string,
      rowsInBatch: nat,
                   ghost batches: seq<seq<Row>>, ghost cur: seq<Row>)
    returns (out': string, sb': string, rowsInBatch': nat, ghost batches': seq<seq<Row>>, ghost cur': seq<Row>)
    requires i < |rows| && rowsInBatch == |cur|
    requires Streaming(Full(table, cols, batchBytes), table, cols, rows, i, batches, cur, out, sb)
    ensures rowsInBatch' == |cur'|
    ensures Streaming(Full(table, cols, batchBytes), table, cols, rows, i + 1, batches', cur', out', sb')
  {
    sb' := AddRow(table, cols, sb, rowsInBatch, rows[i], cur);
    if batchBytes > 0 && ByteLen(sb') >= batchBytes {
      StreamFlush(Full(table, cols, batchBytes), table, cols, rows, i, batches, cur, out, sb);
      out', batches' := out + (sb' + ";\n"), batches + [cur + [rows[i]]];
      sb', rowsInBatch', cur' := "", 0, [];
    } else {
      StreamOpen(Full(table, cols, batchBytes), table, cols, rows, i, batches, cur, out, sb);
      out', rowsInBatch', batches', cur' := out, rowsInBatch + 1, batches, cur + [rows[i]];
    }
  }

  /** Streams the rows as INSERT batches. */
  method StreamRows(table: string, cols: seq<string>, rows: seq<Row>, batchBytes: int)
    returns (out: string, ghost batches: seq<seq<Row>>)
    ensures cols == [] ==> out == ""
    ensures cols != [] ==> out == Dump(table, cols, batches) && Batched(Full(table, cols, batchBytes), rows, batches)
  {
    out, batches := "", [];
    if cols == [] {
      return;
    }
    var sb := "";
    var rowsInBatch := 0;
    ghost var cur: seq<Row> := [];
    var i := 0;
    while i < |rows|
      invariant 0 <= i <= |rows| && rowsInBatch == |cur|
      invariant Streaming(Full(table, cols, batchBytes), table, cols, rows, i, batches, cur, out, sb)
    {
      out, sb, rowsInBatch, batches, cur := StreamRow(table, cols, rows, i, batchBytes, out, sb, rowsInBatch,
        batches, cur);
      i := i + 1;
    }
    StreamEnd(Full(table, cols, batchBytes), table, cols, rows, batches, cur, out, sb);
    if rowsInBatch > 0 {
      out, batches := out + (sb + ";\n"), batches + [cur];
    }
  }

  // ---------------------------------------------------------------- the round trip

  function Statements(table: string, cols: seq<string>, batches: seq<seq<Row>>): (r: seq<string>)
    ensures |r| == |batches| && forall i :: 0 <= i < |batches| ==> r[i] == Statement(table, cols, batches[i])
  {
    seq(|batches|, i requires 0 <= i < |batches| => Statement(table, cols, batches[i]))
  }

  lemma {:induction false} DumpLines(s: string, rest: string)
    ensures ReadLines(s + ";\n" + rest) == Lines(s + ";") + ReadLines(rest)
  {
    assert s + ";\n" + rest == (s + ";") + ("\n" + rest);
    ReadLinesConcat(s + ";", rest);
  }

  lemma {:induction false} FeedTwo(sp: Splitter, a: seq<string>, b: seq<string>, outA: seq<string>, outB: seq<string>)
    ensures Feed(sp, a) == (sp, outA) && Feed(sp, b) == (sp, outB) ==> Feed(sp, a + b) == (sp, outA + outB)
  {
    FeedConcat(sp, a, b);
  }

  lemma {:induction false} StatementsCons(table: string, cols: seq<string>, batches: seq<seq<Row>>)
    requires batches != []
    ensures Statements(table, cols, batches)
      == [Statement(table, cols, batches[0])] + Statements(table, cols, batches[1..])
  {
  }

  /** Read back line by line, a dump is exactly one statement per batch, whatever the values hold. */
  lemma {:induction false} DumpSplits(table: string, cols: seq<string>, batches: seq<seq<Row>>)
    requires forall i :: 0 <= i < |batches| ==> batches[i] != [] && PrintableRows(batches[i])
    ensures Feed(Start(";"), ReadLines(Dump(table, cols, batches))) == (Start(";"), Statements(table, cols, batches))
  {
    if batches == [] {
      assert ReadLines("") == [];
    } else {
      var first, rest := Statement(table, cols, batches[0]), Dump(table, cols, batches[1..]);
      DumpLines(first, rest);
      FeedBatch(table, cols, batches[0]);
      DumpSplits(table, cols, batches[1..]);
      FeedTwo(Start(";"), Lines(first + ";"), ReadLines(rest), [first], Statements(table, cols, batches[1..]));
      StatementsCons(table, cols, batches);
    }
  }

  lemma {:induction false} BatchesPrintable(batches: seq<seq<Row>>, i: nat)
    requires PrintableRows(Flatten(batches)) && i < |batches|
    ensures PrintableRows(batches[i])
  {
    var head, rest := batches[0], Flatten(batches[1..]);
    if i == 0 {
      forall k | 0 <= k < |head| ensures PrintableRow(head[k]) {
        assert (head + rest)[k] == head[k];
      }
    } else {
      forall k | 0 <= k < |rest| ensures PrintableRow(rest[k]) {
        assert (head + rest)[|head| + k] == rest[k];
      }
      BatchesPrintable(batches[1..], i - 1);
    }
  }

  /** Dump the rows, read the text back, split it: one statement per batch. */
  method DumpAndSplit(table: string, cols: seq<string>, rows: seq<Row>, batchBytes: int)
    returns (statements: seq<string>, ghost batches: seq<seq<Row>>)
    requires cols != [] && PrintableRows(rows)
    ensures Batched(Full(table, cols, batchBytes), rows, batches)
    ensures statements == Statements(table, cols, batches)
  {
    var text;
    text, batches := StreamRows(table, cols, rows, batchBytes);
    forall i | 0 <= i < |batches|
      ensures batches[i] != [] && PrintableRows(batches[i])
    {
      BatchesPrintable(batches, i);
    }
    DumpSplits(table, cols, batches);
    NothingLeft(ReadLines(text), Statements(table, cols, batches));
    statements := SplitLines(ReadLines(text));
  }

  lemma {:induction false} NothingLeft(lines: seq<string>, statements: seq<string>)
    requires Feed(Start(";"), lines) == (Start(";"), statements)
    ensures SplitAll(lines) == statements
  {
    assert TrimSpace("") == "";
    assert statements + [] == statements;
  }

  /** All statements of a text: those the lines end, and what is left when the lines run out. */
  function SplitAll(lines: seq<string>): seq<string> {
    var (sp, done) := Feed(Start(";"), lines);
    done + NonEmpty(Flushed(sp.buf, sp.delimiter))
  }

  method SplitLines(lines: seq<string>) returns (statements: seq<string>)
    ensures statements == SplitAll(lines)
  {
    var sp := new StmtSplitter();
    statements := [];
    var i := 0;
    assert lines[0..] == lines;
    while i < |lines|
      invariant 0 <= i <= |lines| && sp.Valid() && !sp.inLineComment
      invariant statements + Feed(sp.View(), lines[i..]).1 == Feed(Start(";"), lines).1
      invariant Feed(sp.View(), lines[i..]).0 == Feed(Start(";"), lines).0
    {
      assert lines[i..][0] == lines[i] && lines[i..][1..] == lines[i + 1..];
      ghost var before := sp.View();
      var done := sp.Push(lines[i]);
      assert Feed(before, lines[i..]).1 == done + Feed(sp.View(), lines[i + 1..]).1;
      Regroup(statements, done, Feed(sp.View(), lines[i + 1..]).1);
      statements := statements + done;
      i := i + 1;
    }
    var rest := sp.Flush();
    if rest != "" {
      statements := statements + [rest];
    }
  }
}
