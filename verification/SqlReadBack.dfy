/** What a server reading the dumped statements finds in them: the rows that were dumped. */
module SqlReadBack {
  import opened Sequences
  import opened SqlEscape
  import opened SqlDump

  /** A value as the server has it; numbers stay text. */
  datatype Datum = Absent | Octets(bytes: seq<nat>) | Chars(s: string) | Num(text: string)

  function DataOf(v: Value): Datum {
    match v
    case Null => Absent
    case Hex(bytes) => Octets(bytes)
    case RawBlob(s) => Chars(s)
    case Number(text) => Num(text)
    case Boolean(b) => Num(if b then "1" else "0")
    case Text(s) => Chars(s)
  }

  function DataOfRow(row: Row): (r: seq<Datum>)
    ensures |r| == |row|
  {
    seq(|row|, i requires 0 <= i < |row| => DataOf(row[i]))
  }

  function DataOfRows(rows: seq<Row>): (r: seq<seq<Datum>>)
    ensures |r| == |rows|
  {
    seq(|rows|, i requires 0 <= i < |rows| => DataOfRow(rows[i]))
  }

  // ---------------------------------------------------------------- the reader

  predicate IsHex(c: char) {
    '0' <= c <= '9' || 'a' <= c <= 'f'
  }

  function HexValue(c: char): nat
    requires IsHex(c)
  {
    if c <= '9' then c as int - '0' as int else c as int - 'a' as int + 10
  }

  /** Pairs of hexadecimal digits, and the text after them. */
  function ReadHex(s: string): (r: (seq<nat>, string))
    ensures |r.1| <= |s|
  {
    if |s| > 1 && IsHex(s[0]) && IsHex(s[1]) then
      var r := ReadHex(s[2..]);
      ([HexValue(s[0]) * 16 + HexValue(s[1])] + r.0, r.1)
    else ([], s)
  }

  function NumberRun(s: string): (n: nat)
    ensures n <= |s|
  {
    if s == "" || !NumberChar(s[0]) then 0 else 1 + NumberRun(s[1..])
  }

  lemma {:induction false} LiteralShrinks(s: string)
    ensures ReadLiteral(s).Some? ==> |ReadLiteral(s).value.1| < |s|
    decreases |s|
  {
    if |s| > 1 && s[0] in {'\\', '\''} {
      LiteralShrinks(s[2..]);
    } else if s != "" && s[0] !in {'\\', '\''} {
      LiteralShrinks(s[1..]);
    }
  }

  /** One value; the notation 0x needs at least one digit after it. */
  function ReadValue(s: string): (r: Option<(Datum, string)>)
    ensures r.Some? ==> |r.value.1| < |s|
  {
    if "NULL" <= s then Some((Absent, s[4..]))
    else if "0x" <= s then
      var h := ReadHex(s[2..]);
      if h.0 == [] then None else Some((Octets(h.0), h.1))
    else if "'" <= s then
      LiteralShrinks(s[1..]);
      var l := ReadLiteral(s[1..]);
      if l.None? then None else Some((Chars(l.value.0), l.value.1))
    else
      var n := NumberRun(s);
      if n == 0 then None else Some((Num(s[..n]), s[n..]))
  }

  /** The values of a row up to its closing parenthesis. */
  function ReadValues(s: string): (r: Option<(seq<Datum>, string)>)
    ensures r.Some? ==> |r.value.1| < |s|
    decreases |s|
  {
    var v := ReadValue(s);
    if v.None? then None
    else
      var (d, t) := v.value;
      if ")" <= t then Some(([d], t[1..]))
      else if ", " <= t then
        var more := ReadValues(t[2..]);
        if more.None? then None else Some(([d] + more.value.0, more.value.1))
      else None
  }

  function ReadRow(s: string): (r: Option<(seq<Datum>, string)>)
    ensures r.Some? ==> |r.value.1| < |s|
  {
    if "()" <= s then Some(([], s[2..]))
    else if "(" <= s then ReadValues(s[1..])
    else None
  }

  function ReadBody(s: string): Option<seq<seq<Datum>>>
    decreases |s|
  {
    var row := ReadRow(s);
    if row.None? then None
    else
      var (d, t) := row.value;
      if t == "" then Some([d])
      else if ",\n" <= t then
        var more := ReadBody(t[2..]);
        if more.None? then None else Some([d] + more.value)
      else None
  }

  // ---------------------------------------------------------------- values come back

  /** Bytes are bytes, and numbers have digits. */
  predicate Sound(v: Value) {
    match v
    case Hex(bytes) => forall i :: 0 <= i < |bytes| ==> bytes[i] < 256
    case Number(text) => text != "" && IsNumber(text)
    case _ => true
  }

  predicate Ends(t: string) {
    t != "" && t[0] in {',', ')'}
  }

  lemma {:induction false} HexPairReads(b: nat, t: string)
    requires b < 256
    ensures var d := [HexDigit(b / 16), HexDigit(b % 16)] + t;
      && IsHex(d[0]) && IsHex(d[1]) && HexValue(d[0]) * 16 + HexValue(d[1]) == b && d[2..] == t
  {
    HexDigitReads(b / 16);
    HexDigitReads(b % 16);
  }

  lemma {:induction false} HexDigitReads(n: nat)
    requires n < 16
    ensures IsHex(HexDigit(n)) && HexValue(HexDigit(n)) == n
  {
  }

  lemma {:induction false} ReadPair(b: nat, x: string)
    requires b < 256
    ensures ReadHex([HexDigit(b / 16), HexDigit(b % 16)] + x) == ([b] + ReadHex(x).0, ReadHex(x).1)
  {
    HexPairReads(b, x);
  }

  lemma {:induction false} HexCons(bytes: seq<nat>, t: string)
    requires bytes != []
    ensures HexText(bytes) + t == [HexDigit(bytes[0] / 16), HexDigit(bytes[0] % 16)] + (HexText(bytes[1..]) + t)
    ensures bytes == [bytes[0]] + bytes[1..]
  {
  }

  lemma {:induction false} HexReads(bytes: seq<nat>, t: string)
    requires (forall i :: 0 <= i < |bytes| ==> bytes[i] < 256) && Ends(t)
    ensures ReadHex(HexText(bytes) + t) == (bytes, t)
  {
    if bytes == [] {
      assert "" + t == t;
    } else {
      HexReads(bytes[1..], t);
      HexCons(bytes, t);
      ReadPair(bytes[0], HexText(bytes[1..]) + t);
    }
  }

  lemma {:induction false} RunReads(text: string, t: string)
    requires (forall i :: 0 <= i < |text| ==> NumberChar(text[i])) && Ends(t)
    ensures NumberRun(text + t) == |text|
  {
    if text == "" {
      assert text + t == t;
    } else {
      assert (text + t)[1..] == text[1..] + t;
      RunReads(text[1..], t);
    }
  }

  lemma {:induction false} NumberReads(text: string, t: string)
    requires text != "" && (forall i :: 0 <= i < |text| ==> NumberChar(text[i])) && Ends(t)
    ensures ReadValue(text + t) == Some((Num(text), t))
  {
    var s := text + t;
    RunReads(text, t);
    assert s[..|text|] == text && s[|text|..] == t;
    assert s[0] == text[0];
  }

  lemma {:induction false} LiteralReads(v: string, blob: bool, t: string)
    requires Ends(t)
    ensures ReadValue("'" + Escaped(v, blob) + "'" + t) == Some((Chars(v), t))
  {
    var s := "'" + Escaped(v, blob) + "'" + t;
    assert s == "'" + (Escaped(v, blob) + ("'" + t));
    assert s[0] == '\'' && s[1..] == Escaped(v, blob) + ("'" + t);
    LiteralRoundTrip(v, blob, t);
  }

  lemma {:induction false} HexValueReads(bytes: seq<nat>, t: string)
    requires (forall i :: 0 <= i < |bytes| ==> bytes[i] < 256) && Ends(t)
    ensures ReadValue("0x" + HexText(bytes) + t) == if bytes == [] then None else Some((Octets(bytes), t))
  {
    var s := "0x" + HexText(bytes) + t;
    assert s[0] == '0' && s[1] == 'x' && s[2..] == HexText(bytes) + t;
    HexReads(bytes, t);
  }

  lemma {:induction false} NullReads(t: string)
    ensures ReadValue("NULL" + t) == Some((Absent, t))
  {
    assert ("NULL" + t)[4..] == t;
  }

  /** A printed value is read as the value, except an empty blob in the 0x notation, which cannot be read. */
  lemma {:induction false} ValueReads(v: Value, t: string)
    requires Sound(v) && Ends(t)
    ensures ReadValue(Print(v) + t) == if v == Hex([]) then None else Some((DataOf(v), t))
  {
    match v
    case Null => NullReads(t);
    case Hex(bytes) => HexValueReads(bytes, t);
    case RawBlob(s) => PassesAreOneSubstitution(s); LiteralReads(s, true, t);
    case Number(text) => NumberReads(text, t);
    case Boolean(b) => NumberReads(if b then "1" else "0", t);
    case Text(s) => PassesAreOneSubstitution(s); LiteralReads(s, false, t);
  }

  // ---------------------------------------------------------------- rows come back

  predicate SoundRow(row: Row) {
    forall i :: 0 <= i < |row| ==> Sound(row[i])
  }

  /** No value of the row is an empty blob in the 0x notation. */
  predicate NoEmptyHex(row: Row) {
    forall i :: 0 <= i < |row| ==> row[i] != Hex([])
  }

  lemma {:induction false} RowCons(row: Row)
    requires row != []
    ensures DataOfRow(row) == [DataOf(row[0])] + DataOfRow(row[1..])
    ensures NoEmptyHex(row) <==> row[0] != Hex([]) && NoEmptyHex(row[1..])
    ensures SoundRow(row) ==> Sound(row[0]) && SoundRow(row[1..])
  {
    if row[0] != Hex([]) && NoEmptyHex(row[1..]) {
      forall i | 0 <= i < |row| ensures row[i] != Hex([]) {
        if i > 0 {
          assert row[1..][i - 1] != Hex([]);
        }
      }
    }
  }

  lemma {:induction false} ValuesRead(row: Row, t: string)
    requires row != [] && SoundRow(row)
    ensures ReadValues(Join(PrintAll(row), ", ") + (")" + t))
      == if NoEmptyHex(row) then Some((DataOfRow(row), t)) else None
  {
    var q := ")" + t;
    assert q[1..] == t;
    RowCons(row);
    PrintAllCons(row);
    if |row| == 1 {
      ValueReads(row[0], q);
      assert DataOfRow(row) == [DataOf(row[0])];
    } else {
      var x := Join(PrintAll(row[1..]), ", ") + q;
      JoinThen(PrintAll(row), ", ", q);
      var y := ", " + x;
      assert y[2..] == x && y[0] == ',';
      ValueReads(row[0], y);
      ValuesRead(row[1..], t);
    }
  }

  lemma {:induction false} FirstChar(v: Value, t: string)
    requires Sound(v)
    ensures Print(v) + t != "" && (Print(v) + t)[0] != ')'
  {
  }

  /** A printed row is read as its values, and what follows is left. */
  lemma {:induction false} RowReads(row: Row, t: string)
    requires SoundRow(row)
    ensures ReadRow(PrintRow(row) + t) == if NoEmptyHex(row) then Some((DataOfRow(row), t)) else None
  {
    var s := PrintRow(row) + t;
    if row == [] {
      assert s == "()" + t && s[2..] == t;
    } else {
      var x := Join(PrintAll(row), ", ") + (")" + t);
      assert s == "(" + x && s[1..] == x;
      NotClosed(row, t);
      assert x[0] == s[1];
      ValuesRead(row, t);
    }
  }

  lemma {:induction false} NotClosed(row: Row, t: string)
    requires row != [] && SoundRow(row)
    ensures var x := Join(PrintAll(row), ", ") + (")" + t); x != "" && x[0] != ')'
  {
    PrintAllCons(row);
    if |row| == 1 {
      FirstChar(row[0], ")" + t);
    } else {
      JoinThen(PrintAll(row), ", ", ")" + t);
      FirstChar(row[0], ", " + (Join(PrintAll(row[1..]), ", ") + (")" + t)));
    }
  }

  // ---------------------------------------------------------------- statements come back

  predicate SoundRows(rows: seq<Row>) {
    forall i :: 0 <= i < |rows| ==> SoundRow(rows[i])
  }

  predicate NoneEmptyHex(rows: seq<Row>) {
    forall i :: 0 <= i < |rows| ==> NoEmptyHex(rows[i])
  }

  lemma {:induction false} BodyCons(rows: seq<Row>)
    requires |rows| > 1
    ensures Body(rows) == PrintRow(rows[0]) + (",\n" + Body(rows[1..]))
  {
    var n := |rows| - 1;
    if n == 1 {
      assert rows[..1] == [rows[0]] && rows[1..] == [rows[1]];
      assert PrintRow(rows[0]) + ",\n" + PrintRow(rows[1]) == PrintRow(rows[0]) + (",\n" + PrintRow(rows[1]));
    } else {
      BodyCons(rows[..n]);
      assert rows[..n][1..] == rows[1..][..n - 1];
      var a, b, c := PrintRow(rows[0]), Body(rows[1..][..n - 1]), PrintRow(rows[n]);
      assert (a + (",\n" + b)) + ",\n" + c == a + (",\n" + (b + ",\n" + c));
    }
  }

  lemma {:induction false} RowsCons(rows: seq<Row>)
    requires rows != []
    ensures DataOfRows(rows) == [DataOfRow(rows[0])] + DataOfRows(rows[1..])
    ensures NoneEmptyHex(rows) <==> NoEmptyHex(rows[0]) && NoneEmptyHex(rows[1..])
    ensures SoundRows(rows) <==> SoundRow(rows[0]) && SoundRows(rows[1..])
  {
    forall i | 0 < i < |rows| ensures rows[i] == rows[1..][i - 1] {
    }
  }

  /** The rows of a statement are read back as they were dumped. */
  lemma {:induction false} BodyReads(rows: seq<Row>)
    requires rows != [] && SoundRows(rows)
    ensures ReadBody(Body(rows)) == if NoneEmptyHex(rows) then Some(DataOfRows(rows)) else None
  {
    RowsCons(rows);
    if |rows| == 1 {
      assert PrintRow(rows[0]) + "" == PrintRow(rows[0]);
      RowReads(rows[0], "");
      assert DataOfRows(rows) == [DataOfRow(rows[0])];
    } else {
      BodyCons(rows);
      var t := ",\n" + Body(rows[1..]);
      assert t[2..] == Body(rows[1..]);
      RowReads(rows[0], t);
      BodyReads(rows[1..]);
    }
  }

  /** Reads the statements of a table one after the other. */
  function ReadStatements(table: string, cols: seq<string>, statements: seq<string>): Option<seq<seq<Datum>>> {
    if statements == [] then Some([])
    else if !(Head(table, cols) + "\n" <= statements[0]) then None
    else
      var rows := ReadBody(statements[0][|Head(table, cols)| + 1..]);
      var more := ReadStatements(table, cols, statements[1..]);
      if rows.None? || more.None? then None else Some(rows.value + more.value)
  }

  lemma {:induction false} RowsConcat(a: seq<Row>, b: seq<Row>)
    ensures DataOfRows(a + b) == DataOfRows(a) + DataOfRows(b)
    ensures NoneEmptyHex(a + b) <==> NoneEmptyHex(a) && NoneEmptyHex(b)
    ensures SoundRows(a + b) <==> SoundRows(a) && SoundRows(b)
  {
    forall i | 0 <= i < |a| ensures (a + b)[i] == a[i] {
    }
    forall i | 0 <= i < |b| ensures (a + b)[|a| + i] == b[i] {
    }
  }

  lemma {:induction false} StatementReads(table: string, cols: seq<string>, rows: seq<Row>)
    ensures Head(table, cols) + "\n" <= Statement(table, cols, rows)
    ensures Statement(table, cols, rows)[|Head(table, cols)| + 1..] == Body(rows)
  {
  }

  /** However the rows were cut into batches, the statements hold exactly the rows, in order. */
  lemma {:induction false} BatchesRead(table: string, cols: seq<string>, batches: seq<seq<Row>>)
    requires (forall i :: 0 <= i < |batches| ==> batches[i] != []) && SoundRows(Flatten(batches))
    ensures ReadStatements(table, cols, Statements(table, cols, batches))
         == if NoneEmptyHex(Flatten(batches)) then Some(DataOfRows(Flatten(batches))) else None
  {
    if batches == [] {
      assert DataOfRows([]) == [];
    } else {
      StatementsCons(table, cols, batches);
      var statements := Statements(table, cols, batches);
      assert statements[1..] == Statements(table, cols, batches[1..]);
      RowsConcat(batches[0], Flatten(batches[1..]));
      StatementReads(table, cols, batches[0]);
      BodyReads(batches[0]);
      BatchesRead(table, cols, batches[1..]);
    }
  }

  /**
   Dump the rows, split the text, read the statements: the rows come back exactly when no empty blob went out as 0x.
   */
  method DumpAndRead(table: string, cols: seq<string>, rows: seq<Row>, batchBytes: int)
    returns (read: Option<seq<seq<Datum>>>)
    requires cols != [] && SoundRows(rows)
    ensures read == if NoneEmptyHex(rows) then Some(DataOfRows(rows)) else None
  {
    SoundIsPrintable(rows);
    var statements, batches := DumpAndSplit(table, cols, rows, batchBytes);
    BatchesRead(table, cols, batches);
    read := ReadStatements(table, cols, statements);
  }

  /** A row that is one empty blob, dumped in hexadecimal, is lost. */
  lemma {:induction false} EmptyBlobIsLost(table: string, cols: seq<string>, row: Row)
    requires row == [Hex([])]
    ensures Body([row]) == "(0x)" && ReadStatements(table, cols, Statements(table, cols, [[row]])) == None
  {
    assert "0x" + "" == "0x";
    assert PrintAll(row) == [Print(row[0])];
    var batches := [[row]];
    assert Flatten(batches[1..]) == [] && Flatten(batches) == [row];
    assert !NoEmptyHex([row][0]);
    BatchesRead(table, cols, batches);
  }

  lemma {:induction false} SoundIsPrintable(rows: seq<Row>)
    requires SoundRows(rows)
    ensures PrintableRows(rows)
  {
    forall i, v | 0 <= i < |rows| && v in rows[i] ensures Printable(v) {
      var j :| 0 <= j < |rows[i]| && rows[i][j] == v;
      assert Sound(rows[i][j]);
    }
  }
}
