/** `parseBoomCsv`: the one-pass reader of the CSV that section 2 of RFC 4180 describes.
    A JavaScript string is a sequence of characters, and `Number(cell)` is left unevaluated. */
module BoomCsv {
  import opened JsText
  import opened Wrappers

  type Row = seq<string>

  predicate HasText(row: Row) {
    exists i | 0 <= i < |row| :: row[i] != ""
  }

  // ----- The state machine -----

  datatype State = State(rows: seq<Row>, row: Row, value: string, quoted: bool)

  const START := State([], [], "", false)

  function EndCell(s: State): State {
    s.(row := s.row + [Trim(s.value)], value := "")
  }

  function EndRow(s: State): State {
    var row := s.row + [Trim(s.value)];
    State(if HasText(row) then s.rows + [row] else s.rows, [], "", s.quoted)
  }

  function Unquoted(s: State, c: char): State {
    match c
    case '"' => s.(quoted := true)
    case ',' => EndCell(s)
    case '\n' => EndRow(s)
    case '\r' => s
    case _ => s.(value := s.value + [c])
  }

  predicate IsDoubled(text: string) {
    |text| > 1 && text[0] == '"' && text[1] == '"'
  }

  /** The loop, from the character it has come to. */
  function Scan(text: string, s: State): State
    decreases |text|
  {
    if text == "" then s
    else if !s.quoted then Scan(text[1..], Unquoted(s, text[0]))
    else if IsDoubled(text) then Scan(text[2..], s.(value := s.value + ['"']))
    else if text[0] == '"' then Scan(text[1..], s.(quoted := false))
    else Scan(text[1..], s.(value := s.value + [text[0]]))
  }

  function StripBom(text: string): string {
    if text != "" && text[0] == BOM then text[1..] else text
  }

  // ----- The records -----

  datatype Field = Text(text: string) | Number(text: string)

  datatype CsvError = UnclosedQuote | TooFewRows | MissingWorkId

  const NUMERIC_FIELDS :=
    {"follower_count", "likes", "favorites", "shares", "comments", "plays", "views", "history_limit"}

  function FieldOf(header: string, cell: string): Field {
    if header in NUMERIC_FIELDS && cell != "" then Number(cell) else Text(cell)
  }

  function CellAt(row: Row, j: nat): string {
    if j < |row| then row[j] else ""
  }

  /** `Object.fromEntries` over the headers: a repeated header keeps its last column. */
  function Record(headers: Row, row: Row): map<string, Field>
  {
    if headers == [] then map[]
    else
      var j := |headers| - 1;
      Record(headers[..j], row)[headers[j] := FieldOf(headers[j], CellAt(row, j))]
  }

  function Records(headers: Row, rows: seq<Row>): seq<map<string, Field>> {
    seq(|rows|, i requires 0 <= i < |rows| => Record(headers, rows[i]))
  }

  function TrimRow(row: Row): Row {
    seq(|row|, j requires 0 <= j < |row| => Trim(row[j]))
  }

  function Parsed(text: string): Result<seq<map<string, Field>>, CsvError> {
    var s := EndRow(Scan(StripBom(text), START));
    if s.quoted then Err(UnclosedQuote)
    else if |s.rows| < 2 then Err(TooFewRows)
    else
      var headers := TrimRow(s.rows[0]);
      if "work_id" !in headers then Err(MissingWorkId) else Ok(Records(headers, s.rows[1..]))
  }

  method ParseBoomCsv(source: string) returns (r: Result<seq<map<string, Field>>, CsvError>)
    ensures r == Parsed(source)
  {
    var rows: seq<Row> := [];
    var row: Row := [];
    var value, quoted := "", false;
    var text := StripBom(source);
    var index := 0;
    while index < |text|
      invariant 0 <= index <= |text|
      invariant Scan(text[index..], State(rows, row, value, quoted)) == Scan(text, START)
    {
      var c := text[index];
      assert text[index..][1..] == text[index + 1..];
      if quoted {
        if c == '"' && index + 1 < |text| && text[index + 1] == '"' {
          assert text[index..][2..] == text[index + 2..];
          value := value + ['"'];
          index := index + 1;
        } else if c == '"' {
          quoted := false;
        } else {
          value := value + [c];
        }
      } else if c == '"' {
        quoted := true;
      } else if c == ',' {
        row, value := row + [Trim(value)], "";
      } else if c == '\n' {
        row := row + [Trim(value)];
        if HasText(row) {
          rows := rows + [row];
        }
        row, value := [], "";
      } else if c != '\r' {
        value := value + [c];
      }
      index := index + 1;
    }
    row := row + [Trim(value)];
    if HasText(row) {
      rows := rows + [row];
    }
    if quoted {
      return Err(UnclosedQuote);
    }
    if |rows| < 2 {
      return Err(TooFewRows);
    }
    var headers := TrimRow(rows[0]);
    if "work_id" !in headers {
      return Err(MissingWorkId);
    }
    r := Ok(Records(headers, rows[1..]));
  }

  // ----- The unclosed-quote error -----

  function Quotes(text: string): nat {
    if text == "" then 0 else (if text[0] == '"' then 1 else 0) + Quotes(text[1..])
  }

  lemma {:induction false} ScanParity(text: string, s: State)
    ensures Scan(text, s).quoted == if Quotes(text) % 2 == 1 then !s.quoted else s.quoted
    decreases |text|
  {
    if text == "" {
    } else if !s.quoted {
      ScanParity(text[1..], Unquoted(s, text[0]));
    } else if IsDoubled(text) {
      assert text[1..][1..] == text[2..];
      ScanParity(text[2..], s.(value := s.value + ['"']));
    } else if text[0] == '"' {
      ScanParity(text[1..], s.(quoted := false));
    } else {
      ScanParity(text[1..], s.(value := s.value + [text[0]]));
    }
  }

  /** For every text: the unclosed-quote error is reported exactly when the number of quote
      characters is odd, whatever else is wrong with the text. */
  lemma UnclosedIffOddQuotes(text: string)
    ensures Parsed(text) == Err(UnclosedQuote) <==> Quotes(text) % 2 == 1
  {
    ScanParity(StripBom(text), START);
  }

  // ----- Printing, as section 2 of RFC 4180 allows -----

  datatype Cell = Bare(text: string) | Quoted(text: string) {
    /** Rule 6: a cell with a quote, a comma or a line break must be quoted. */
    predicate Printable() {
      Bare? ==> forall i | 0 <= i < |text| :: text[i] !in {'"', ',', '\r', '\n'}
    }
  }

  function Escape(text: string): string {
    if text == "" then "" else (if text[0] == '"' then "\"\"" else [text[0]]) + Escape(text[1..])
  }

  function PrintCell(cell: Cell): string {
    match cell
    case Bare(text) => text
    case Quoted(text) => "\"" + (Escape(text) + "\"")
  }

  function PrintRow(row: seq<Cell>): string {
    if row == [] then ""
    else if |row| == 1 then PrintCell(row[0])
    else PrintCell(row[0]) + ("," + PrintRow(row[1..]))
  }

  /** Lines end in CRLF, or in a bare LF; the last line end is optional (rule 2). */
  function Eol(crlf: bool): string { if crlf then "\r\n" else "\n" }

  function Print(rows: seq<seq<Cell>>, crlf: bool, final: bool): string {
    if rows == [] then ""
    else if |rows| == 1 then PrintRow(rows[0]) + (if final then Eol(crlf) else "")
    else PrintRow(rows[0]) + (Eol(crlf) + Print(rows[1..], crlf, final))
  }

  ghost predicate Printable(rows: seq<seq<Cell>>) {
    forall i, j | 0 <= i < |rows| && 0 <= j < |rows[i]| :: rows[i][j].Printable()
  }

  function Trimmed(row: seq<Cell>): Row {
    seq(|row|, j requires 0 <= j < |row| => Trim(row[j].text))
  }

  /** What the reader keeps of the printed rows: trimmed cells, no all-empty row. */
  function Kept(rows: seq<seq<Cell>>): seq<Row> {
    if rows == [] then [] else KeptRow(rows[0]) + Kept(rows[1..])
  }

  function KeptRow(row: seq<Cell>): seq<Row> {
    if HasText(Trimmed(row)) then [Trimmed(row)] else []
  }

  /** A cell is over where the text ends or a comma or line break follows. */
  predicate AtBreak(rest: string) {
    rest == "" || rest[0] in {',', '\r', '\n'}
  }

  lemma {:induction false} ScanBare(text: string, rest: string, s: State)
    requires !s.quoted && Bare(text).Printable()
    ensures Scan(text + rest, s) == Scan(rest, s.(value := s.value + text))
    decreases |text|
  {
    if text == "" {
      assert text + rest == rest && s.value + text == s.value;
    } else {
      assert (text + rest)[1..] == text[1..] + rest;
      assert Bare(text[1..]).Printable();
      assert text[0] !in {'"', ',', '\r', '\n'};
      ScanBare(text[1..], rest, s.(value := s.value + [text[0]]));
      assert s.value + [text[0]] + text[1..] == s.value + text;
    }
  }

  lemma {:induction false} ScanQuoted(text: string, rest: string, s: State)
    requires s.quoted && AtBreak(rest)
    ensures Scan(Escape(text) + "\"" + rest, s) == Scan(rest, s.(value := s.value + text, quoted := false))
    decreases |text|
  {
    var whole := Escape(text) + "\"" + rest;
    if text == "" {
      assert whole == "\"" + rest && whole[1..] == rest;
      assert s.value + text == s.value;
    } else {
      var tail := Escape(text[1..]) + "\"" + rest;
      var s' := s.(value := s.value + [text[0]]);
      if text[0] == '"' {
        assert whole == "\"\"" + tail && whole[2..] == tail;
      } else {
        assert whole == [text[0]] + tail && whole[1..] == tail;
      }
      ScanQuoted(text[1..], rest, s');
      assert s.value + [text[0]] + text[1..] == s.value + text;
    }
  }

  lemma ScanCell(cell: Cell, rest: string, s: State)
    requires !s.quoted && s.value == "" && cell.Printable() && AtBreak(rest)
    ensures Scan(PrintCell(cell) + rest, s) == Scan(rest, s.(value := cell.text))
  {
    match cell
    case Bare(text) =>
      ScanBare(text, rest, s);
      assert "" + text == text;
    case Quoted(text) =>
      var whole := PrintCell(cell) + rest;
      assert whole[1..] == Escape(text) + "\"" + rest;
      ScanQuoted(text, rest, s.(quoted := true));
      assert "" + text == text;
  }

  /** The state in which a printed row leaves the reader, its last cell still open. */
  function RowRead(s: State, row: seq<Cell>): State {
    if row == [] then s
    else s.(row := s.row + Trimmed(row[..|row| - 1]), value := row[|row| - 1].text)
  }

  lemma {:induction false} ScanRow(row: seq<Cell>, rest: string, s: State)
    requires !s.quoted && s.value == ""
    requires forall j | 0 <= j < |row| :: row[j].Printable()
    requires rest == "" || rest[0] in {'\r', '\n'}
    ensures Scan(PrintRow(row) + rest, s) == Scan(rest, RowRead(s, row))
    decreases |row|
  {
    if row == [] {
      assert PrintRow(row) + rest == rest;
    } else if |row| == 1 {
      ScanCell(row[0], rest, s);
      assert s.row + Trimmed(row[..0]) == s.row;
    } else {
      var tail := PrintRow(row[1..]) + rest;
      var s' := EndCell(s.(value := row[0].text));
      Regroup(PrintCell(row[0]), ",", PrintRow(row[1..]), rest);
      ScanCell(row[0], "," + tail, s);
      ScanComma(tail, s.(value := row[0].text));
      ScanRow(row[1..], rest, s');
      RowReadStep(s, row);
    }
  }

  lemma Regroup<T>(a: seq<T>, b: seq<T>, c: seq<T>, d: seq<T>)
    ensures a + (b + c) + d == a + (b + (c + d))
    ensures a + (b + c) == a + b + c
  {
  }

  lemma ScanComma(rest: string, s: State)
    requires !s.quoted
    ensures Scan("," + rest, s) == Scan(rest, EndCell(s))
  {
    assert ("," + rest)[1..] == rest;
  }

  lemma RowReadStep(s: State, row: seq<Cell>)
    requires |row| > 1
    ensures RowRead(EndCell(s.(value := row[0].text)), row[1..]) == RowRead(s, row)
  {
    var front := row[..|row| - 1];
    assert row[1..][..|row| - 2] == front[1..];
    assert Trimmed(front) == [Trim(row[0].text)] + Trimmed(front[1..]);
    assert s.row + ([Trim(row[0].text)] + Trimmed(front[1..])) == s.row + [Trim(row[0].text)] + Trimmed(front[1..]);
  }

  lemma ScanEol(crlf: bool, rest: string, s: State)
    requires !s.quoted
    ensures Scan(Eol(crlf) + rest, s) == Scan(rest, EndRow(s))
  {
    if crlf {
      assert ("\r\n" + rest)[1..] == "\n" + rest;
    }
    assert ("\n" + rest)[1..] == rest;
  }

  function Fresh(rows: seq<Row>): State { State(rows, [], "", false) }

  lemma EndRowRead(rows: seq<Row>, row: seq<Cell>)
    ensures EndRow(RowRead(Fresh(rows), row)) == Fresh(rows + KeptRow(row))
  {
    if row == [] {
      assert EndRow(Fresh(rows)) == Fresh(rows);
      assert !HasText(Trimmed(row));
    } else {
      assert [] + Trimmed(row[..|row| - 1]) + [Trim(row[|row| - 1].text)] == Trimmed(row);
    }
    assert rows + [] == rows;
  }

  lemma ScanLine(row: seq<Cell>, crlf: bool, rest: string, before: seq<Row>)
    requires forall j | 0 <= j < |row| :: row[j].Printable()
    ensures Scan(PrintRow(row) + (Eol(crlf) + rest), Fresh(before)) == Scan(rest, Fresh(before + KeptRow(row)))
  {
    ScanRow(row, Eol(crlf) + rest, Fresh(before));
    ScanEol(crlf, rest, RowRead(Fresh(before), row));
    EndRowRead(before, row);
  }

  lemma {:induction false} ScanLastLine(row: seq<Cell>, crlf: bool, final: bool, before: seq<Row>)
    requires forall j | 0 <= j < |row| :: row[j].Printable()
    ensures EndRow(Scan(PrintRow(row) + (if final then Eol(crlf) else ""), Fresh(before))) == Fresh(before + KeptRow(row))
  {
    if final {
      assert Eol(crlf) + "" == Eol(crlf);
      ScanLine(row, crlf, "", before);
      EndRowRead(before + KeptRow(row), []);
      assert KeptRow([]) == [];
    } else {
      ScanRow(row, "", Fresh(before));
      EndRowRead(before, row);
    }
  }

  lemma {:induction false} ScanPrinted(rows: seq<seq<Cell>>, crlf: bool, final: bool, before: seq<Row>)
    requires Printable(rows)
    ensures EndRow(Scan(Print(rows, crlf, final), Fresh(before))) == Fresh(before + Kept(rows))
    decreases |rows|
  {
    if rows == [] {
      EndRowRead(before, []);
      assert KeptRow([]) == [];
    } else {
      KeptCons(rows, before);
      if |rows| == 1 {
        assert KeptRow(rows[0]) + Kept([]) == KeptRow(rows[0]);
        ScanLastLine(rows[0], crlf, final, before);
      } else {
        ScanLine(rows[0], crlf, Print(rows[1..], crlf, final), before);
        ScanPrinted(rows[1..], crlf, final, before + KeptRow(rows[0]));
      }
    }
  }

  lemma KeptCons(rows: seq<seq<Cell>>, before: seq<Row>)
    requires rows != []
    ensures before + Kept(rows) == before + KeptRow(rows[0]) + Kept(rows[1..])
  {
    Regroup(before, KeptRow(rows[0]), Kept(rows[1..]), []);
  }

  /** A byte order mark that is not stripped is trimmed off the first cell anyway. */
  lemma {:induction false} BomIsTrimmed(text: string, s: State)
    ensures EndRow(Scan(text, s.(value := [BOM] + s.value))) == EndRow(Scan(text, s))
    decreases |text|
  {
    assert ([BOM] + s.value)[1..] == s.value;
    assert Trim([BOM] + s.value) == Trim(s.value);
    if text != "" {
      var c := text[0];
      assert [BOM] + s.value + [c] == [BOM] + (s.value + [c]);
      if !s.quoted {
        if c != ',' && c != '\n' {
          BomIsTrimmed(text[1..], Unquoted(s, c));
        }
      } else if IsDoubled(text) {
        BomIsTrimmed(text[2..], s.(value := s.value + [c]));
      } else if c == '"' {
        BomIsTrimmed(text[1..], s.(quoted := false));
      } else {
        BomIsTrimmed(text[1..], s.(value := s.value + [c]));
      }
    }
  }

  /** The table read from any printing of any rows, with or without a byte order mark:
      exactly the printed rows, cells trimmed, all-empty rows dropped. Commas, doubled
      quotes and line breaks inside quoted cells come back as they were. */
  lemma ReadPrinted(rows: seq<seq<Cell>>, crlf: bool, final: bool, bom: bool)
    requires Printable(rows)
    ensures var text := (if bom then [BOM] else "") + Print(rows, crlf, final);
            EndRow(Scan(StripBom(text), START)) == Fresh(Kept(rows))
  {
    ScanPrinted(rows, crlf, final, []);
    assert [] + Kept(rows) == Kept(rows);
    StrippedOrNot(Print(rows, crlf, final), bom);
  }

  lemma StrippedOrNot(text: string, bom: bool)
    ensures EndRow(Scan(StripBom((if bom then [BOM] else "") + text), START)) == EndRow(Scan(text, START))
  {
    if bom {
      assert ([BOM] + text)[1..] == text;
    } else {
      assert "" + text == text;
      if StripBom(text) != text {
        assert [BOM] + "" == "" + [BOM];
        BomIsTrimmed(text[1..], START);
      }
    }
  }

  predicate IsTrimmed(row: seq<Cell>) {
    forall j | 0 <= j < |row| :: Trim(row[j].text) == row[j].text
  }

  function Texts(row: seq<Cell>): Row {
    seq(|row|, j requires 0 <= j < |row| => row[j].text)
  }

  lemma {:induction false} KeptAll(rows: seq<seq<Cell>>)
    requires forall i | 0 <= i < |rows| :: IsTrimmed(rows[i]) && HasText(Texts(rows[i]))
    ensures |Kept(rows)| == |rows| && forall i | 0 <= i < |rows| :: Kept(rows)[i] == Texts(rows[i])
  {
    if rows != [] {
      assert Trimmed(rows[0]) == Texts(rows[0]);
      KeptAll(rows[1..]);
    }
  }

  /** The round trip. A header of distinct cells with `work_id` among them, and any records
      with as many cells, none of them all-empty, printed in any of the allowed ways, are
      read back as one object per record, in order, that maps each header to the field the
      record holds in that column, and nothing else. */
  lemma RoundTrip(rows: seq<seq<Cell>>, crlf: bool, final: bool, bom: bool)
    requires Printable(rows) && |rows| > 1
    requires forall i | 0 <= i < |rows| :: |rows[i]| == |rows[0]| && IsTrimmed(rows[i]) && HasText(Texts(rows[i]))
    requires forall i, j | 0 <= i < j < |rows[0]| :: rows[0][i].text != rows[0][j].text
    requires "work_id" in Texts(rows[0])
    ensures var r := Parsed((if bom then [BOM] else "") + Print(rows, crlf, final));
            && r.Ok?
            && |r.value| == |rows| - 1
            && forall i | 0 < i < |rows| :: IsObjectOf(Texts(rows[0]), Texts(rows[i]), r.value[i - 1])
  {
    KeptAll(rows);
    TrimmedAlready(rows[0]);
    ParsedPrinted(rows, crlf, final, bom);
    ObjectsOf(Kept(rows));
  }

  /** No cell of the row is the header that is required. */
  ghost predicate Unidentified(row: Row) {
    forall j | 0 <= j < |row| :: Trim(row[j]) != "work_id"
  }

  lemma ErrorsOfTable(text: string, rows: seq<Row>)
    requires EndRow(Scan(StripBom(text), START)) == Fresh(rows)
    ensures var r := Parsed(text);
            && (r == Err(TooFewRows) <==> |rows| < 2)
            && (r == Err(MissingWorkId) <==> |rows| >= 2 && Unidentified(rows[0]))
            && (r.Ok? ==> |r.value| == |rows| - 1)
  {
    if |rows| >= 2 {
      Named(rows[0], "work_id");
    }
  }

  lemma Named(row: Row, header: string)
    ensures header in TrimRow(row) <==> exists j | 0 <= j < |row| :: Trim(row[j]) == header
  {
    if j :| 0 <= j < |row| && Trim(row[j]) == header {
      assert TrimRow(row)[j] == header;
    }
  }

  /** The other two errors: what was printed has fewer than two rows with text, or no column
      `work_id`. */
  lemma ErrorsIff(rows: seq<seq<Cell>>, crlf: bool, final: bool, bom: bool)
    requires Printable(rows)
    ensures var r := Parsed((if bom then [BOM] else "") + Print(rows, crlf, final));
            && (r == Err(TooFewRows) <==> |Kept(rows)| < 2)
            && (r == Err(MissingWorkId) <==> |Kept(rows)| >= 2 && Unidentified(Kept(rows)[0]))
            && (r.Ok? ==> |r.value| == |Kept(rows)| - 1)
  {
    ReadPrinted(rows, crlf, final, bom);
    ErrorsOfTable((if bom then [BOM] else "") + Print(rows, crlf, final), Kept(rows));
  }

  lemma TrimmedAlready(row: seq<Cell>)
    requires IsTrimmed(row)
    ensures TrimRow(Texts(row)) == Texts(row)
  {
  }

  lemma ObjectsOf(rows: seq<Row>)
    requires |rows| > 1 && forall i | 0 <= i < |rows| :: |rows[i]| == |rows[0]|
    requires forall i, j | 0 <= i < j < |rows[0]| :: rows[0][i] != rows[0][j]
    ensures forall i | 0 < i < |rows| :: IsObjectOf(rows[0], rows[i], Records(rows[0], rows[1..])[i - 1])
  {
    forall i | 0 < i < |rows| ensures IsObjectOf(rows[0], rows[i], Records(rows[0], rows[1..])[i - 1]) {
      RecordOf(rows[0], rows[i]);
      RecordIsObject(rows[0], rows[i], Record(rows[0], rows[i]));
      assert rows[1..][i - 1] == rows[i];
    }
  }

  lemma ParsedPrinted(rows: seq<seq<Cell>>, crlf: bool, final: bool, bom: bool)
    requires Printable(rows) && |Kept(rows)| > 1 && "work_id" in Kept(rows)[0]
    requires TrimRow(Kept(rows)[0]) == Kept(rows)[0]
    ensures Parsed((if bom then [BOM] else "") + Print(rows, crlf, final)) ==
              Ok(Records(Kept(rows)[0], Kept(rows)[1..]))
  {
    ReadPrinted(rows, crlf, final, bom);
  }

  /** The object has the headers for keys, and in each the field of that column. */
  ghost predicate IsObjectOf(headers: Row, row: Row, fields: map<string, Field>) {
    && |headers| <= |row|
    && (forall h :: h in fields <==> h in headers)
    && forall j | 0 <= j < |headers| :: headers[j] in fields && IsFieldOf(headers[j], row[j], fields[headers[j]])
  }

  /** A count that is not empty is read as a number, everything else as text. */
  ghost predicate IsFieldOf(header: string, cell: string, field: Field) {
    && field.text == cell
    && (field.Number? <==>
          && cell != ""
          && header in {"follower_count", "likes", "favorites", "shares", "comments", "plays", "views", "history_limit"})
  }

  /** The same, as the program computes it. */
  ghost predicate IsRecordOf(headers: Row, row: Row, fields: map<string, Field>)
    requires |headers| <= |row|
  {
    && (forall h :: h in fields <==> h in headers)
    && forall j | 0 <= j < |headers| :: headers[j] in fields && fields[headers[j]] == FieldOf(headers[j], row[j])
  }

  lemma {:induction false} RecordOf(headers: Row, row: Row)
    requires |headers| <= |row|
    requires forall i, j | 0 <= i < j < |headers| :: headers[i] != headers[j]
    ensures IsRecordOf(headers, row, Record(headers, row))
  {
    if headers != [] {
      var n := |headers| - 1;
      var before := headers[..n];
      RecordOf(before, row);
      var r := Record(before, row)[headers[n] := FieldOf(headers[n], CellAt(row, n))];
      assert forall h :: h in headers <==> h in before || h == headers[n];
      forall j | 0 <= j < n
        ensures headers[j] in r && r[headers[j]] == FieldOf(headers[j], row[j])
      {
        assert before[j] == headers[j];
      }
    }
  }

  lemma FieldIs(header: string, cell: string)
    ensures IsFieldOf(header, cell, FieldOf(header, cell))
  {
  }

  lemma RecordIsObject(headers: Row, row: Row, fields: map<string, Field>)
    requires |headers| <= |row| && IsRecordOf(headers, row, fields)
    ensures IsObjectOf(headers, row, fields)
  {
    forall j | 0 <= j < |headers| ensures headers[j] in fields && IsFieldOf(headers[j], row[j], fields[headers[j]]) {
      FieldIs(headers[j], row[j]);
    }
  }
}
