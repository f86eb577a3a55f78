/** The CSV export of the query console (apps/web/components/EmailQueryConsole.tsx) against RFC 4180, section 2. */
module QueryCsv {
  import opened Options
  import opened Sequences
  import opened Text

  /** A present value carries its `String(...)` form; a missing key is `undefined`. */
  datatype Value = Null | Present(text: string)

  type Row = map<string, Value>

  function CellText(row: Row, column: string): string {
    if column in row && row[column].Present? then row[column].text else ""
  }

  function CellTexts(row: Row, columns: seq<string>): (cells: seq<string>)
    ensures |cells| == |columns|
  {
    if columns == [] then [] else [CellText(row, columns[0])] + CellTexts(row, columns[1..])
  }

  /** The records that the export is meant to carry, without the header. */
  function Records(rows: seq<Row>, columns: seq<string>): (records: seq<seq<string>>)
    ensures |records| == |rows|
    ensures forall i :: 0 <= i < |records| ==> |records[i]| == |columns|
  {
    if rows == [] then [] else [CellTexts(rows[0], columns)] + Records(rows[1..], columns)
  }

  // ---------- What a reader of the export should find ----------

  /** A present value shows its text; a null one and a missing one show nothing. */
  predicate ShowsCell(cell: string, row: Row, column: string) {
    if column !in row then cell == ""
    else match row[column]
      case Null => cell == ""
      case Present(text) => cell == text
  }

  predicate ShowsRecord(record: seq<string>, row: Row, columns: seq<string>) {
    |record| == |columns| && forall j :: 0 <= j < |columns| ==> ShowsCell(record[j], row, columns[j])
  }

  /** One record for the header and one for each row, each with a field for each column, in order. */
  predicate ShowsTable(table: seq<seq<string>>, columns: seq<string>, rows: seq<Row>) {
    && |table| == |rows| + 1
    && table[0] == columns
    && forall i :: 0 <= i < |rows| ==> ShowsRecord(table[i + 1], rows[i], columns)
  }

  predicate ReadsTable(r: Option<seq<seq<string>>>, columns: seq<string>, rows: seq<Row>) {
    r.Some? && ShowsTable(r.value, columns, rows)
  }

  lemma {:induction false} CellTextsAt(row: Row, columns: seq<string>, j: nat)
    requires j < |columns|
    ensures ShowsCell(CellTexts(row, columns)[j], row, columns[j])
  {
    if j > 0 {
      CellTextsAt(row, columns[1..], j - 1);
    }
  }

  lemma ShowsIffCells(record: seq<string>, row: Row, columns: seq<string>)
    ensures ShowsRecord(record, row, columns) <==> record == CellTexts(row, columns)
  {
    var cells := CellTexts(row, columns);
    forall j | 0 <= j < |columns|
      ensures ShowsCell(cells[j], row, columns[j])
    {
      CellTextsAt(row, columns, j);
    }
  }

  /** Only the table of these records shows the rows. */
  lemma {:induction false} ShowsIffRecords(table: seq<seq<string>>, columns: seq<string>, rows: seq<Row>)
    ensures ShowsTable(table, columns, rows) <==> table == [columns] + Records(rows, columns)
  {
    var records := Records(rows, columns);
    if |table| == |rows| + 1 {
      forall i | 0 <= i < |rows|
        ensures ShowsRecord(table[i + 1], rows[i], columns) <==> table[1..][i] == records[i]
      {
        RecordsAt(rows, columns, i);
        ShowsIffCells(table[i + 1], rows[i], columns);
      }
      assert table == [table[0]] + table[1..];
      assert ([columns] + records)[1..] == records;
    }
  }

  // ---------- The writer ----------

  predicate NeedsQuotes(cell: string) {
    ',' in cell || '"' in cell || '\n' in cell
  }

  function DoubleQuotes(cell: string): string {
    if cell == "" then "" else (if cell[0] == '"' then "\"\"" else [cell[0]]) + DoubleQuotes(cell[1..])
  }

  function Escape(cell: string): string {
    if NeedsQuotes(cell) then "\"" + DoubleQuotes(cell) + "\"" else cell
  }

  function EscapeAll(cells: seq<string>): (escaped: seq<string>)
    ensures |escaped| == |cells|
  {
    if cells == [] then [] else [Escape(cells[0])] + EscapeAll(cells[1..])
  }

  function WriteRecord(cells: seq<string>): string {
    Join(EscapeAll(cells), ',')
  }

  function WriteAll(records: seq<seq<string>>): (lines: seq<string>)
    ensures |lines| == |records|
  {
    if records == [] then [] else [WriteRecord(records[0])] + WriteAll(records[1..])
  }

  /** A fully escaped table, with its first record treated like every other. */
  function WriteRecords(records: seq<seq<string>>): string {
    Join(WriteAll(records), '\n')
  }

  /** The export: the header is joined as it is, the cells are escaped. */
  function ExportCsv(columns: seq<string>, rows: seq<Row>): string {
    Join([Join(columns, ',')] + WriteAll(Records(rows, columns)), '\n')
  }

  // ---------- The reader ----------

  /** What may end a record: a line feed alone, or as well a carriage return with its line feed. */
  datatype Ends = LineFeed | EitherEnd

  predicate EndsField(ends: Ends, rest: string) {
    || rest == "" || rest[0] == ',' || rest[0] == '\n'
    || (ends.EitherEnd? && |rest| > 1 && rest[0] == '\r' && rest[1] == '\n')
  }

  /** An unquoted field runs to the next separator and holds no quote. */
  function ReadPlain(ends: Ends, s: string): (r: Option<(string, string)>)
    ensures r.Some? ==> |r.value.1| <= |s| && EndsField(ends, r.value.1)
    decreases |s|
  {
    if EndsField(ends, s) then Some(("", s))
    else if s[0] == '"' then None
    else
      match ReadPlain(ends, s[1..])
      case None => None
      case Some((field, rest)) => Some(([s[0]] + field, rest))
  }

  /** The part of a quoted field after its opening quote. */
  function ReadQuoted(ends: Ends, s: string): (r: Option<(string, string)>)
    ensures r.Some? ==> |r.value.1| < |s| && EndsField(ends, r.value.1)
    decreases |s|
  {
    if s == "" then None
    else if s[0] == '"' && !(|s| > 1 && s[1] == '"') then
      if EndsField(ends, s[1..]) then Some(("", s[1..])) else None
    else
      match ReadQuoted(ends, if s[0] == '"' then s[2..] else s[1..])
      case None => None
      case Some((field, rest)) => Some(([s[0]] + field, rest))
  }

  function ReadField(ends: Ends, s: string): (r: Option<(string, string)>)
    ensures r.Some? ==> |r.value.1| <= |s| && EndsField(ends, r.value.1)
  {
    if s != "" && s[0] == '"' then ReadQuoted(ends, s[1..]) else ReadPlain(ends, s)
  }

  /** What is left behind the separator at the front. */
  function Behind(rest: string): (more: string)
    requires rest != "" && (rest[0] == '\r' ==> |rest| > 1)
    ensures |more| < |rest|
  {
    if rest[0] == '\r' then rest[2..] else rest[1..]
  }

  /** The whole text, with every record end outside quotes separating two records. */
  function Read(ends: Ends, s: string): (r: Option<seq<seq<string>>>)
    ensures r.Some? ==> |r.value| >= 1 && forall i :: 0 <= i < |r.value| ==> |r.value[i]| >= 1
    decreases |s|
  {
    match ReadField(ends, s)
    case None => None
    case Some((field, rest)) =>
      if rest == "" then Some([[field]])
      else
        match Read(ends, Behind(rest))
        case None => None
        case Some(records) =>
          if rest[0] == ',' then Some([[field] + records[0]] + records[1..]) else Some([[field]] + records)
  }

  /** The reading of section 2, rule 2: a line feed at the very end closes the last record. */
  function ReadClosing(s: string): Option<seq<seq<string>>> {
    var r := Read(LineFeed, s);
    if r.Some? && s != "" && s[|s| - 1] == '\n' then Some(r.value[..|r.value| - 1]) else r
  }

  // ---------- Reading what was written ----------

  /** An unquoted cell whose last character a line feed would turn into a part of the record end. */
  predicate Frays(cell: string) {
    !NeedsQuotes(cell) && cell != "" && cell[|cell| - 1] == '\r'
  }

  predicate Frayed(ends: Ends, cell: string, rest: string) {
    ends.EitherEnd? && Frays(cell) && rest != "" && rest[0] == '\n'
  }

  /** What a reader takes for the written cell in front of a separator, and what it leaves. */
  function Taken(ends: Ends, cell: string, rest: string): (string, string) {
    if Frayed(ends, cell, rest) then (cell[..|cell| - 1], ['\r'] + rest) else (cell, rest)
  }

  lemma {:induction false} ReadPlainCell(ends: Ends, cell: string, rest: string)
    requires !NeedsQuotes(cell) && EndsField(LineFeed, rest)
    ensures ReadPlain(ends, cell + rest) == Some(Taken(ends, cell, rest))
    decreases |cell|
  {
    if cell == "" {
      assert "" + rest == rest;
    } else {
      assert (cell + rest)[1..] == cell[1..] + rest;
      assert cell == [cell[0]] + cell[1..];
      assert cell[0] in cell && (|cell| > 1 ==> cell[1] in cell);
      if cell == ['\r'] && Frayed(ends, cell, rest) {
        assert cell + rest == ['\r'] + rest && cell[..0] == "";
      } else {
        ReadPlainCell(ends, cell[1..], rest);
        FrayedTail(ends, cell, rest);
      }
    }
  }

  /** Taking the first character off changes nothing at the end. */
  lemma FrayedTail(ends: Ends, cell: string, rest: string)
    requires !NeedsQuotes(cell) && cell != "" && !(cell == ['\r'] && Frayed(ends, cell, rest))
    ensures !EndsField(ends, cell + rest)
    ensures var (field, left) := Taken(ends, cell[1..], rest); Taken(ends, cell, rest) == ([cell[0]] + field, left)
  {
    var s := cell + rest;
    assert s[0] == cell[0] && cell[0] in cell;
    assert |cell| > 1 ==> s[1] == cell[1] && cell[1] in cell;
    assert |cell| == 1 ==> s[1..] == rest && cell == [cell[0]];
    assert !NeedsQuotes(cell[1..]);
    if |cell| > 1 {
      assert cell[..|cell| - 1] == [cell[0]] + cell[1..][..|cell| - 2];
    }
    assert cell == [cell[0]] + cell[1..];
  }

  lemma {:induction false} ReadQuotedCell(ends: Ends, cell: string, rest: string)
    requires EndsField(ends, rest)
    ensures ReadQuoted(ends, DoubleQuotes(cell) + "\"" + rest) == Some((cell, rest))
    decreases |cell|
  {
    var s := DoubleQuotes(cell) + "\"" + rest;
    if cell == "" {
      assert s[1..] == rest;
    } else {
      ReadQuotedCell(ends, cell[1..], rest);
      assert cell == [cell[0]] + cell[1..];
      if cell[0] == '"' {
        assert s[2..] == DoubleQuotes(cell[1..]) + "\"" + rest;
      } else {
        assert s[1..] == DoubleQuotes(cell[1..]) + "\"" + rest;
      }
    }
  }

  lemma ReadQuotedText(ends: Ends, cell: string, doubled: string, rest: string)
    requires ReadQuoted(ends, doubled + "\"" + rest) == Some((cell, rest)) && EndsField(ends, rest)
    ensures ReadField(ends, "\"" + doubled + "\"" + rest) == Some((cell, rest))
  {
    var s := "\"" + doubled + "\"" + rest;
    assert s[0] == '"' && s[1..] == doubled + "\"" + rest;
  }

  lemma ReadEscaped(ends: Ends, cell: string, rest: string)
    requires EndsField(LineFeed, rest)
    ensures ReadField(ends, Escape(cell) + rest) == Some(Taken(ends, cell, rest))
  {
    if NeedsQuotes(cell) {
      ReadQuotedCell(ends, cell, rest);
      ReadQuotedText(ends, cell, DoubleQuotes(cell), rest);
    } else {
      ReadPlainCell(ends, cell, rest);
      NoQuoteInFront(cell, rest);
    }
  }

  lemma NoQuoteInFront(cell: string, rest: string)
    requires !NeedsQuotes(cell) && EndsField(LineFeed, rest)
    ensures cell + rest != "" ==> (cell + rest)[0] != '"'
  {
    if cell == "" {
      assert cell + rest == rest;
    } else {
      assert (cell + rest)[0] == cell[0] && cell[0] in cell;
    }
  }

  /** A record as it is read in front of another one. */
  function Trimmed(ends: Ends, record: seq<string>): (r: seq<string>)
    requires record != []
    ensures |r| == |record|
  {
    var n := |record| - 1;
    var last := record[n];
    if ends.EitherEnd? && Frays(last) then record[..n] + [last[..|last| - 1]] else record
  }

  function Prepend(record: seq<string>, r: Option<seq<seq<string>>>): Option<seq<seq<string>>> {
    if r.None? then None else Some([record] + r.value)
  }

  lemma WriteRecordCons(cell: string, cells: seq<string>)
    requires cells != []
    ensures WriteRecord([cell] + cells) == Escape(cell) + "," + WriteRecord(cells)
  {
    assert ([cell] + cells)[1..] == cells;
    assert EscapeAll([cell] + cells) == [Escape(cell)] + EscapeAll(cells);
    assert EscapeAll([cell] + cells)[1..] == EscapeAll(cells);
  }

  lemma WriteRecordOne(cell: string)
    ensures WriteRecord([cell]) == Escape(cell)
  {
    assert EscapeAll([cell]) == [Escape(cell)];
  }

  /** What reading gives when this record is followed by the tail. */
  function Continued(ends: Ends, record: seq<string>, tail: string): Option<seq<seq<string>>>
    requires record != []
  {
    if tail == "" then Some([record]) else Prepend(Trimmed(ends, record), Read(ends, tail[1..]))
  }

  /** One more cell at the front of the first record. */
  function Onto(cell: string, r: Option<seq<seq<string>>>): Option<seq<seq<string>>>
    requires r.Some? ==> r.value != []
  {
    if r.None? then None else Some([[cell] + r.value[0]] + r.value[1..])
  }

  /** Reading goes on behind a comma in the same record. */
  lemma ReadAfterComma(ends: Ends, cell: string, more: string)
    ensures Read(ends, Escape(cell) + ("," + more)) == Onto(cell, Read(ends, more))
  {
    ReadEscaped(ends, cell, "," + more);
    assert ("," + more)[1..] == more;
  }

  /** ... and behind the last cell in the next one, if there is any. */
  lemma ReadLastCell(ends: Ends, cell: string, tail: string)
    requires tail == "" || tail[0] == '\n'
    ensures Read(ends, Escape(cell) + tail) == Continued(ends, [cell], tail)
  {
    ReadEscaped(ends, cell, tail);
    var (field, left) := Taken(ends, cell, tail);
    assert (['\r'] + tail)[1..] == tail;
    assert tail != "" ==> left[0] != ',' && Behind(left) == tail[1..];
    assert tail != "" ==> Trimmed(ends, [cell]) == [field] by {
      assert [cell][..0] + [field] == [field];
    }
  }

  lemma Reassemble(cell: string, rest: seq<string>, after: seq<seq<string>>)
    ensures Onto(cell, Some([rest] + after)) == Some([[cell] + rest] + after)
  {
    assert ([rest] + after)[1..] == after;
  }

  lemma TrimmedCons(ends: Ends, cell: string, rest: seq<string>)
    requires rest != []
    ensures Trimmed(ends, [cell] + rest) == [cell] + Trimmed(ends, rest)
  {
    assert ([cell] + rest)[..|rest|] == [cell] + rest[..|rest| - 1];
  }

  lemma OntoContinued(ends: Ends, cell: string, rest: seq<string>, tail: string)
    requires rest != []
    ensures Onto(cell, Continued(ends, rest, tail)) == Continued(ends, [cell] + rest, tail)
  {
    if tail == "" {
      Reassemble(cell, rest, []);
      assert [rest] + [] == [rest] && [[cell] + rest] + [] == [[cell] + rest];
    } else if Read(ends, tail[1..]).Some? {
      TrimmedCons(ends, cell, rest);
      Reassemble(cell, Trimmed(ends, rest), Read(ends, tail[1..]).value);
    }
  }

  lemma Regroup(first: string, comma: string, others: string, tail: string)
    ensures first + (comma + (others + tail)) == first + comma + others + tail
  {
    ConcatAssoc(comma, others, tail);
    ConcatAssoc(first, comma + others, tail);
    ConcatAssoc(first, comma, others);
  }

  lemma {:induction false} ReadRecord(ends: Ends, cells: seq<string>, tail: string)
    requires cells != [] && (tail == "" || tail[0] == '\n')
    ensures Read(ends, WriteRecord(cells) + tail) == Continued(ends, cells, tail)
    decreases |cells|
  {
    var cell, rest := cells[0], cells[1..];
    if rest == [] {
      assert cells == [cell];
      WriteRecordOne(cell);
      ReadLastCell(ends, cell, tail);
    } else {
      assert cells == [cell] + rest;
      ReadRecord(ends, rest, tail);
      WriteRecordCons(cell, rest);
      Regroup(Escape(cell), ",", WriteRecord(rest), tail);
      ReadAfterComma(ends, cell, WriteRecord(rest) + tail);
      OntoContinued(ends, cell, rest, tail);
    }
  }

  predicate NoEmptyRecord(records: seq<seq<string>>) {
    forall i :: 0 <= i < |records| ==> records[i] != []
  }

  /** The records as they are read: all but the last one stand in front of another. */
  function AsRead(ends: Ends, records: seq<seq<string>>): (r: seq<seq<string>>)
    requires NoEmptyRecord(records)
    ensures |r| == |records|
    ensures forall i :: 0 <= i < |r| ==> r[i] == if i < |r| - 1 then Trimmed(ends, records[i]) else records[i]
  {
    if |records| <= 1 then records else [Trimmed(ends, records[0])] + AsRead(ends, records[1..])
  }

  lemma {:induction false} ReadWritten(ends: Ends, records: seq<seq<string>>)
    requires records != [] && NoEmptyRecord(records)
    ensures Read(ends, WriteRecords(records)) == Some(AsRead(ends, records))
    decreases |records|
  {
    if |records| == 1 {
      ReadRecord(ends, records[0], "");
      assert WriteRecord(records[0]) + "" == WriteRecord(records[0]);
      assert records == [records[0]];
    } else {
      var tail := "\n" + WriteRecords(records[1..]);
      assert WriteAll(records)[1..] == WriteAll(records[1..]);
      assert WriteRecords(records) == WriteRecord(records[0]) + tail;
      ReadRecord(ends, records[0], tail);
      assert tail[1..] == WriteRecords(records[1..]);
      ReadWritten(ends, records[1..]);
    }
  }

  predicate AllPlain(columns: seq<string>) {
    forall i :: 0 <= i < |columns| ==> !NeedsQuotes(columns[i])
  }

  lemma {:induction false} PlainUnescaped(columns: seq<string>)
    requires AllPlain(columns)
    ensures EscapeAll(columns) == columns
  {
    if columns != [] {
      assert forall i :: 0 <= i < |columns[1..]| ==> columns[1..][i] == columns[i + 1];
      PlainUnescaped(columns[1..]);
      assert Escape(columns[0]) == columns[0];
      assert columns == [columns[0]] + columns[1..];
    }
  }

  lemma ExportIsWritten(columns: seq<string>, rows: seq<Row>)
    requires columns != [] && AllPlain(columns)
    ensures ExportCsv(columns, rows) == WriteRecords([columns] + Records(rows, columns))
  {
    var records := [columns] + Records(rows, columns);
    PlainUnescaped(columns);
    assert records[1..] == Records(rows, columns);
    assert WriteAll(records) == [Join(columns, ',')] + WriteAll(Records(rows, columns));
  }

  /** The export of a table with at least one column and plain column names reads back as the header followed by
      every cell, whatever commas, quotes and line feeds the cells contain: the text of a present value, and an
      empty field for a null or a missing one. */
  lemma ExportReadsBack(columns: seq<string>, rows: seq<Row>)
    requires columns != [] && AllPlain(columns)
    ensures ReadsTable(Read(LineFeed, ExportCsv(columns, rows)), columns, rows)
  {
    ReadsRecords(columns, rows);
    ShowsIffRecords([columns] + Records(rows, columns), columns, rows);
  }

  lemma ReadsRecords(columns: seq<string>, rows: seq<Row>)
    requires columns != [] && AllPlain(columns)
    ensures Read(LineFeed, ExportCsv(columns, rows)) == Some([columns] + Records(rows, columns))
  {
    var records := [columns] + Records(rows, columns);
    ExportIsWritten(columns, rows);
    ReadWritten(LineFeed, records);
    assert AsRead(LineFeed, records) == records;
  }

  // ---------- The writer's text is the shortest, so the condition on the names is exact ----------

  lemma {:induction false} DoubledLength(cell: string)
    ensures |DoubleQuotes(cell)| >= |cell|
  {
    if cell != "" {
      DoubledLength(cell[1..]);
    }
  }

  lemma {:induction false} ReadPlainLength(ends: Ends, s: string)
    requires ReadPlain(ends, s).Some?
    ensures var (field, rest) := ReadPlain(ends, s).value;
            !NeedsQuotes(field) && |s| == |field| + |rest|
    decreases |s|
  {
    if !EndsField(ends, s) {
      ReadPlainLength(ends, s[1..]);
    }
  }

  lemma {:induction false} ReadQuotedLength(ends: Ends, s: string)
    requires ReadQuoted(ends, s).Some?
    ensures var (field, rest) := ReadQuoted(ends, s).value;
            |s| == |DoubleQuotes(field)| + 1 + |rest|
    decreases |s|
  {
    if !(s[0] == '"' && !(|s| > 1 && s[1] == '"')) {
      var tail := if s[0] == '"' then s[2..] else s[1..];
      ReadQuotedLength(ends, tail);
      var (field, rest) := ReadQuoted(ends, tail).value;
      assert ([s[0]] + field)[1..] == field;
    }
  }

  lemma ReadFieldLength(ends: Ends, s: string)
    requires ReadField(ends, s).Some?
    ensures var (field, rest) := ReadField(ends, s).value;
            |s| >= |Escape(field)| + |rest|
  {
    if s != "" && s[0] == '"' {
      ReadQuotedLength(ends, s[1..]);
      DoubledLength(ReadQuoted(ends, s[1..]).value.0);
    } else {
      ReadPlainLength(ends, s);
    }
  }

  lemma WriteSingle(field: string, records: seq<seq<string>>)
    requires records != []
    ensures WriteRecords([[field]]) == Escape(field)
    ensures WriteRecords([[field]] + records) == Escape(field) + "\n" + WriteRecords(records)
  {
    assert EscapeAll([field]) == [Escape(field)];
    assert WriteRecord([field]) == Escape(field);
    assert WriteAll([[field]]) == [Escape(field)] + WriteAll([]);
    assert ([[field]] + records)[1..] == records;
  }

  lemma WriteCons(field: string, records: seq<seq<string>>)
    requires records != [] && records[0] != []
    ensures WriteRecords([[field] + records[0]] + records[1..]) == Escape(field) + "," + WriteRecords(records)
  {
    var first := [field] + records[0];
    var all := [first] + records[1..];
    assert first[1..] == records[0];
    assert EscapeAll(first) == [Escape(field)] + EscapeAll(records[0]);
    assert WriteRecord(first) == Escape(field) + "," + WriteRecord(records[0]);
    assert all[1..] == records[1..];
    assert WriteAll(all) == [WriteRecord(first)] + WriteAll(records[1..]);
    assert WriteAll(records) == [WriteRecord(records[0])] + WriteAll(records[1..]);
    if |records| == 1 {
      assert WriteRecords(records) == WriteRecord(records[0]);
    } else {
      assert WriteAll(all)[1..] == WriteAll(records)[1..];
    }
  }

  /** No text that reads as these records is shorter than the one the escaping writer produces. */
  lemma {:induction false} WriterIsShortest(ends: Ends, s: string)
    requires Read(ends, s).Some?
    ensures |s| >= |WriteRecords(Read(ends, s).value)|
    decreases |s|
  {
    var (field, rest) := ReadField(ends, s).value;
    ReadFieldLength(ends, s);
    if rest == "" {
      WriteSingle(field, [[""]]);
    } else {
      WriterIsShortest(ends, Behind(rest));
      var records := Read(ends, Behind(rest)).value;
      if rest[0] == ',' {
        WriteCons(field, records);
      } else {
        WriteSingle(field, records);
      }
    }
  }

  lemma {:induction false} EscapingLengthens(columns: seq<string>)
    ensures |WriteRecord(columns)| >= |Join(columns, ',')|
    ensures |WriteRecord(columns)| == |Join(columns, ',')| ==> AllPlain(columns)
  {
    if columns != [] {
      DoubledLength(columns[0]);
      assert EscapeAll(columns)[1..] == EscapeAll(columns[1..]);
      EscapingLengthens(columns[1..]);
      assert columns == [columns[0]] + columns[1..];
    }
  }

  lemma JoinLength(first: string, lines: seq<string>)
    ensures |Join([first] + lines, '\n')| == |first| + (if lines == [] then 0 else 1 + |Join(lines, '\n')|)
  {
    assert ([first] + lines)[1..] == lines;
  }

  /** The header joined as it is makes the text shorter than full escaping would, unless all names are plain. */
  lemma ExportIsShorter(columns: seq<string>, rows: seq<Row>)
    requires columns != []
    ensures var written := WriteRecords([columns] + Records(rows, columns));
            |ExportCsv(columns, rows)| <= |written| && (|ExportCsv(columns, rows)| == |written| ==> AllPlain(columns))
  {
    var records := [columns] + Records(rows, columns);
    assert records[1..] == Records(rows, columns);
    assert WriteAll(records) == [WriteRecord(columns)] + WriteAll(Records(rows, columns));
    JoinLength(Join(columns, ','), WriteAll(Records(rows, columns)));
    JoinLength(WriteRecord(columns), WriteAll(Records(rows, columns)));
    EscapingLengthens(columns);
  }

  /** Whichever record ends the reader takes, the header can be read back only if the names are plain. */
  lemma OnlyPlainReadsBack(ends: Ends, columns: seq<string>, rows: seq<Row>)
    requires columns != [] && Read(ends, ExportCsv(columns, rows)) == Some([columns] + Records(rows, columns))
    ensures AllPlain(columns)
  {
    WriterIsShortest(ends, ExportCsv(columns, rows));
    ExportIsShorter(columns, rows);
  }

  /** The export reads back if and only if no column name contains a comma, a quote or a line feed. */
  lemma ExportReadsBackIff(columns: seq<string>, rows: seq<Row>)
    requires columns != []
    ensures ReadsTable(Read(LineFeed, ExportCsv(columns, rows)), columns, rows) <==> AllPlain(columns)
  {
    var r := Read(LineFeed, ExportCsv(columns, rows));
    if AllPlain(columns) {
      ExportReadsBack(columns, rows);
    } else if r.Some? {
      ShowsIffRecords(r.value, columns, rows);
      if ReadsTable(r, columns, rows) {
        OnlyPlainReadsBack(LineFeed, columns, rows);
      }
    }
  }

  // ---------- A reader that takes CR LF as a record end as well ----------

  /** A record that is read in front of another one as it is: its last cell is quoted, or does not end in a
      carriage return. */
  predicate Firm(record: seq<string>) {
    record != [] ==> !Frays(record[|record| - 1])
  }

  lemma TrimmedIffFirm(record: seq<string>)
    requires record != []
    ensures Trimmed(EitherEnd, record) == record <==> Firm(record)
  {
    var n := |record| - 1;
    assert record[n] != "" ==> record[n][..|record[n]| - 1] != record[n];
  }

  /** The record in front of row i: the header, or the row before. */
  predicate FirmBefore(i: nat, columns: seq<string>, rows: seq<Row>)
    requires i < |rows| && columns != []
  {
    var last := columns[|columns| - 1];
    if i == 0 then !Frays(last)
    else last in rows[i - 1] && rows[i - 1][last].Present? ==> !Frays(rows[i - 1][last].text)
  }

  lemma FirmBeforeIff(i: nat, columns: seq<string>, rows: seq<Row>)
    requires i < |rows| && columns != []
    ensures FirmBefore(i, columns, rows) <==> Firm(([columns] + Records(rows, columns))[i])
  {
    var n := |columns| - 1;
    if i > 0 {
      RecordsAt(rows, columns, i - 1);
      CellTextsAt(rows[i - 1], columns, n);
    }
  }

  /** With a reader that also takes CR LF, the export reads back if and only if the column names are plain and
      nothing in front of another record ends it with an unquoted carriage return: the writer does not quote it. */
  lemma {:induction false} ExportReadsBackCrLfIff(columns: seq<string>, rows: seq<Row>)
    requires columns != []
    ensures ReadsTable(Read(EitherEnd, ExportCsv(columns, rows)), columns, rows) <==>
              AllPlain(columns) && forall i :: 0 <= i < |rows| ==> FirmBefore(i, columns, rows)
  {
    var records, r := [columns] + Records(rows, columns), Read(EitherEnd, ExportCsv(columns, rows));
    ReadsRecordsCrLfIff(columns, rows);
    if r.Some? {
      ShowsIffRecords(r.value, columns, rows);
    }
    forall i | 0 <= i < |rows|
      ensures FirmBefore(i, columns, rows) <==> Firm(records[i])
    {
      FirmBeforeIff(i, columns, rows);
    }
  }

  lemma {:induction false} ReadsRecordsCrLfIff(columns: seq<string>, rows: seq<Row>)
    requires columns != []
    ensures var records := [columns] + Records(rows, columns);
            Read(EitherEnd, ExportCsv(columns, rows)) == Some(records) <==>
              AllPlain(columns) && forall i :: 0 <= i < |rows| ==> Firm(records[i])
  {
    var records := [columns] + Records(rows, columns);
    if AllPlain(columns) {
      ExportIsWritten(columns, rows);
      ReadWritten(EitherEnd, records);
      var read := AsRead(EitherEnd, records);
      forall i | 0 <= i < |rows|
        ensures read[i] == records[i] <==> Firm(records[i])
      {
        TrimmedIffFirm(records[i]);
      }
      if forall i :: 0 <= i < |rows| ==> Firm(records[i]) {
        assert read == records;
      }
    } else if Read(EitherEnd, ExportCsv(columns, rows)) == Some(records) {
      OnlyPlainReadsBack(EitherEnd, columns, rows);
    }
  }

  // ---------- The line feed that section 2 allows at the end ----------

  predicate EndsInLineFeed(s: string) {
    s != "" && s[|s| - 1] == '\n'
  }

  lemma EscapedEnd(cell: string)
    ensures !EndsInLineFeed(Escape(cell)) && (Escape(cell) == "" <==> cell == "")
  {
    if !NeedsQuotes(cell) && cell != "" {
      assert cell[|cell| - 1] in cell;
    }
  }

  lemma {:induction false} RecordEnd(cells: seq<string>)
    requires cells != []
    ensures !EndsInLineFeed(WriteRecord(cells))
    ensures WriteRecord(cells) == "" <==> cells == [""]
  {
    EscapedEnd(cells[0]);
    if |cells| == 1 {
      assert WriteRecord(cells) == Escape(cells[0]);
      assert cells == [cells[0]];
    } else {
      assert EscapeAll(cells)[1..] == EscapeAll(cells[1..]);
      RecordEnd(cells[1..]);
    }
  }

  lemma {:induction false} TextEnd(records: seq<seq<string>>)
    requires records != [] && forall i :: 0 <= i < |records| ==> records[i] != []
    ensures EndsInLineFeed(WriteRecords(records)) <==> |records| > 1 && records[|records| - 1] == [""]
    ensures WriteRecords(records) == "" <==> records == [[""]]
    decreases |records|
  {
    RecordEnd(records[0]);
    if |records| == 1 {
      assert WriteRecords(records) == WriteRecord(records[0]);
      assert records == [records[0]];
    } else {
      var rest := WriteRecords(records[1..]);
      assert WriteAll(records)[1..] == WriteAll(records[1..]);
      assert WriteRecords(records) == WriteRecord(records[0]) + "\n" + rest;
      TextEnd(records[1..]);
      if rest != "" {
        assert EndsInLineFeed(WriteRecords(records)) <==> EndsInLineFeed(rest);
      }
    }
  }

  lemma {:induction false} OneMoreRecord(records: seq<seq<string>>, last: seq<string>)
    requires records != []
    ensures |WriteRecords(records + [last])| > |WriteRecords(records)|
    decreases |records|
  {
    var more := records + [last];
    JoinLength(WriteRecord(records[0]), WriteAll(records[1..]));
    JoinLength(WriteRecord(records[0]), WriteAll(more[1..]));
    assert more[1..] == records[1..] + [last];
    if |records| > 1 {
      OneMoreRecord(records[1..], last);
    }
  }

  lemma DroppedIsShorter(read: seq<seq<string>>, records: seq<seq<string>>)
    requires read != [] && records != [] && read[..|read| - 1] == records
    ensures |WriteRecords(read)| > |WriteRecords(records)|
  {
    assert read == records + [read[|read| - 1]];
    OneMoreRecord(records, read[|read| - 1]);
  }

  /** Behind a final line feed the reader has dropped a record, so the text is too short for all of the table. */
  lemma DroppedIsMissed(columns: seq<string>, rows: seq<Row>)
    requires columns != [] && EndsInLineFeed(ExportCsv(columns, rows))
    ensures ReadClosing(ExportCsv(columns, rows)) != Some([columns] + Records(rows, columns))
  {
    var s, records := ExportCsv(columns, rows), [columns] + Records(rows, columns);
    ExportIsShorter(columns, rows);
    if Read(LineFeed, s).Some? {
      var read := Read(LineFeed, s).value;
      WriterIsShortest(LineFeed, s);
      if read[..|read| - 1] == records {
        DroppedIsShorter(read, records);
      }
    }
  }

  /** A reader that takes a final line feed as the end of the last record reads the export back if and only if the
      column names are plain, and not a single column has an empty cell in the last row. */
  lemma {:induction false} ExportReadsBackClosingIff(columns: seq<string>, rows: seq<Row>)
    requires columns != []
    ensures ReadsTable(ReadClosing(ExportCsv(columns, rows)), columns, rows)
       <==> AllPlain(columns) && !(|columns| == 1 && rows != [] && ShowsCell("", rows[|rows| - 1], columns[0]))
  {
    var r := ReadClosing(ExportCsv(columns, rows));
    if r.Some? {
      ShowsIffRecords(r.value, columns, rows);
    }
    ClosesRecordsIff(columns, rows);
  }

  lemma {:induction false} ClosesRecordsIff(columns: seq<string>, rows: seq<Row>)
    requires columns != []
    ensures ReadClosing(ExportCsv(columns, rows)) == Some([columns] + Records(rows, columns))
       <==> AllPlain(columns) && !(|columns| == 1 && rows != [] && CellText(rows[|rows| - 1], columns[0]) == "")
  {
    var records, r := [columns] + Records(rows, columns), Read(LineFeed, ExportCsv(columns, rows));
    ExportReadsBackIff(columns, rows);
    if r.Some? {
      ShowsIffRecords(r.value, columns, rows);
    }
    if EndsInLineFeed(ExportCsv(columns, rows)) {
      DroppedIsMissed(columns, rows);
    }
    if AllPlain(columns) {
      ExportIsWritten(columns, rows);
      TextEnd(records);
      LastRecordEmpty(columns, rows);
    }
  }

  lemma LastRecordEmpty(columns: seq<string>, rows: seq<Row>)
    requires columns != []
    ensures var records := [columns] + Records(rows, columns);
            (|records| > 1 && records[|records| - 1] == [""]) <==>
            (|columns| == 1 && rows != [] && CellText(rows[|rows| - 1], columns[0]) == "")
  {
    if rows != [] {
      var row := rows[|rows| - 1];
      RecordsAt(rows, columns, |rows| - 1);
      var records := [columns] + Records(rows, columns);
      assert records[|records| - 1] == CellTexts(row, columns);
      assert CellTexts(row, columns) == [CellText(row, columns[0])] + CellTexts(row, columns[1..]);
      assert |columns| == 1 ==> CellTexts(row, columns) == [CellText(row, columns[0])];
      assert CellTexts(row, columns)[0] == CellText(row, columns[0]);
    }
  }

  lemma {:induction false} RecordsAt(rows: seq<Row>, columns: seq<string>, k: nat)
    requires k < |rows|
    ensures Records(rows, columns)[k] == CellTexts(rows[k], columns)
  {
    if k > 0 {
      RecordsAt(rows[1..], columns, k - 1);
    }
  }
}
