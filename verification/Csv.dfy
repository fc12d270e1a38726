/**
 * The CSV parser and printer (src/lib/csv.ts).
 *
 * `ParseCsv` is the character loop; `Scan` is the recursive function that it computes, one
 * call per state of the loop. The theorems relate `Parse` to the printer.
 */
module Csv {
  import opened Common

  type Row = seq<string>

  const QUOTE := '\"'
  const COMMA := ','
  const LF := '\n'
  const CR := '\r'
  const BOM := '\U{FEFF}'

  // ---------------------------------------------------------------- parser

  /** A line with no cell, or with one empty cell, disappears. */
  predicate Blank(r: Row) {
    r == [] || r == [""]
  }

  function Keep(r: Row): seq<Row> {
    if Blank(r) then [] else [r]
  }

  function NonBlank(rows: seq<Row>): seq<Row> {
    if rows == [] then [] else Keep(rows[0]) + NonBlank(rows[1..])
  }

  function StripBom(text: string): string {
    if text != [] && text[0] == BOM then text[1..] else text
  }

  /** Rows still to be produced from input `s` in the middle of a row and a field. */
  function Scan(s: string, row: Row, field: string, inQuotes: bool): seq<Row>
    decreases |s|
  {
    if s == [] then
      if field != "" || row != [] then Keep(row + [field]) else []
    else if inQuotes then
      if s[0] == QUOTE then
        if 1 < |s| && s[1] == QUOTE then Scan(s[2..], row, field + [QUOTE], true)
        else Scan(s[1..], row, field, false)
      else Scan(s[1..], row, field + [s[0]], true)
    else if s[0] == QUOTE then Scan(s[1..], row, field, true)
    else if s[0] == COMMA then Scan(s[1..], row + [field], "", false)
    else if s[0] == LF || s[0] == CR then
      var n := if s[0] == CR && 1 < |s| && s[1] == LF then 2 else 1;
      Keep(row + [field]) + Scan(s[n..], [], "", false)
    else Scan(s[1..], row, field + [s[0]], false)
  }

  function Parse(text: string): seq<Row> {
    Scan(StripBom(text), [], "", false)
  }

  /** `Scan` one character on inside quotes, read off the whole text. */
  lemma ScanQuoted(s: string, i: nat, row: Row, field: string)
    requires i < |s|
    ensures Scan(s[i..], row, field, true) ==
      if s[i] != QUOTE then Scan(s[i + 1..], row, field + [s[i]], true)
      else if i + 1 < |s| && s[i + 1] == QUOTE then Scan(s[i + 2..], row, field + [QUOTE], true)
      else Scan(s[i + 1..], row, field, false)
  {
    var rest := s[i..];
    assert rest[1..] == s[i + 1..] && (i + 1 < |s| ==> rest[1] == s[i + 1] && rest[2..] == s[i + 2..]);
  }

  /** `Scan` one character on outside quotes. */
  lemma ScanUnquoted(s: string, i: nat, row: Row, field: string)
    requires i < |s|
    ensures Scan(s[i..], row, field, false) ==
      if s[i] == QUOTE then Scan(s[i + 1..], row, field, true)
      else if s[i] == COMMA then Scan(s[i + 1..], row + [field], "", false)
      else if s[i] == LF || s[i] == CR then
        Keep(row + [field]) + Scan(s[i + (if s[i] == CR && i + 1 < |s| && s[i + 1] == LF then 2 else 1)..], [], "", false)
      else Scan(s[i + 1..], row, field + [s[i]], false)
  {
    var rest := s[i..];
    assert rest[1..] == s[i + 1..] && (i + 1 < |s| ==> rest[1] == s[i + 1] && rest[2..] == s[i + 2..]);
  }

  lemma ScanNothing(s: string, row: Row, field: string, inQuotes: bool)
    ensures Scan(s[|s|..], row, field, inQuotes) == if field != "" || row != [] then Keep(row + [field]) else []
  {
  }

  lemma Associate<T>(a: seq<T>, b: seq<T>, c: seq<T>)
    ensures (a + b) + c == a + (b + c)
  {
  }

  /** The loop pushes exactly the rows that `Keep` keeps. */
  lemma PushIsKeep(rows: seq<Row>, row: Row)
    requires row != []
    ensures (if |row| > 1 || row[0] != "" then rows + [row] else rows) == rows + Keep(row)
  {
    assert rows + [] == rows;
    if |row| == 1 { assert row == [row[0]]; }
  }

  /** A line end closes the row: it joins the rows if it is not blank, and the scan goes on behind it. */
  lemma LineEnds(s: string, i: nat, rows: seq<Row>, row: Row, field: string)
    requires i < |s| && (s[i] == LF || s[i] == CR)
    ensures var closed, n := row + [field], if s[i] == CR && i + 1 < |s| && s[i + 1] == LF then 2 else 1;
            rows + Scan(s[i..], row, field, false) ==
              (if |closed| > 1 || closed[0] != "" then rows + [closed] else rows) + Scan(s[i + n..], [], "", false)
  {
    var n := if s[i] == CR && i + 1 < |s| && s[i + 1] == LF then 2 else 1;
    ScanUnquoted(s, i, row, field);
    Associate(rows, Keep(row + [field]), Scan(s[i + n..], [], "", false));
    PushIsKeep(rows, row + [field]);
  }

  method ParseCsv(text: string) returns (rows: seq<Row>)
    ensures rows == Parse(text)
  {
    rows := [];
    var row: Row, field, inQuotes := [], "", false;
    var s := StripBom(text);
    ghost var all := Parse(text);
    assert s[0..] == s;
    var i := 0;
    while i < |s|
      invariant 0 <= i <= |s|
      invariant rows + Scan(s[i..], row, field, inQuotes) == all
    {
      var c := s[i];
      if inQuotes {
        ScanQuoted(s, i, row, field);
        if c == QUOTE {
          if i + 1 < |s| && s[i + 1] == QUOTE { field := field + [QUOTE]; i := i + 1; } else { inQuotes := false; }
        } else {
          field := field + [c];
        }
        i := i + 1;
        continue;
      }
      if c == LF || c == CR { LineEnds(s, i, rows, row, field); } else { ScanUnquoted(s, i, row, field); }
      if c == QUOTE {
        inQuotes := true;
      } else if c == COMMA {
        row, field := row + [field], "";
      } else if c == LF || c == CR {
        if c == CR && i + 1 < |s| && s[i + 1] == LF { i := i + 1; }
        row, field := row + [field], "";
        if |row| > 1 || row[0] != "" { rows := rows + [row]; }
        row := [];
      } else {
        field := field + [c];
      }
      i := i + 1;
    }
    ScanNothing(s, row, field, inQuotes);
    if field != "" || |row| > 0 {
      row := row + [field];
      PushIsKeep(rows, row);
      if |row| > 1 || row[0] != "" { rows := rows + [row]; }
    }
  }

  // --------------------------------------------------------------- printer

  /** A cell value: null prints as nothing, anything else as its text. */
  type Cell = Option<string>

  datatype RowInput = Cells(cells: seq<Cell>) | Keyed(fields: map<string, Cell>)

  predicate NeedsQuotes(s: string) {
    QUOTE in s || COMMA in s || LF in s || CR in s
  }

  function Doubled(s: string): string {
    if s == [] then [] else (if s[0] == QUOTE then [QUOTE, QUOTE] else [s[0]]) + Doubled(s[1..])
  }

  function CellText(s: string): string {
    if NeedsQuotes(s) then [QUOTE] + Doubled(s) + [QUOTE] else s
  }

  function CsvCell(v: Cell): string {
    CellText(v.GetOr(""))
  }

  function Join(parts: seq<string>, sep: string): string {
    if parts == [] then "" else if |parts| == 1 then parts[0] else parts[0] + sep + Join(parts[1..], sep)
  }

  function MapCells(cells: seq<Cell>): seq<string> {
    if cells == [] then [] else [CsvCell(cells[0])] + MapCells(cells[1..])
  }

  function CellsOf(headers: seq<string>, r: RowInput): seq<Cell> {
    match r
    case Cells(cells) => cells
    case Keyed(fields) =>
      seq(|headers|, i requires 0 <= i < |headers| => if headers[i] in fields then fields[headers[i]] else None)
  }

  function Lines(headers: seq<string>, rows: seq<RowInput>): seq<string> {
    if rows == [] then [] else [Join(MapCells(CellsOf(headers, rows[0])), ",")] + Lines(headers, rows[1..])
  }

  function ToCsv(headers: seq<string>, rows: seq<RowInput>): string {
    Join([Join(MapCells(CellsOf(headers, Cells(Somes(headers)))), ",")] + Lines(headers, rows), [CR, LF])
  }

  function Somes(headers: seq<string>): seq<Cell> {
    seq(|headers|, i requires 0 <= i < |headers| => Some(headers[i]))
  }

  // ------------------------------------- rows joined by any line terminators

  datatype Eol = Lf | Cr | CrLf | NoEol {
    function Text(): string {
      match this
      case Lf => [LF]
      case Cr => [CR]
      case CrLf => [CR, LF]
      case NoEol => ""
    }
  }

  function RowText(r: Row): string {
    if r == [] then "" else if |r| == 1 then CellText(r[0]) else CellText(r[0]) + [COMMA] + RowText(r[1..])
  }

  /** One terminator a row; only the last row may go without. */
  predicate Terminators(ends: seq<Eol>) {
    forall i :: 0 <= i < |ends| - 1 ==> ends[i] != NoEol
  }

  function Render(rows: seq<Row>, ends: seq<Eol>): string
    requires |rows| == |ends|
  {
    if rows == [] then "" else RowText(rows[0]) + ends[0].Text() + Render(rows[1..], ends[1..])
  }

  /** The text the printer makes for a row of a given table. */
  function Shown(headers: seq<string>, r: RowInput): Row {
    var cells := CellsOf(headers, r);
    seq(|cells|, i requires 0 <= i < |cells| => cells[i].GetOr(""))
  }

  function Table(headers: seq<string>, rows: seq<RowInput>): seq<Row> {
    [headers] + seq(|rows|, i requires 0 <= i < |rows| => Shown(headers, rows[i]))
  }

  /** The printed text begins with a byte order mark. */
  predicate BomLeads(rows: seq<Row>) {
    && rows != [] && rows[0] != []
    && rows[0][0] != "" && rows[0][0][0] == BOM && !NeedsQuotes(rows[0][0])
  }

  // ---------------------------------------------------- how printed text scans

  lemma {:induction false} ScanDoubled(t: string, rest: string, row: Row, field: string)
    requires rest == [] || rest[0] != QUOTE
    ensures Scan(Doubled(t) + ([QUOTE] + rest), row, field, true) == Scan(rest, row, field + t, false)
    decreases |t|
  {
    var s := Doubled(t) + ([QUOTE] + rest);
    if t == [] {
      assert s == [QUOTE] + rest && field + t == field;
      assert s[1..] == rest;
    } else {
      var tail := Doubled(t[1..]) + ([QUOTE] + rest);
      assert field + t == (field + [t[0]]) + t[1..];
      ScanDoubled(t[1..], rest, row, field + [t[0]]);
      if t[0] == QUOTE {
        assert s == [QUOTE, QUOTE] + tail && s[2..] == tail;
      } else {
        assert s == [t[0]] + tail && s[1..] == tail;
      }
    }
  }

  lemma {:induction false} ScanPlain(t: string, rest: string, row: Row, field: string)
    requires !NeedsQuotes(t)
    ensures Scan(t + rest, row, field, false) == Scan(rest, row, field + t, false)
    decreases |t|
  {
    if t == [] {
      assert t + rest == rest && field + t == field;
    } else {
      assert t[0] in t && (t + rest)[1..] == t[1..] + rest;
      assert field + t == (field + [t[0]]) + t[1..];
      ScanPlain(t[1..], rest, row, field + [t[0]]);
    }
  }

  lemma ScanCell(c: string, rest: string, row: Row)
    requires rest == [] || rest[0] != QUOTE
    ensures Scan(CellText(c) + rest, row, "", false) == Scan(rest, row, c, false)
  {
    if NeedsQuotes(c) {
      QuotedStretch(c, rest, row, "");
    } else {
      ScanPlain(c, rest, row, "");
    }
    assert "" + c == c;
  }

  /** A quoted stretch may open in the middle of a field, and simply continues it. */
  lemma QuotedStretch(t: string, rest: string, row: Row, field: string)
    requires rest == [] || rest[0] != QUOTE
    ensures Scan([QUOTE] + Doubled(t) + [QUOTE] + rest, row, field, false) == Scan(rest, row, field + t, false)
  {
    var s := [QUOTE] + Doubled(t) + [QUOTE] + rest;
    assert s[1..] == Doubled(t) + ([QUOTE] + rest);
    ScanDoubled(t, rest, row, field);
  }

  lemma ScanComma(rest: string, row: Row, field: string)
    ensures Scan([COMMA] + rest, row, field, false) == Scan(rest, row + [field], "", false)
  {
    assert ([COMMA] + rest)[1..] == rest;
  }

  predicate AtLineEnd(rest: string) {
    rest == [] || rest[0] == LF || rest[0] == CR
  }

  /** One cell and the comma after it. */
  lemma ScanCellComma(c: string, rest: string, row: Row)
    ensures Scan(CellText(c) + ([COMMA] + rest), row, "", false) == Scan(rest, row + [c], "", false)
  {
    ScanCell(c, [COMMA] + rest, row);
    ScanComma(rest, row, c);
  }

  lemma RowTextCons(r: Row, rest: string)
    requires |r| > 1
    ensures RowText(r) + rest == CellText(r[0]) + ([COMMA] + (RowText(r[1..]) + rest))
  {
    Associate(CellText(r[0]) + [COMMA], RowText(r[1..]), rest);
    Associate(CellText(r[0]), [COMMA], RowText(r[1..]) + rest);
  }

  /** The cells closed, and the cell open, once a row's text has been scanned up to its end. */
  function ClosedBy(r: Row, row: Row): Row
    requires r != []
  {
    if |r| == 1 then row else ClosedBy(r[1..], row + [r[0]])
  }

  function LastCell(r: Row): string
    requires r != []
  {
    if |r| == 1 then r[0] else LastCell(r[1..])
  }

  lemma {:induction false} ClosedAndOpen(r: Row, row: Row)
    requires r != []
    ensures ClosedBy(r, row) + [LastCell(r)] == row + r
    decreases |r|
  {
    if |r| > 1 {
      ClosedAndOpen(r[1..], row + [r[0]]);
      Associate(row, [r[0]], r[1..]);
      assert r == [r[0]] + r[1..];
    }
  }

  lemma {:induction false} ScanRow(r: Row, rest: string, row: Row)
    requires r != [] && AtLineEnd(rest)
    ensures Scan(RowText(r) + rest, row, "", false) == Scan(rest, ClosedBy(r, row), LastCell(r), false)
    decreases |r|
  {
    if |r| == 1 {
      ScanCell(r[0], rest, row);
    } else {
      RowTextCons(r, rest);
      ScanCellComma(r[0], RowText(r[1..]) + rest, row);
      ScanRow(r[1..], rest, row + [r[0]]);
    }
  }

  /** A CR eats a following LF, but only a blank line is lost by that. */
  lemma ScanEol(e: Eol, rest: string, row: Row, field: string)
    requires e == NoEol ==> rest == []
    ensures Scan(e.Text() + rest, row, field, false) == Keep(row + [field]) + Scan(rest, [], "", false)
  {
    var tail := e.Text() + rest;
    match e
    case NoEol => assert tail == [];
    case Lf => assert tail[1..] == rest;
    case CrLf => assert tail[2..] == rest;
    case Cr =>
      assert tail[1..] == rest;
      if rest != [] && rest[0] == LF {
        assert tail[2..] == rest[1..];
        BlankLine(rest);
      }
  }

  /** A line feed at the start of a line changes nothing. */
  lemma BlankLine(rest: string)
    requires rest != [] && rest[0] == LF
    ensures Scan(rest, [], "", false) == Scan(rest[1..], [], "", false)
  {
    assert [] + [""] == [""];
    assert Keep([""]) == [];
  }

  /** A printed line yields its row, unless blank. */
  lemma ScanLine(r: Row, e: Eol, rest: string)
    requires e == NoEol ==> rest == []
    ensures Scan(RowText(r) + (e.Text() + rest), [], "", false) == Keep(r) + Scan(rest, [], "", false)
  {
    var tail := e.Text() + rest;
    if r == [] {
      assert RowText(r) + tail == tail && [] + [""] == [""];
      ScanEol(e, rest, [], "");
    } else {
      assert AtLineEnd(tail);
      ScanRow(r, tail, []);
      ClosedAndOpen(r, []);
      assert [] + r == r;
      ScanEol(e, rest, ClosedBy(r, []), LastCell(r));
    }
  }

  lemma {:induction false} ScanRender(rows: seq<Row>, ends: seq<Eol>)
    requires |rows| == |ends| && Terminators(ends)
    ensures Scan(Render(rows, ends), [], "", false) == NonBlank(rows)
    decreases |rows|
  {
    if rows != [] {
      var rest := Render(rows[1..], ends[1..]);
      assert Render(rows, ends) == RowText(rows[0]) + (ends[0].Text() + rest);
      assert ends[0] == NoEol ==> |rows| == 1;
      assert forall i :: 0 <= i < |ends[1..]| - 1 ==> ends[1..][i] == ends[i + 1];
      ScanLine(rows[0], ends[0], rest);
      ScanRender(rows[1..], ends[1..]);
    }
  }

  // -------------------------------------------------------- the byte order mark

  function DropLeadingBom(rows: seq<Row>): seq<Row>
    requires BomLeads(rows)
  {
    [[rows[0][0][1..]] + rows[0][1..]] + rows[1..]
  }

  lemma RenderLeads(rows: seq<Row>, ends: seq<Eol>)
    requires |rows| == |ends| && Terminators(ends)
    ensures var t := Render(rows, ends);
            (t != [] && t[0] == BOM) <==> BomLeads(rows)
  {
    if rows != [] && rows[0] != [] {
      var c := rows[0][0];
      assert CellText(c) <= RowText(rows[0]) <= Render(rows, ends);
    }
  }

  lemma RowStripped(r: Row, less: Row)
    requires r != [] && r[0] != "" && r[0][0] == BOM && !NeedsQuotes(r[0])
    requires less == [r[0][1..]] + r[1..]
    ensures RowText(r) == [BOM] + RowText(less)
  {
    assert !NeedsQuotes(less[0]) by { assert forall x :: x in less[0] ==> x in r[0]; }
    assert r[0] == [BOM] + less[0];
    assert less[1..] == r[1..];
  }

  lemma PrefixedRow(r: Row, less: Row, tail: seq<Row>, ends: seq<Eol>)
    requires |ends| == |tail| + 1 && RowText(r) == [BOM] + RowText(less)
    ensures Render([r] + tail, ends) == [BOM] + Render([less] + tail, ends)
  {
    RenderCons(r, tail, ends);
    RenderCons(less, tail, ends);
    Associate([BOM], RowText(less), ends[0].Text() + Render(tail, ends[1..]));
  }

  lemma RenderStripped(rows: seq<Row>, ends: seq<Eol>)
    requires |rows| == |ends| && BomLeads(rows)
    ensures Render(rows, ends) == [BOM] + Render(DropLeadingBom(rows), ends)
  {
    var less := [rows[0][0][1..]] + rows[0][1..];
    RowStripped(rows[0], less);
    PrefixedRow(rows[0], less, rows[1..], ends);
    assert [rows[0]] + rows[1..] == rows;
  }

  lemma RenderCons(r: Row, tail: seq<Row>, ends: seq<Eol>)
    requires |ends| == |tail| + 1
    ensures Render([r] + tail, ends) == RowText(r) + (ends[0].Text() + Render(tail, ends[1..]))
  {
    assert ([r] + tail)[1..] == tail;
  }

  /** What parsing printed rows yields, in every case. */
  function Reparsed(rows: seq<Row>): seq<Row> {
    NonBlank(if BomLeads(rows) then DropLeadingBom(rows) else rows)
  }

  lemma ParseRender(rows: seq<Row>, ends: seq<Eol>)
    requires |rows| == |ends| && Terminators(ends)
    ensures Parse(Render(rows, ends)) == Reparsed(rows)
  {
    RenderLeads(rows, ends);
    if BomLeads(rows) {
      RenderStripped(rows, ends);
      ScanRender(DropLeadingBom(rows), ends);
    } else {
      ScanRender(rows, ends);
    }
  }

  lemma ReparsedExact(rows: seq<Row>)
    ensures Reparsed(rows) == NonBlank(rows) <==> !BomLeads(rows)
  {
    if BomLeads(rows) {
      var less := DropLeadingBom(rows);
      assert less[1..] == rows[1..];
      assert NonBlank(rows) == [rows[0]] + NonBlank(rows[1..]);
      assert NonBlank(less) == Keep(less[0]) + NonBlank(rows[1..]);
      assert less[0][0] != rows[0][0];
      if !Blank(less[0]) {
        assert NonBlank(less)[0] == less[0] && NonBlank(rows)[0] == rows[0];
      } else {
        assert |NonBlank(less)| < |NonBlank(rows)|;
      }
    }
  }

  // ------------------------------------------------------------- main theorems

  lemma {:induction false} JoinIsRender(lines: seq<string>, rows: seq<Row>, ends: seq<Eol>)
    requires |lines| == |rows| == |ends| && rows != []
    requires forall i :: 0 <= i < |rows| ==> lines[i] == RowText(rows[i])
    requires forall i :: 0 <= i < |rows| ==> ends[i] == if i == |rows| - 1 then NoEol else CrLf
    ensures Join(lines, [CR, LF]) == Render(rows, ends)
    decreases |rows|
  {
    if |rows| > 1 {
      JoinIsRender(lines[1..], rows[1..], ends[1..]);
    } else {
      assert Render(rows[1..], ends[1..]) == "";
    }
  }

  lemma {:induction false} CellsJoin(cells: seq<Cell>, r: Row)
    requires |cells| == |r| && forall i :: 0 <= i < |r| ==> r[i] == cells[i].GetOr("")
    ensures Join(MapCells(cells), ",") == RowText(r)
    decreases |cells|
  {
    if cells != [] {
      CellsJoin(cells[1..], r[1..]);
      assert MapCells(cells)[1..] == MapCells(cells[1..]);
      assert |MapCells(cells)| == 1 <==> |cells| == 1 by {
        if |cells| > 1 { assert |MapCells(cells[1..])| > 0; }
      }
    }
  }

  lemma {:induction false} LinesShown(headers: seq<string>, rows: seq<RowInput>)
    ensures |Lines(headers, rows)| == |rows|
    ensures forall i :: 0 <= i < |rows| ==> Lines(headers, rows)[i] == RowText(Shown(headers, rows[i]))
    decreases |rows|
  {
    if rows != [] {
      LinesShown(headers, rows[1..]);
      CellsJoin(CellsOf(headers, rows[0]), Shown(headers, rows[0]));
      forall i | 0 < i < |rows|
        ensures Lines(headers, rows)[i] == RowText(Shown(headers, rows[i]))
      {
        assert Lines(headers, rows)[i] == Lines(headers, rows[1..])[i - 1];
        assert rows[1..][i - 1] == rows[i];
      }
    }
  }

  /** The printer, for array and keyed rows alike, is the CRLF instance of `Render`. */
  lemma ToCsvIsRender(headers: seq<string>, rows: seq<RowInput>, table: seq<Row>) returns (ends: seq<Eol>)
    requires Tabulates(headers, rows, table)
    ensures |ends| == |table| && forall i :: 0 <= i < |ends| ==> ends[i] == if i == |rows| then NoEol else CrLf
    ensures Terminators(ends) && ToCsv(headers, rows) == Render(table, ends)
  {
    ends := seq(|rows| + 1, i => if i == |rows| then NoEol else CrLf);
    TabulatesTable(headers, rows, table);
    LinesShown(headers, rows);
    CellsJoin(Somes(headers), headers);
    var lines := [Join(MapCells(Somes(headers)), ",")] + Lines(headers, rows);
    JoinIsRender(lines, table, ends);
  }

  /** `row` holds the texts of `r`: cell by cell, or, for a keyed row, the value stored under each header. */
  predicate Holds(headers: seq<string>, r: RowInput, row: Row) {
    match r
    case Cells(cells) => |row| == |cells| && forall i :: 0 <= i < |cells| ==> row[i] == TextOf(cells[i])
    case Keyed(fields) =>
      && |row| == |headers|
      && forall i :: 0 <= i < |headers| ==> row[i] == if headers[i] in fields then TextOf(fields[headers[i]]) else ""
  }

  function TextOf(v: Cell): string {
    match v
    case None => ""
    case Some(text) => text
  }

  /** `table` is what is to be printed: the headers, then the rows in order. */
  predicate Tabulates(headers: seq<string>, rows: seq<RowInput>, table: seq<Row>) {
    && |table| == |rows| + 1 && table[0] == headers
    && forall r :: 0 <= r < |rows| ==> Holds(headers, rows[r], table[r + 1])
  }

  lemma HoldsShown(headers: seq<string>, r: RowInput, row: Row)
    requires Holds(headers, r, row)
    ensures row == Shown(headers, r)
  {
  }

  lemma TabulatesTable(headers: seq<string>, rows: seq<RowInput>, table: seq<Row>)
    requires Tabulates(headers, rows, table)
    ensures table == Table(headers, rows)
  {
    forall k | 1 <= k < |table|
      ensures table[k] == Table(headers, rows)[k]
    {
      assert Holds(headers, rows[k - 1], table[k - 1 + 1]);
      HoldsShown(headers, rows[k - 1], table[k]);
    }
  }

  /**
   * Printing a table and parsing it gives back exactly its non-blank rows, whatever the
   * cells contain -- if, and only if, the text does not begin with a byte order mark.
   */
  lemma RoundTrip(headers: seq<string>, rows: seq<RowInput>, table: seq<Row>)
    requires Tabulates(headers, rows, table)
    ensures Parse(ToCsv(headers, rows)) == NonBlank(table) <==> !BomLeads(table)
  {
    TabulatesTable(headers, rows, table);
    var ends := ToCsvIsRender(headers, rows, table);
    ParseRender(table, ends);
    ReparsedExact(table);
  }

  /** The line of a keyed row is the line of the array row with, in each column, the value under its header. */
  lemma KeyedRowsPrintByHeader(
      headers: seq<string>, before: seq<RowInput>, fields: map<string, Cell>, cells: seq<Cell>, later: seq<RowInput>)
    requires |cells| == |headers|
    requires forall i :: 0 <= i < |headers| ==> cells[i] == if headers[i] in fields then fields[headers[i]] else None
    ensures ToCsv(headers, before + [Keyed(fields)] + later) == ToCsv(headers, before + [Cells(cells)] + later)
  {
    assert CellsOf(headers, Keyed(fields)) == cells;
    LinesConcat(headers, before + [Keyed(fields)], later);
    LinesConcat(headers, before + [Cells(cells)], later);
    LinesConcat(headers, before, [Keyed(fields)]);
    LinesConcat(headers, before, [Cells(cells)]);
    assert [Keyed(fields)][1..] == [] && [Cells(cells)][1..] == [];
  }

  lemma {:induction false} LinesConcat(headers: seq<string>, a: seq<RowInput>, b: seq<RowInput>)
    ensures Lines(headers, a + b) == Lines(headers, a) + Lines(headers, b)
    decreases |a|
  {
    if a == [] {
      assert a + b == b;
    } else {
      assert (a + b)[1..] == a[1..] + b;
      LinesConcat(headers, a[1..], b);
    }
  }

  lemma {:induction false} NonBlankKeeps(rows: seq<Row>, r: Row)
    ensures r in NonBlank(rows) <==> r in rows && !Blank(r)
    decreases |rows|
  {
    if rows != [] { NonBlankKeeps(rows[1..], r); }
  }

  /** Parsing the printed table brings back a keyed row, each value in its header's column. */
  lemma KeyedRowComesBack(headers: seq<string>, rows: seq<RowInput>, table: seq<Row>, r: nat)
    requires Tabulates(headers, rows, table) && !BomLeads(table) && r < |rows| && rows[r].Keyed? && !Blank(table[r + 1])
    ensures exists row :: row in Parse(ToCsv(headers, rows)) && |row| == |headers| &&
              forall i :: 0 <= i < |headers| ==>
                row[i] == if headers[i] in rows[r].fields then TextOf(rows[r].fields[headers[i]]) else ""
  {
    RoundTrip(headers, rows, table);
    NonBlankKeeps(table, table[r + 1]);
    assert Holds(headers, rows[r], table[r + 1]);
  }

  /** Nothing is quoted that need not be: only a quote, a comma or a line break makes the printer quote a cell. */
  lemma QuotedExactly(c: string)
    ensures CsvCell(Some(c)) == c <==> '\"' !in c && ',' !in c && '\n' !in c && '\r' !in c
    ensures CsvCell(None) == ""
  {
    if CellText(c) == c && NeedsQuotes(c) { DoubledLength(c); }
  }

  lemma {:induction false} DoubledLength(c: string)
    ensures |Doubled(c)| >= |c|
    decreases |c|
  {
    if c != [] { DoubledLength(c[1..]); }
  }

  /** A quote left open at the end of the text is as good as closed there. */
  lemma UnclosedQuoteCloses(t: string, row: Row, field: string)
    ensures Scan([QUOTE] + Doubled(t), row, field, false) == Scan([QUOTE] + Doubled(t) + [QUOTE], row, field, false)
    ensures Scan([QUOTE] + Doubled(t), row, field, false) ==
              if row + [field + t] == [""] then [] else [row + [field + t]]
  {
    assert ([QUOTE] + Doubled(t))[1..] == Doubled(t);
    ScanOpen(t, row, field);
    QuotedStretch(t, "", row, field);
    assert [QUOTE] + Doubled(t) + [QUOTE] + "" == [QUOTE] + Doubled(t) + [QUOTE];
  }

  lemma {:induction false} ScanOpen(t: string, row: Row, field: string)
    ensures Scan(Doubled(t), row, field, true) == Scan("", row, field + t, false)
    decreases |t|
  {
    if t == [] {
      assert field + t == field;
    } else {
      var tail := Doubled(t[1..]);
      assert field + t == (field + [t[0]]) + t[1..];
      ScanOpen(t[1..], row, field + [t[0]]);
      if t[0] == QUOTE {
        assert Doubled(t) == [QUOTE, QUOTE] + tail && Doubled(t)[2..] == tail;
      } else {
        assert Doubled(t) == [t[0]] + tail && Doubled(t)[1..] == tail;
      }
    }
  }

  /** Rows parse the same whichever line terminators join them, with or without a last one. */
  lemma LineEndingsIrrelevant(rows: seq<Row>, ends: seq<Eol>, ends': seq<Eol>)
    requires |rows| == |ends| == |ends'| && Terminators(ends) && Terminators(ends')
    ensures Parse(Render(rows, ends)) == Parse(Render(rows, ends'))
  {
    ParseRender(rows, ends);
    ParseRender(rows, ends');
  }

  predicate NoBlankRow(rows: seq<Row>) {
    forall r :: r in rows ==> !Blank(r)
  }

  lemma {:induction false} ScanNoBlank(s: string, row: Row, field: string, inQuotes: bool)
    ensures NoBlankRow(Scan(s, row, field, inQuotes))
    decreases |s|
  {
    if s != [] {
      if inQuotes {
        if s[0] == QUOTE {
          if 1 < |s| && s[1] == QUOTE { ScanNoBlank(s[2..], row, field + [QUOTE], true); }
          else { ScanNoBlank(s[1..], row, field, false); }
        } else { ScanNoBlank(s[1..], row, field + [s[0]], true); }
      } else if s[0] == QUOTE { ScanNoBlank(s[1..], row, field, true); }
      else if s[0] == COMMA { ScanNoBlank(s[1..], row + [field], "", false); }
      else if s[0] == LF || s[0] == CR {
        ScanNoBlank(s[1..], [], "", false);
        if |s| > 1 { ScanNoBlank(s[2..], [], "", false); }
      } else { ScanNoBlank(s[1..], row, field + [s[0]], false); }
    }
  }

  lemma {:induction false} NonBlankIdentity(rows: seq<Row>)
    requires NoBlankRow(rows)
    ensures NonBlank(rows) == rows
    decreases |rows|
  {
    if rows != [] {
      assert rows[0] in rows;
      NonBlankIdentity(rows[1..]);
    }
  }

  /** Whatever the text, its parse has no blank row, and printing that parse is a normal form. */
  lemma NormalForm(text: string, ends: seq<Eol>)
    requires |Parse(text)| == |ends| && Terminators(ends)
    ensures NoBlankRow(Parse(text))
    ensures Parse(Render(Parse(text), ends)) == Parse(text) <==> !BomLeads(Parse(text))
  {
    var rows := Parse(text);
    ScanNoBlank(StripBom(text), [], "", false);
    NonBlankIdentity(rows);
    ParseRender(rows, ends);
    ReparsedExact(rows);
  }

  /** A header that begins with a byte order mark comes back without it. */
  lemma LeadingBomIsLost()
    ensures Parse(ToCsv([[BOM, 'a']], [])) == [["a"]]
  {
    var h := [BOM, 'a'];
    var table := [[h]];
    var ends := ToCsvIsRender([h], [], table);
    assert BomLeads(table);
    ParseRender(table, ends);
    assert table[0][0][1..] == "a" && table[0][1..] == [] && table[1..] == [];
    assert [table[0][0][1..]] + table[0][1..] == ["a"];
    assert DropLeadingBom(table) == [["a"]];
    assert NonBlank([["a"]]) == Keep(["a"]) + NonBlank([]) == [["a"]];
  }
}
