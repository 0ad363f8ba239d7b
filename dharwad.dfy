/** The Dharwad bench on the Karnataka High Court display board. The page carries one
    table per bench, each headed "CH No. | List No. | Sl. No. | Case No. | Stage"
    among other tables; the Dharwad bench is the third of the tables so headed, and
    every one of its rows of five cells or more is kept, sessions or not. */
module Dharwad {
  import opened Text
  import opened Dom

  const BenchName := "dharwad"
  const SubBenchNo := "23"

  datatype Record = Record(bench: string, subBench: string, chNo: string, listNo: string,
                           slNo: string, caseNo: string, stage: string, dateTime: string)

  // ---------------------------------------------------------------------------
  // Which tables are data tables

  /** The texts of cells, each read by extract_cell_text. */
  function Texts(cells: seq<Cell>): (texts: seq<string>)
    ensures |texts| == |cells| && forall i :: 0 <= i < |cells| ==> texts[i] == CellText(cells[i])
  {
    seq(|cells|, i requires 0 <= i < |cells| => CellText(cells[i]))
  }

  /** " ".join of the header cells' texts. */
  function HeaderText(row: Row): string {
    Join(Texts(HeaderCells(row)), ' ')
  }

  /** A data table has a first row whose header text mentions "CH No." or "CH No". */
  predicate IsDataTable(t: Table) {
    t.rows != [] && (Contains(HeaderText(t.rows[0]), "CH No.") || Contains(HeaderText(t.rows[0]), "CH No"))
  }

  /** The data tables, in page order. */
  function DataTables(tables: seq<Table>): seq<Table> {
    Filter(tables, IsDataTable)
  }

  /** The first test is redundant: a header is a data-table header exactly when it
      mentions "CH No". */
  lemma DataTableIff(t: Table)
    ensures IsDataTable(t) <==> t.rows != [] && Contains(HeaderText(t.rows[0]), "CH No")
  {
    if t.rows != [] {
      var h := HeaderText(t.rows[0]);
      if Contains(h, "CH No.") {
        var i :| 0 <= i <= |h| - |"CH No."| && OccursAt(h, "CH No.", i);
        assert h[i..i + |"CH No"|] == h[i..i + |"CH No."|][..|"CH No"|];
        assert OccursAt(h, "CH No", i);
      }
    }
  }

  // ---------------------------------------------------------------------------
  // The Dharwad table's rows

  /** A row of five cells or more gives one record from its first five, whatever they
      hold; a shorter row gives none. */
  function RowRecords(cells: seq<Cell>, time: string): (r: seq<Record>)
    ensures |r| == if |cells| >= 5 then 1 else 0
  {
    if |cells| >= 5 then
      [Record(BenchName, SubBenchNo, CellText(cells[0]), CellText(cells[1]), CellText(cells[2]),
              CellText(cells[3]), CellText(cells[4]), time)]
    else []
  }

  function RowDecoder(time: string): Row -> seq<Record> {
    (row: Row) => RowRecords(row.td, time)
  }

  /** The records of a table: one per row after the header, as RowRecords gives. */
  function TableRecords(rows: seq<Row>, time: string): seq<Record> {
    if rows == [] then [] else FlatMap(rows[1..], RowDecoder(time))
  }

  /** The records of the page: those of the third data table, none when there are
      fewer than three. */
  function Scrape(tables: seq<Table>, time: string): seq<Record> {
    var data := DataTables(tables);
    if |data| >= 3 then TableRecords(data[2].rows, time) else []
  }

  // ---------------------------------------------------------------------------
  // scrape_display_board

  /** Whether one table is a data table, as the table loop tests it. */
  method TestTable(t: Table) returns (isData: bool)
    ensures isData == IsDataTable(t)
  {
    if t.rows == [] {
      return false;
    }
    var headerText := HeaderText(t.rows[0]);
    isData := Contains(headerText, "CH No.") || Contains(headerText, "CH No");
  }

  /** The loop that collects the data tables. */
  method FindDataTables(tables: seq<Table>) returns (data: seq<Table>)
    ensures data == DataTables(tables)
  {
    data := [];
    for idx := 0 to |tables|
      invariant data == Filter(tables[..idx], IsDataTable)
    {
      var isData := TestTable(tables[idx]);
      assert tables[..idx + 1][..idx] == tables[..idx];
      if isData {
        data := data + [tables[idx]];
      }
    }
    assert tables[..|tables|] == tables;
  }

  /** The body of the row loop. */
  method DecodeRow(cells: seq<Cell>, time: string) returns (recs: seq<Record>)
    ensures recs == RowRecords(cells, time)
  {
    recs := [];
    if |cells| >= 5 {
      var chNo := CellText(cells[0]);
      var listNo := CellText(cells[1]);
      var slNo := CellText(cells[2]);
      var caseNo := CellText(cells[3]);
      var stage := CellText(cells[4]);
      recs := [Record(BenchName, SubBenchNo, chNo, listNo, slNo, caseNo, stage, time)];
    }
  }

  /** scrape_display_board: the third data table's rows after the header, in order. */
  method ScrapeDisplayBoard(tables: seq<Table>, time: string) returns (recs: seq<Record>)
    ensures recs == Scrape(tables, time)
  {
    var dataTables := FindDataTables(tables);
    recs := [];
    if |dataTables| >= 3 {
      var rows := dataTables[2].rows;
      if rows == [] {
        return;
      }
      var body := rows[1..];
      for i := 0 to |body|
        invariant recs == FlatMap(body[..i], RowDecoder(time))
      {
        var r := DecodeRow(body[i].td, time);
        FlatMapSnoc(body, i, RowDecoder(time));
        recs := recs + r;
      }
      assert body[..|body|] == body;
    }
  }

  // ---------------------------------------------------------------------------
  // What the records say

  /** Nothing is filtered: a table whose rows after the header all have five cells or
      more gives one record per row, the k-th from row k + 1. */
  lemma EveryRowKept(rows: seq<Row>, time: string)
    requires rows != []
    requires forall i :: 1 <= i < |rows| ==> |rows[i].td| >= 5
    ensures |TableRecords(rows, time)| == |rows| - 1
    ensures forall k :: 0 <= k < |rows| - 1 ==> TableRecords(rows, time)[k] == RowRecords(rows[k + 1].td, time)[0]
  {
    var body := rows[1..];
    assert forall i :: 0 <= i < |body| ==> body[i] == rows[i + 1];
    FlatMapOnePerRow(body, RowDecoder(time));
  }

  /** In any table the records number the rows after the header that have five cells
      or more. */
  lemma RecordCount(rows: seq<Row>, time: string)
    requires rows != []
    ensures |TableRecords(rows, time)| == CountWhere(rows[1..], HasFiveCells)
  {
    FlatMapCount(rows[1..], RowDecoder(time), HasFiveCells);
  }

  function HasFiveCells(row: Row): bool { |row.td| >= 5 }

  /** Cells 0-4 are CH No, List No, Sl. No, Case No and Stage; cells past the fifth
      are ignored. */
  lemma FieldPlacement(cells: seq<Cell>, time: string)
    requires |cells| >= 5
    ensures var r := RowRecords(cells, time)[0];
            r.bench == BenchName && r.subBench == SubBenchNo && r.chNo == CellText(cells[0])
            && r.listNo == CellText(cells[1]) && r.slNo == CellText(cells[2])
            && r.caseNo == CellText(cells[3]) && r.stage == CellText(cells[4]) && r.dateTime == time
    ensures RowRecords(cells, time) == RowRecords(cells[..5], time)
  {
  }

  /** Fewer than three data tables: nothing. */
  lemma TooFewDataTables(tables: seq<Table>, time: string)
    requires |DataTables(tables)| < 3
    ensures Scrape(tables, time) == []
  {
  }

  /** A table that is not a data table changes nothing, wherever it stands. */
  lemma OtherTableIgnored(ts: seq<Table>, t: Table, us: seq<Table>, time: string)
    requires !IsDataTable(t)
    ensures Scrape(ts + [t] + us, time) == Scrape(ts + us, time)
  {
    FilterSkip(ts, t, us, IsDataTable);
  }

  /** Once three data tables have been seen, the tables after them change nothing. */
  lemma LaterTablesIgnored(ts: seq<Table>, us: seq<Table>, time: string)
    requires |DataTables(ts)| >= 3
    ensures Scrape(ts + us, time) == Scrape(ts, time)
  {
    FilterAppend(ts, us, IsDataTable);
  }

  /** A data table preceded by exactly two others is the one decoded. */
  lemma ThirdDataTable(ts: seq<Table>, t: Table, us: seq<Table>, time: string)
    requires |DataTables(ts)| == 2 && IsDataTable(t)
    ensures Scrape(ts + [t] + us, time) == TableRecords(t.rows, time)
  {
    FilterKeep(ts, t, us, IsDataTable);
    assert DataTables(ts + [t] + us)[2] == t;
  }
}
