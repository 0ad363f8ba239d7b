/** The Gwalior bench of the Madhya Pradesh High Court: one record per court row of
    the board, with the scrape time. */
module Gwalior {
  import opened Text
  import opened Dom
  import opened MadhyaPradesh

  datatype Record = Record(courtNo: string, srNo: string, caseNo: string, petitioner: string,
                           respondent: string, message: string, dateTime: string)

  /** What a row gives: one record when it is a court row, none otherwise. */
  function RowRecords(row: Row, time: string): (r: seq<Record>)
    ensures |r| == if IsCourtRow(row) then 1 else 0
  {
    match RowFields(row)
    case None => []
    case Some(f) => [Record(f.courtNo, f.srNo, f.caseNo, f.petitioner, f.respondent, f.message, time)]
  }

  function RowDecoder(time: string): Row -> seq<Record> {
    (row: Row) => RowRecords(row, time)
  }

  /** The records of the page: those of the board's rows after the header, in order. */
  function Scrape(tables: seq<Table>, time: string): seq<Record> {
    FlatMap(BoardRows(tables), RowDecoder(time))
  }

  /** The body of the row loop: the record of a court row, none for another row. */
  method DecodeRow(row: Row, time: string) returns (r: seq<Record>)
    ensures r == RowRecords(row, time)
  {
    var f := ReadRow(row);
    r := [];
    if f.Some? {
      var v := f.value;
      r := [Record(v.courtNo, v.srNo, v.caseNo, v.petitioner, v.respondent, v.message, time)];
    }
  }

  /** scrape_display_board once the bench is selected: the first `board_id` table, its
      rows after the header, each court row appended as a record. */
  method ScrapeDisplayBoard(tables: seq<Table>, time: string) returns (recs: seq<Record>)
    ensures recs == Scrape(tables, time)
  {
    recs := [];
    if |tables| > 0 {
      var rows := tables[0].rows;
      var body := if |rows| > 0 then rows[1..] else [];
      assert body == BoardRows(tables);
      for i := 0 to |body|
        invariant recs == FlatMap(body[..i], RowDecoder(time))
      {
        var r := DecodeRow(body[i], time);
        FlatMapSnoc(body, i, RowDecoder(time));
        recs := recs + r;
      }
      assert body[..|body|] == body;
    }
  }

  // ---------------------------------------------------------------------------
  // What the records say

  /** The records number the court rows after the header. */
  lemma RecordCount(tables: seq<Table>, time: string)
    ensures |Scrape(tables, time)| == CountWhere(BoardRows(tables), IsCourtRow)
  {
    FlatMapCount(BoardRows(tables), RowDecoder(time), IsCourtRow);
  }

  /** Every record is the record of a court row after the header. */
  lemma RecordOrigin(tables: seq<Table>, time: string, k: nat)
    requires k < |Scrape(tables, time)|
    ensures exists i :: 0 <= i < |BoardRows(tables)| && IsCourtRow(BoardRows(tables)[i])
              && Scrape(tables, time)[k] == RowRecords(BoardRows(tables)[i], time)[0]
  {
    FlatMapOriginSingle(BoardRows(tables), RowDecoder(time), k);
  }

  /** A row that is not a court row, whatever its place, adds nothing. */
  lemma OtherRowIgnored(xs: seq<Row>, row: Row, ys: seq<Row>, time: string)
    requires !IsCourtRow(row)
    ensures FlatMap(xs + [row] + ys, RowDecoder(time)) == FlatMap(xs + ys, RowDecoder(time))
  {
    FlatMapSkip(xs, row, ys, RowDecoder(time));
  }

  /** When every row after the header is a court row, the k-th record is row k + 1's. */
  lemma EveryRowACourt(tables: seq<Table>, time: string)
    requires forall i :: 0 <= i < |BoardRows(tables)| ==> IsCourtRow(BoardRows(tables)[i])
    ensures |Scrape(tables, time)| == |BoardRows(tables)|
    ensures forall k :: 0 <= k < |BoardRows(tables)| ==>
              Scrape(tables, time)[k] == RowRecords(BoardRows(tables)[k], time)[0]
  {
    FlatMapOnePerRow(BoardRows(tables), RowDecoder(time));
  }
}
