/** The Jabalpur bench of the Madhya Pradesh High Court: the Gwalior scraper's records
    with the bench name and sub-bench number in front. */
module Jabalpur {
  import opened Text
  import opened Dom
  import opened MadhyaPradesh
  import Gwalior

  const BenchName := "jabalpur"
  const SubBenchNo := "26"

  datatype Record = Record(benchName: string, subBenchNo: string, courtNo: string, srNo: string,
                           caseNo: string, petitioner: string, respondent: string, message: string,
                           dateTime: string)

  /** What a row gives: one record when it is a court row, none otherwise. */
  function RowRecords(row: Row, time: string): (r: seq<Record>)
    ensures |r| == if IsCourtRow(row) then 1 else 0
    ensures forall k :: 0 <= k < |r| ==> r[k].benchName == BenchName && r[k].subBenchNo == SubBenchNo
  {
    match RowFields(row)
    case None => []
    case Some(f) =>
      [Record(BenchName, SubBenchNo, f.courtNo, f.srNo, f.caseNo, f.petitioner, f.respondent, f.message, time)]
  }

  function RowDecoder(time: string): Row -> seq<Record> {
    (row: Row) => RowRecords(row, time)
  }

  /** The records of the page: those of the board's rows after the header, in order. */
  function Scrape(tables: seq<Table>, time: string): seq<Record> {
    FlatMap(BoardRows(tables), RowDecoder(time))
  }

  /** The body of the row loop: the record of a court row, none for another row. */
  method DecodeRow(row: Row, time: string) returns (r: seq<Record>)
    ensures r == RowRecords(row, time)
  {
    var f := ReadRow(row);
    r := [];
    if f.Some? {
      var v := f.value;
      r := [Record(BenchName, SubBenchNo, v.courtNo, v.srNo, v.caseNo, v.petitioner,
                   v.respondent, v.message, time)];
    }
  }

  /** scrape_display_board once the bench is selected. */
  method ScrapeDisplayBoard(tables: seq<Table>, time: string) returns (recs: seq<Record>)
    ensures recs == Scrape(tables, time)
  {
    recs := [];
    if |tables| > 0 {
      var rows := tables[0].rows;
      var body := if |rows| > 0 then rows[1..] else [];
      assert body == BoardRows(tables);
      for i := 0 to |body|
        invariant recs == FlatMap(body[..i], RowDecoder(time))
      {
        var r := DecodeRow(body[i], time);
        FlatMapSnoc(body, i, RowDecoder(time));
        recs := recs + r;
      }
      assert body[..|body|] == body;
    }
  }

  // ---------------------------------------------------------------------------
  // What the records say

  /** A Gwalior record with the Jabalpur bench columns in front. */
  function WithBench(g: Gwalior.Record): Record {
    Record(BenchName, SubBenchNo, g.courtNo, g.srNo, g.caseNo, g.petitioner, g.respondent, g.message,
           g.dateTime)
  }

  /** The two benches read the board alike: row for row, the Jabalpur records are the
      Gwalior records with the bench columns added. */
  lemma {:induction false} SameBoardAsGwalior(rows: seq<Row>, time: string)
    ensures |FlatMap(rows, RowDecoder(time))| == |FlatMap(rows, Gwalior.RowDecoder(time))|
    ensures forall k :: 0 <= k < |FlatMap(rows, RowDecoder(time))| ==>
              FlatMap(rows, RowDecoder(time))[k] == WithBench(FlatMap(rows, Gwalior.RowDecoder(time))[k])
    decreases |rows|
  {
    if rows != [] {
      var init := rows[..|rows| - 1];
      var last := rows[|rows| - 1];
      SameBoardAsGwalior(init, time);
      var j, g := RowRecords(last, time), Gwalior.RowRecords(last, time);
      assert |j| == |g| && forall k :: 0 <= k < |j| ==> j[k] == WithBench(g[k]);
    }
  }

  /** Hence the page gives as many records at Jabalpur as at Gwalior, each the Gwalior
      record with the bench columns. */
  lemma ScrapeAsGwalior(tables: seq<Table>, time: string)
    ensures |Scrape(tables, time)| == |Gwalior.Scrape(tables, time)|
    ensures forall k :: 0 <= k < |Scrape(tables, time)| ==>
              Scrape(tables, time)[k] == WithBench(Gwalior.Scrape(tables, time)[k])
  {
    SameBoardAsGwalior(BoardRows(tables), time);
  }

  /** The records number the court rows after the header, and every one carries the
      bench name and sub-bench number. */
  lemma RecordCount(tables: seq<Table>, time: string)
    ensures |Scrape(tables, time)| == CountWhere(BoardRows(tables), IsCourtRow)
    ensures forall k :: 0 <= k < |Scrape(tables, time)| ==>
              Scrape(tables, time)[k].benchName == BenchName && Scrape(tables, time)[k].subBenchNo == SubBenchNo
  {
    ScrapeAsGwalior(tables, time);
    Gwalior.RecordCount(tables, time);
  }
}
