/** The standalone Chhattisgarh (Bilaspur) board scraper: a six-column table, one
    court per row, where a short row may only announce that a court is not sitting. */
module ChhattisgarhBoard {
  import opened Text
  import opened Dom

  /** One spreadsheet row. */
  datatype Record = Record(courtNo: string, listType: string, slNo: string, caseNo: string,
                           party: string, purpose: string, dateTime: string)

  const NotInSessionList := "Not in Session"
  const NotInSessionPurpose := "Court Not in Session"

  /** The test a short row's first cell must pass: it holds "Court Not in Session", or
      "not in session" in any letter case. */
  predicate SaysNotInSession(text: string) {
    Contains(text, "Court Not in Session") || Contains(Lower(text), "not in session")
  }

  /** The record of one data row: none, a not-in-session record, or the six columns. */
  function RowRecords(cells: seq<Cell>, time: string): (r: seq<Record>)
    ensures |r| <= 1
  {
    if |cells| < 6 then
      if |cells| > 0 && SaysNotInSession(cells[0].text) then
        [Record(cells[0].text, NotInSessionList, "", "", "", NotInSessionPurpose, time)]
      else []
    else
      [Record(cells[0].text, cells[1].text, cells[2].text, cells[3].text, cells[4].text, cells[5].text, time)]
  }

  function Decoder(time: string): Row -> seq<Record> {
    (row: Row) => RowRecords(row.td, time)
  }

  /** The records of the table: every row after the header row, in order. */
  function Scrape(rows: seq<Row>, time: string): seq<Record> {
    if rows == [] then [] else FlatMap(rows[1..], Decoder(time))
  }

  /** One pass of the loop body. */
  method DecodeRow(cells: seq<Cell>, time: string) returns (recs: seq<Record>)
    ensures recs == RowRecords(cells, time)
  {
    recs := [];
    if |cells| < 6 {
      if |cells| > 0 {
        var rowText := cells[0].text;
        if Contains(rowText, "Court Not in Session") || Contains(Lower(rowText), "not in session") {
          recs := recs + [Record(cells[0].text, NotInSessionList, "", "", "", NotInSessionPurpose, time)];
        }
      }
      return;
    }
    recs := recs + [Record(cells[0].text, cells[1].text, cells[2].text, cells[3].text, cells[4].text, cells[5].text, time)];
  }

  /** The `for row in rows[1:]` loop. */
  method ScrapeDisplayBoard(rows: seq<Row>, time: string) returns (recs: seq<Record>)
    ensures recs == Scrape(rows, time)
  {
    recs := [];
    if rows == [] {
      return;
    }
    var body := rows[1..];
    for i := 0 to |body|
      invariant recs == FlatMap(body[..i], Decoder(time))
    {
      var r := DecodeRow(body[i].td, time);
      FlatMapSnoc(body, i, Decoder(time));
      recs := recs + r;
    }
    assert body[..|body|] == body;
  }

  // ---------------------------------------------------------------------------
  // What the records say

  /** The header row gives nothing and every other row at most one record. */
  lemma AtMostOnePerRow(rows: seq<Row>, time: string)
    ensures |Scrape(rows, time)| <= if rows == [] then 0 else |rows| - 1
  {
    if rows != [] {
      FlatMapBound(rows[1..], Decoder(time), 1);
    }
  }

  /** A row of six or more cells gives its first six cells in column order. */
  lemma FullRowColumns(cells: seq<Cell>, time: string)
    requires |cells| >= 6
    ensures RowRecords(cells, time) ==
              [Record(cells[0].text, cells[1].text, cells[2].text, cells[3].text, cells[4].text, cells[5].text, time)]
  {
  }

  /** A short row gives a record exactly when its first cell says the court is not in
      session, and that record carries the fixed not-in-session texts. */
  lemma ShortRow(cells: seq<Cell>, time: string)
    requires |cells| < 6
    ensures |RowRecords(cells, time)| == 1 <==> |cells| > 0 && SaysNotInSession(cells[0].text)
    ensures RowRecords(cells, time) != [] ==>
              RowRecords(cells, time)[0] == Record(cells[0].text, NotInSessionList, "", "", "", NotInSessionPurpose, time)
  {
  }

  /** A row with no cells gives nothing. */
  lemma EmptyRowSkipped(time: string)
    ensures RowRecords([], time) == []
  {
  }

  /** The exact-case test adds nothing: text holding "Court Not in Session" also holds
      "not in session" once lower-cased. */
  lemma LowerCaseTestSuffices(text: string)
    requires Contains(text, "Court Not in Session")
    ensures Contains(Lower(text), "not in session")
  {
    var i :| 0 <= i <= |text| - 20 && OccursAt(text, "Court Not in Session", i);
    var low := Lower(text);
    var w := text[i..i + 20];
    assert w == "Court Not in Session";
    forall k | 0 <= k < 14
      ensures low[i + 6..i + 20][k] == "not in session"[k]
    {
      assert text[i + 6 + k] == w[6 + k];
    }
    assert low[i + 6..i + 20] == "not in session";
    assert OccursAt(low, "not in session", i + 6);
  }
}
