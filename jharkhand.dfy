/** The Jharkhand High Court (Ranchi) display board: several tables, each a header
    row followed by one row per court. The scraper that posts to the API and the one
    that only keeps a spreadsheet classify rows the same way and differ only in the
    record they build from a row. */
module Jharkhand {
  import opened Text
  import opened Dom
  import Ingest

  const BenchName := "Ranchi"
  const SubBenchNo := "21"

  /** What a data row says: Court | Sl.No. | Case No. | Status. */
  datatype Entry = Entry(court: string, slNo: string, caseNo: string, status: string)

  /** The record the API scraper keeps. */
  datatype ApiRecord = ApiRecord(bench: string, subBench: string, court: string, slNo: string,
                                 caseNo: string, status: string, dateTime: string)

  /** The record the spreadsheet-only scraper keeps. */
  datatype FileRecord = FileRecord(court: string, slNo: string, caseNo: string, status: string, dateTime: string)

  // ---------------------------------------------------------------------------
  // Row classification

  /** The entry of a data row: a two-cell "not in session" row gives court and status
      only, a row of four or more cells gives its first four, and any other row, or a
      row with no court text, gives nothing. */
  function Classify(cells: seq<Cell>): (r: Option<Entry>)
    ensures r.Some? <==> (|cells| == 2 || |cells| >= 4) && cells[0].text != ""
  {
    if |cells| < 2 then None
    else
      var court := cells[0].text;
      var e :=
        if |cells| == 2 then Some(Entry(court, "", "", cells[1].text))
        else if |cells| >= 4 then Some(Entry(court, cells[1].text, cells[2].text, cells[3].text))
        else None;
      if e.None? || court == "" then None else e
  }

  /** The record of a data row, if it has one. */
  function RowRecords<R>(cells: seq<Cell>, mk: Entry -> R): (r: seq<R>)
    ensures |r| <= 1
  {
    match Classify(cells) case Some(e) => [mk(e)] case None => []
  }

  function RowDecoder<R>(mk: Entry -> R): Row -> seq<R> {
    (row: Row) => RowRecords(row.td, mk)
  }

  /** The records of one table: none for a header-only table, else one per classified
      row after the header, in row order. */
  function TableRecords<R>(t: Table, mk: Entry -> R): seq<R> {
    if |t.rows| <= 1 then [] else FlatMap(t.rows[1..], RowDecoder(mk))
  }

  function TableDecoder<R>(mk: Entry -> R): Table -> seq<R> {
    (t: Table) => TableRecords(t, mk)
  }

  /** The records of the page: table after table. */
  function Scrape<R>(tables: seq<Table>, mk: Entry -> R): seq<R> {
    FlatMap(tables, TableDecoder(mk))
  }

  /** The API scraper's record for an entry. */
  function ApiOf(time: string): Entry -> ApiRecord {
    (e: Entry) => ApiRecord(BenchName, SubBenchNo, e.court, e.slNo, e.caseNo, e.status, time)
  }

  /** The spreadsheet scraper's record for an entry. */
  function FileOf(time: string): Entry -> FileRecord {
    (e: Entry) => FileRecord(e.court, e.slNo, e.caseNo, e.status, time)
  }

  /** The body of the row loop. */
  method DecodeRow<R>(cells: seq<Cell>, mk: Entry -> R) returns (recs: seq<R>)
    ensures recs == RowRecords(cells, mk)
  {
    recs := [];
    if |cells| < 2 {
      return;
    }
    var courtNo := cells[0].text;
    var slNo, caseNo, status;
    if |cells| == 2 {
      slNo, caseNo, status := "", "", cells[1].text;
    } else if |cells| >= 4 {
      slNo, caseNo, status := cells[1].text, cells[2].text, cells[3].text;
    } else {
      assert Classify(cells).None?;
      return;
    }
    if courtNo == "" {
      return;
    }
    recs := [mk(Entry(courtNo, slNo, caseNo, status))];
  }

  /** The nested table and row loops of scrape_display_board. */
  method ScrapeDisplayBoard<R>(tables: seq<Table>, mk: Entry -> R) returns (recs: seq<R>)
    ensures recs == Scrape(tables, mk)
  {
    recs := [];
    for ti := 0 to |tables|
      invariant recs == FlatMap(tables[..ti], TableDecoder(mk))
    {
      var rows := tables[ti].rows;
      FlatMapSnoc(tables, ti, TableDecoder(mk));
      if |rows| <= 1 {
        continue;
      }
      var body := rows[1..];
      var fromTable := [];
      for i := 0 to |body|
        invariant fromTable == FlatMap(body[..i], RowDecoder(mk))
      {
        var r := DecodeRow(body[i].td, mk);
        FlatMapSnoc(body, i, RowDecoder(mk));
        fromTable := fromTable + r;
      }
      assert body[..|body|] == body;
      recs := recs + fromTable;
    }
    assert tables[..|tables|] == tables;
  }

  // ---------------------------------------------------------------------------
  // What the records say

  /** A two-cell row with a court gives empty Sl.No. and Case No. and its second cell
      as status; a row of four or more cells gives cells 1-3 and ignores the rest. */
  lemma FieldPlacement(cells: seq<Cell>)
    requires |cells| > 0 && cells[0].text != ""
    ensures |cells| == 2 ==> Classify(cells) == Some(Entry(cells[0].text, "", "", cells[1].text))
    ensures |cells| >= 4 ==>
              Classify(cells) == Some(Entry(cells[0].text, cells[1].text, cells[2].text, cells[3].text))
    ensures |cells| >= 4 ==> Classify(cells) == Classify(cells[..4])
  {
  }

  /** A table with only its header row gives nothing, and any other table at most one
      record per row after the header. */
  lemma TableBound<R>(t: Table, mk: Entry -> R)
    ensures |t.rows| <= 1 ==> TableRecords(t, mk) == []
    ensures |TableRecords(t, mk)| <= if |t.rows| <= 1 then 0 else |t.rows| - 1
  {
    if |t.rows| > 1 {
      FlatMapBound(t.rows[1..], RowDecoder(mk), 1);
    }
  }

  /** The records come table by table: scraping two runs of tables gives the records
      of the first followed by those of the second. */
  lemma TablesInOrder<R>(ts: seq<Table>, us: seq<Table>, mk: Entry -> R)
    ensures Scrape(ts + us, mk) == Scrape(ts, mk) + Scrape(us, mk)
  {
    FlatMapAppend(ts, us, TableDecoder(mk));
  }

  /** Both scrapers read the same rows: the spreadsheet records are the API records
      without bench and sub-bench. */
  lemma SameRowsBothScrapers(tables: seq<Table>, time: string)
    ensures |Scrape(tables, FileOf(time))| == |Scrape(tables, ApiOf(time))|
    ensures forall k :: 0 <= k < |Scrape(tables, FileOf(time))| ==>
              var a := Scrape(tables, ApiOf(time))[k];
              Scrape(tables, FileOf(time))[k] == FileRecord(a.court, a.slNo, a.caseNo, a.status, a.dateTime)
  {
    ScrapeMaps(tables, time);
  }

  /** An API record less its bench and sub-bench. */
  function WithoutBench(a: ApiRecord): FileRecord {
    FileRecord(a.court, a.slNo, a.caseNo, a.status, a.dateTime)
  }

  /** f applied to every element. */
  function MapSeq<A, B>(xs: seq<A>, f: A -> B): (r: seq<B>)
    ensures |r| == |xs| && forall k :: 0 <= k < |xs| ==> r[k] == f(xs[k])
  {
    seq(|xs|, k requires 0 <= k < |xs| => f(xs[k]))
  }

  /** Row by row, the spreadsheet records are the API records less bench. */
  lemma {:induction false} RowsMap(rows: seq<Row>, time: string)
    ensures FlatMap(rows, RowDecoder(FileOf(time))) == MapSeq(FlatMap(rows, RowDecoder(ApiOf(time))), WithoutBench)
    decreases |rows|
  {
    if rows != [] {
      var init := rows[..|rows| - 1];
      RowsMap(init, time);
      var a := FlatMap(init, RowDecoder(ApiOf(time)));
      var b := RowDecoder(ApiOf(time))(rows[|rows| - 1]);
      MapSeqAppend(a, b, WithoutBench);
    }
  }

  lemma MapSeqAppend<A, B>(a: seq<A>, b: seq<A>, f: A -> B)
    ensures MapSeq(a + b, f) == MapSeq(a, f) + MapSeq(b, f)
  {
    assert forall k :: 0 <= k < |a| + |b| ==> (a + b)[k] == if k < |a| then a[k] else b[k - |a|];
  }

  /** Table by table, likewise. */
  lemma {:induction false} ScrapeMaps(tables: seq<Table>, time: string)
    ensures Scrape(tables, FileOf(time)) == MapSeq(Scrape(tables, ApiOf(time)), WithoutBench)
    decreases |tables|
  {
    if tables != [] {
      var init := tables[..|tables| - 1];
      var t := tables[|tables| - 1];
      ScrapeMaps(init, time);
      if |t.rows| > 1 {
        RowsMap(t.rows[1..], time);
      }
      var a := Scrape(init, ApiOf(time));
      var b := TableRecords(t, ApiOf(time));
      MapSeqAppend(a, b, WithoutBench);
    }
  }

  // ---------------------------------------------------------------------------
  // post_court_data_to_api

  /** serialNumber: the text after the last '/' when there is one ("D/73" gives 73),
      read with int(); 0 when the Sl.No. is empty or does not read as a number. */
  function SerialNumber(slNo: string): (n: int)
    ensures '/' !in slNo ==> n == IntOrZero(slNo)
  {
    if slNo == [] then 0
    else
      var t := if '/' in slNo then Strip(AfterLast(slNo, '/')) else slNo;
      match PyInt(t)
      case Some(v) => v
      case None => 0
  }

  /** "D/73" and "S/56" give 73 and 56: a number after the last slash reads back. */
  lemma SerialAfterSlash(prefix: string, n: nat)
    ensures SerialNumber(prefix + "/" + NatToString(n)) == n
  {
    var d := NatToString(n);
    var s := prefix + "/" + d;
    assert s[|prefix|] == '/';
    assert '/' !in d by {
      forall k | 0 <= k < |d| ensures d[k] != '/' { assert IsDigit(d[k]); }
    }
    AfterLastOf(prefix, '/', d);
    StripNoPadding(d);
    PyIntRoundTrip(n);
  }

  /** A slash with nothing readable after it gives 0 ("D/" gives 0). */
  lemma SerialNothingAfterSlash(prefix: string)
    ensures SerialNumber(prefix + "/") == 0
  {
    var s := prefix + "/";
    assert s[|prefix|] == '/';
    AfterLastOf(prefix, '/', "");
    assert prefix + ['/'] + "" == s;
  }

  /** The body posted for an API record (no listNumber key; the status as "status"). */
  function ToPayload(r: ApiRecord): (p: Ingest.Payload)
    ensures p.serialNumber == SerialNumber(r.slNo) && p.listNumber.None?
    ensures p.benchName == r.bench && p.courtHallNumber == r.court && p.caseNumber == r.caseNo
    ensures p.note == r.status
  {
    Ingest.Payload(r.bench, r.court, r.caseNo, SerialNumber(r.slNo), r.status, None)
  }

  /** What an error entry records: court and case number. */
  function ErrorKey(r: ApiRecord): (k: (string, string))
    ensures k.0 == r.court && k.1 == r.caseNo
  {
    (r.court, r.caseNo)
  }
}
