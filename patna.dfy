/** The Patna High Court display board: one table whose header row names the columns
    "COURT NUMBER" and "CASE NUMBER", followed by rows that each carry two courts side
    by side, [court 1 | case 1 | court 2 | case 2]. The case cell reads
    "13 - C.MISC./459/2016 (FOR ADMISSION)": item number, a spaced dash, case. */
module Patna {
  import opened Text
  import opened Dom

  const BenchName := "patna"
  const SubBenchNo := "34"

  /** One court: bench, sub-bench, court number, item number, case number, the case
      cell as it was read, and the scrape time. */
  datatype Record = Record(bench: string, subBench: string, court: string, itemNo: string,
                           caseNo: string, fullDetails: string, dateTime: string)

  // ---------------------------------------------------------------------------
  // extract_cell_content and extract_case_info

  /** What extract_cell_content reads from a cell: the value of an input button in it,
      stripped, when that value is not empty, else its text with whitespace runs
      collapsed and the ends trimmed. */
  function Content(c: Cell): string {
    if c.input != "" then Strip(c.input) else CleanText(c.text)
  }

  /** Whatever a cell holds, its content has no whitespace at either end. */
  lemma ContentTrimmed(c: Cell)
    ensures Strip(Content(c)) == Content(c)
  {
    if c.input != "" {
      StripIdempotent(c.input);
    } else {
      CleanTextIsClean(c.text);
    }
  }

  /** The spaced dash between item number and case. */
  const Dash := " - "

  /** (item number, case number) of a case cell: nothing for an empty cell or one
      reading exactly "NOT IN SESSION"; the two sides of the first " - ", each
      stripped, when there is one; otherwise no item number and the whole text,
      stripped, as the case. */
  function ExtractCaseInfo(t: string): (r: (string, string))
  {
    if t == "" || t == "NOT IN SESSION" then ("", "")
    else match IndexOf(t, Dash, 0)
      case Some(k) => (Strip(t[..k]), Strip(t[k + |Dash|..]))
      case None => ("", Strip(t))
  }

  /** Both halves come out stripped, and an item number is found only next to a dash. */
  lemma ExtractCaseInfoTrimmed(t: string)
    ensures var r := ExtractCaseInfo(t);
            Strip(r.0) == r.0 && Strip(r.1) == r.1 && (r.0 != "" ==> Contains(t, Dash))
  {
    var r := ExtractCaseInfo(t);
    if t != "" && t != "NOT IN SESSION" {
      match IndexOf(t, Dash, 0)
      case Some(k) =>
        StripIdempotent(t[..k]);
        StripIdempotent(t[k + |Dash|..]);
        IndexOfContains(t, Dash);
      case None =>
        StripIdempotent(t);
    }
  }

  /** Splitting at the first dash undoes joining with it: an item number without a
      dash and a case, both already trimmed, are read back from "item - case". */
  lemma ExtractCaseInfoRoundTrip(item: string, caseNo: string)
    requires '-' !in item
    requires Strip(item) == item && Strip(caseNo) == caseNo
    ensures ExtractCaseInfo(item + Dash + caseNo) == (item, caseNo)
  {
    var s := item + Dash + caseNo;
    var n := |item|;
    assert s[n..n + 3] == Dash;
    assert OccursAt(s, Dash, n);
    forall j | 0 <= j < n
      ensures !OccursAt(s, Dash, j)
    {
      assert s[j + 1] != '-' by {
        if j + 1 < n {
          assert s[j + 1] == item[j + 1];
        }
      }
      assert s[j..j + 3][1] == s[j + 1];
    }
    assert s[n + 1] == '-';
    var marker := "NOT IN SESSION";
    assert '-' !in marker;
    assert IndexOf(s, Dash, 0) == Some(n);
    assert s[..n] == item;
    assert s[n + 3..] == caseNo;
  }

  /** Without a dash there is no item number and the trimmed text is the case,
      except for the "NOT IN SESSION" marker, which gives no case either. */
  lemma ExtractCaseInfoNoDash(t: string)
    requires !Contains(t, Dash)
    ensures ExtractCaseInfo(t) == if t == "NOT IN SESSION" then ("", "") else ("", Strip(t))
  {
    IndexOfContains(t, Dash);
    if t == "" {
      assert AllSpace(t);
    }
  }

  // ---------------------------------------------------------------------------
  // What the scraper reads from a row

  /** The texts of a row's cells, each read by extract_cell_content. */
  function Contents(cells: seq<Cell>): (texts: seq<string>)
    ensures |texts| == |cells|
  {
    seq(|cells|, i requires 0 <= i < |cells| => Content(cells[i]))
  }

  /** A cell text mentions "COURT NUMBER" in any letter case. */
  predicate NamesCourtNumber(t: string) {
    Contains(Upper(t), "COURT NUMBER")
  }

  /** Some text mentions "COURT NUMBER": the `any(...)` of the header search. */
  predicate AnyNamesCourtNumber(texts: seq<string>)
    decreases |texts|
  {
    texts != [] && (NamesCourtNumber(texts[0]) || AnyNamesCourtNumber(texts[1..]))
  }

  /** A row as the scraper reads it: whether the header search takes it for the
      header, and the texts of its `td` cells. The decoding below is stated on these. */
  datatype RowView = RowView(isHeader: bool, texts: seq<string>)

  function ViewOf(row: Row): RowView {
    RowView(AnyNamesCourtNumber(Contents(HeaderCells(row))), Contents(row.td))
  }

  /** Every row of the table, read. */
  function PageView(rows: seq<Row>): (page: seq<RowView>)
    ensures |page| == |rows|
    decreases |rows|
  {
    if rows == [] then [] else PageView(rows[..|rows| - 1]) + [ViewOf(rows[|rows| - 1])]
  }

  /** Row i of the page is row i read. */
  lemma {:induction false} PageViewAt(rows: seq<Row>, i: nat)
    requires i < |rows|
    ensures PageView(rows)[i] == ViewOf(rows[i])
    decreases |rows|
  {
    if i < |rows| - 1 {
      PageViewAt(rows[..|rows| - 1], i);
    }
  }

  // ---------------------------------------------------------------------------
  // The header row

  predicate IsHeader(row: RowView) {
    row.isHeader
  }

  /** header_row_idx: the first header row, or row 0 when no row is one. */
  function HeaderRow(page: seq<RowView>): nat {
    match FirstWhere(page, IsHeader, 0)
    case Some(h) => h
    case None => 0
  }

  /** It is the first row that mentions "COURT NUMBER"; when none does it is row 0. */
  lemma HeaderRowIsFirst(page: seq<RowView>)
    ensures var h := HeaderRow(page);
            (h == 0 || h < |page|)
            && (h < |page| && IsHeader(page[h]) ==> forall j :: 0 <= j < h ==> !IsHeader(page[j]))
            && (!(h < |page| && IsHeader(page[h])) ==> h == 0 && forall j :: 0 <= j < |page| ==> !IsHeader(page[j]))
  {
  }

  /** One test of the header search, on row idx: read the row's cell texts, then ask
      whether any mentions "COURT NUMBER". */
  method RowIsHeader(rows: seq<Row>, idx: nat) returns (b: bool)
    requires idx < |rows|
    ensures b == IsHeader(PageView(rows)[idx])
  {
    PageViewAt(rows, idx);
    var cells := HeaderCells(rows[idx]);
    var cellTexts := Contents(cells);
    b := AnyNamesCourtNumber(cellTexts);
  }

  /** The header search loop. */
  method FindHeader(rows: seq<Row>) returns (h: nat)
    ensures h == HeaderRow(PageView(rows))
  {
    ghost var page := PageView(rows);
    for idx := 0 to |rows|
      invariant forall j :: 0 <= j < idx ==> !IsHeader(page[j])
    {
      var found := RowIsHeader(rows, idx);
      if found {
        HeaderRowAt(page, idx);
        return idx;
      }
    }
    HeaderRowNone(page);
    return 0;
  }

  /** A header row with none before it is the one the search returns. */
  lemma HeaderRowAt(page: seq<RowView>, h: nat)
    requires h < |page| && IsHeader(page[h])
    requires forall j :: 0 <= j < h ==> !IsHeader(page[j])
    ensures HeaderRow(page) == h
  {
    var r := FirstWhere(page, IsHeader, 0);
    if r.Some? {
      assert !(r.value < h) && !(h < r.value);
    }
  }

  /** With no header row the search returns row 0. */
  lemma HeaderRowNone(page: seq<RowView>)
    requires forall j :: 0 <= j < |page| ==> !IsHeader(page[j])
    ensures HeaderRow(page) == 0
  {
  }

  // ---------------------------------------------------------------------------
  // Data rows

  /** One court of a row: nothing when the court cell is empty, else its record with
      the item and case read from the case cell and the case cell kept whole. */
  function PairRecords(court: string, details: string, time: string): seq<Record> {
    if court == "" then []
    else
      var info := ExtractCaseInfo(details);
      [Record(BenchName, SubBenchNo, court, info.0, info.1, details, time)]
  }

  /** The records of a row from the texts of its `td` cells: none below two cells,
      the court of cells 0 and 1, and with four or more cells also the court of cells
      2 and 3. */
  function RowRecords(texts: seq<string>, time: string): seq<Record> {
    if |texts| < 2 then []
    else
      PairRecords(texts[0], texts[1], time)
      + if |texts| >= 4 then PairRecords(texts[2], texts[3], time) else []
  }

  function RowDecoder(time: string): RowView -> seq<Record> {
    (row: RowView) => RowRecords(row.texts, time)
  }

  /** The records of the page: the rows after the header row, in order. */
  function Scrape(page: seq<RowView>, time: string): seq<Record> {
    var start := HeaderRow(page) + 1;
    if start > |page| then [] else FlatMap(page[start..], RowDecoder(time))
  }

  /** The body of the row loop. */
  method DecodeRow(rows: seq<Row>, rowIdx: nat, time: string) returns (recs: seq<Record>)
    requires rowIdx < |rows|
    ensures recs == RowDecoder(time)(PageView(rows)[rowIdx])
  {
    var cells := rows[rowIdx].td;
    PageViewAt(rows, rowIdx);
    recs := [];
    if |cells| < 2 {
      return;
    }
    var courtNum1 := Content(cells[0]);
    var caseDetails1 := Content(cells[1]);
    if courtNum1 != "" {
      var info1 := ExtractCaseInfo(caseDetails1);
      recs := recs + [Record(BenchName, SubBenchNo, courtNum1, info1.0, info1.1, caseDetails1, time)];
    }
    if |cells| >= 4 {
      var courtNum2 := Content(cells[2]);
      var caseDetails2 := Content(cells[3]);
      if courtNum2 != "" {
        var info2 := ExtractCaseInfo(caseDetails2);
        recs := recs + [Record(BenchName, SubBenchNo, courtNum2, info2.0, info2.1, caseDetails2, time)];
      }
    }
  }

  /** scrape_display_board once the table is on the page: find the header, then
      decode every later row. */
  method ScrapeDisplayBoard(rows: seq<Row>, time: string) returns (recs: seq<Record>)
    ensures recs == Scrape(PageView(rows), time)
  {
    var headerRowIdx := FindHeader(rows);
    if headerRowIdx + 1 <= |rows| {
      recs := DecodeRows(rows, headerRowIdx + 1, time);
      ScrapeIs(PageView(rows), headerRowIdx, recs, time);
    } else {
      recs := [];
      ScrapeIs(PageView(rows), headerRowIdx, recs, time);
    }
  }

  /** The row loop: rows start to the end, in order. */
  method DecodeRows(rows: seq<Row>, start: nat, time: string) returns (recs: seq<Record>)
    requires start <= |rows|
    ensures recs == FlatMap(PageView(rows)[start..], RowDecoder(time))
  {
    ghost var body := PageView(rows)[start..];
    recs := [];
    for i := 0 to |rows| - start
      invariant recs == FlatMap(body[..i], RowDecoder(time))
    {
      var r := DecodeRow(rows, start + i, time);
      RowStep(rows, start, i, recs, r, time);
      recs := recs + r;
    }
    assert body[..|body|] == body;
  }

  /** One more row of the loop: its records follow those of the rows before it. */
  lemma {:induction false} RowStep(rows: seq<Row>, start: nat, i: nat, prev: seq<Record>, r: seq<Record>, time: string)
    requires start + i < |rows|
    requires prev == FlatMap(PageView(rows)[start..][..i], RowDecoder(time))
    requires r == RowDecoder(time)(PageView(rows)[start + i])
    ensures prev + r == FlatMap(PageView(rows)[start..][..i + 1], RowDecoder(time))
  {
    var body := PageView(rows)[start..];
    assert body[i] == PageView(rows)[start + i];
    FlatMapSnoc(body, i, RowDecoder(time));
  }

  // ---------------------------------------------------------------------------
  // What the records say

  /** A row yields at most two records: none below two cells, at most one below four;
      it yields none exactly when every court cell it has is empty; cells past the
      fourth are ignored. */
  lemma RowShape(texts: seq<string>, time: string)
    ensures |RowRecords(texts, time)| <= if |texts| >= 4 then 2 else if |texts| >= 2 then 1 else 0
    ensures |texts| >= 2 ==>
              (RowRecords(texts, time) == [] <==> texts[0] == "" && (|texts| < 4 || texts[2] == ""))
    ensures |texts| >= 4 ==> RowRecords(texts, time) == RowRecords(texts[..4], time)
  {
  }

  /** Field placement: the first record of a row whose cell 0 is not empty is the
      court of cells 0 and 1, and the last record of a row of four or more cells whose
      cell 2 is not empty is the court of cells 2 and 3; the case cell is kept whole
      as the full case details. */
  lemma RowFields(texts: seq<string>, time: string)
    requires |texts| >= 2
    ensures texts[0] != "" ==>
              var info := ExtractCaseInfo(texts[1]);
              RowRecords(texts, time)[0] == Record(BenchName, SubBenchNo, texts[0], info.0, info.1, texts[1], time)
    ensures |texts| >= 4 && texts[2] != "" ==>
              var info := ExtractCaseInfo(texts[3]);
              var recs := RowRecords(texts, time);
              recs[|recs| - 1] == Record(BenchName, SubBenchNo, texts[2], info.0, info.1, texts[3], time)
  {
  }

  /** What every record of the page satisfies: the constant bench and sub-bench, the
      scrape time, a court number, and item and case numbers that are what
      extract_case_info reads from the kept case text. */
  predicate WellFormed(r: Record, time: string) {
    r.bench == BenchName && r.subBench == SubBenchNo && r.dateTime == time && r.court != ""
    && (r.itemNo, r.caseNo) == ExtractCaseInfo(r.fullDetails)
  }

  lemma RowWellFormed(texts: seq<string>, time: string)
    ensures forall r :: r in RowRecords(texts, time) ==> WellFormed(r, time)
  {
  }

  lemma ScrapeWellFormed(page: seq<RowView>, time: string)
    ensures forall k :: 0 <= k < |Scrape(page, time)| ==> WellFormed(Scrape(page, time)[k], time)
  {
    if HeaderRow(page) < |page| {
      ScrapeAfter(page, time);
      RowsWellFormed(page[HeaderRow(page) + 1..], time);
    }
  }

  lemma RowsWellFormed(body: seq<RowView>, time: string)
    ensures forall k :: 0 <= k < |FlatMap(body, RowDecoder(time))| ==> WellFormed(FlatMap(body, RowDecoder(time))[k], time)
  {
    forall k | 0 <= k < |FlatMap(body, RowDecoder(time))|
      ensures WellFormed(FlatMap(body, RowDecoder(time))[k], time)
    {
      FlatMapOrigin(body, RowDecoder(time), k);
      var i :| 0 <= i < |body| && FlatMap(body, RowDecoder(time))[k] in RowDecoder(time)(body[i]);
      RowWellFormed(body[i].texts, time);
    }
  }

  /** Decoding starts right after the first header row: the rows up to and including
      it contribute nothing. */
  lemma StartsAfterHeader(page: seq<RowView>, j: nat, time: string)
    requires j < |page| && IsHeader(page[j])
    requires forall i :: 0 <= i < j ==> !IsHeader(page[i])
    ensures Scrape(page, time) == FlatMap(page[j + 1..], RowDecoder(time))
  {
    HeaderRowIs(page, j);
    ScrapeAfter(page, time);
  }

  lemma HeaderRowIs(page: seq<RowView>, j: nat)
    requires j < |page| && IsHeader(page[j])
    requires forall i :: 0 <= i < j ==> !IsHeader(page[i])
    ensures HeaderRow(page) == j
  {
    var h := HeaderRow(page);
    assert h < |page| && IsHeader(page[h]);
  }

  /** The rows after the header row are the ones decoded. */
  lemma ScrapeAfter(page: seq<RowView>, time: string)
    requires HeaderRow(page) < |page|
    ensures Scrape(page, time) == FlatMap(page[HeaderRow(page) + 1..], RowDecoder(time))
  {
  }

  /** What the row loop collects after the header search is the page's records. */
  lemma ScrapeIs(page: seq<RowView>, h: nat, recs: seq<Record>, time: string)
    requires h == HeaderRow(page)
    requires recs == if h + 1 <= |page| then FlatMap(page[h + 1..], RowDecoder(time)) else []
    ensures recs == Scrape(page, time)
  {
  }

  /** With no header row the first row is skipped all the same. */
  lemma NoHeaderSkipsFirstRow(page: seq<RowView>, time: string)
    requires page != []
    requires forall i :: 0 <= i < |page| ==> !IsHeader(page[i])
    ensures Scrape(page, time) == FlatMap(page[1..], RowDecoder(time))
  {
    NoHeaderRow(page);
    ScrapeAfter(page, time);
  }

  lemma NoHeaderRow(page: seq<RowView>)
    requires forall i :: 0 <= i < |page| ==> !IsHeader(page[i])
    ensures HeaderRow(page) == 0
  {
  }

  /** At most two records per decoded row. */
  lemma ScrapeBound(page: seq<RowView>, time: string)
    ensures |Scrape(page, time)| <= 2 * |page|
  {
    if HeaderRow(page) < |page| {
      ScrapeAfter(page, time);
      RowsBound(page[HeaderRow(page) + 1..], time);
    }
  }

  lemma RowsBound(body: seq<RowView>, time: string)
    ensures |FlatMap(body, RowDecoder(time))| <= 2 * |body|
  {
    forall i | 0 <= i < |body| ensures |RowDecoder(time)(body[i])| <= 2 {
      RowShape(body[i].texts, time);
    }
    FlatMapBound(body, RowDecoder(time), 2);
  }
}
