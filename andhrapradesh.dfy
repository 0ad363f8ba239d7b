/** The Andhra Pradesh High Court (Amaravati) display board. Each table row holds up
    to four courts side by side; a court is a cell with a cause-list link followed by
    Coram, Item No and Kept Back cells, or, for a court not in session, by one status
    cell spanning three columns. */
module AndhraPradesh {
  import opened Text
  import opened Scan
  import opened Dom
  import Ingest

  const BenchName := "Amaravati"
  const SubBenchNo := "3"

  datatype Record = Record(bench: string, subBench: string, courtNo: string, coram: string,
                           itemNo: string, keptBack: string, dateTime: string)

  /** A court cell: its inner HTML calls getCourtCauseList. */
  predicate HasCourtLink(c: Cell) {
    Contains(c.html, "getCourtCauseList")
  }

  function Min(a: nat, b: nat): nat { if a < b then a else b }

  /** What the walk does at the first of `cells`: the record it emits, if any, and
      how many cells it moves past. A colspan that int() cannot read raises inside
      the loop's try block, which moves on by one cell. */
  function WalkStep(cells: seq<Cell>, time: string): (r: (seq<Record>, nat))
    requires |cells| > 0
    ensures r.1 == 1 || r.1 == 2 || r.1 == 4
    ensures |r.0| <= 1
    ensures !HasCourtLink(cells[0]) ==> r == ([], 1)
    ensures |cells| == 1 ==> r == ([], 1)
    ensures |r.0| == 1 ==> r.0[0].courtNo == cells[0].text && HasCourtLink(cells[0])
  {
    if !HasCourtLink(cells[0]) || |cells| == 1 then ([], 1)
    else
      var court := cells[0].text;
      var next := cells[1];
      var closed := next.colspan != [] && PyInt(next.colspan).Some? && PyInt(next.colspan).value >= 3;
      if next.colspan != [] && PyInt(next.colspan).None? then ([], 1)
      else if closed then
        ([Record(BenchName, SubBenchNo, court, "", next.text, "", time)], 2)
      else
        var item := if 2 < |cells| then cells[2].text else "";
        var kept := if 3 < |cells| then cells[3].text else "";
        ([Record(BenchName, SubBenchNo, court, next.text, item, kept, time)], 4)
  }

  /** The records of a row's cells, walked from the first. */
  function Walk(cells: seq<Cell>, time: string): seq<Record>
    decreases |cells|
  {
    if cells == [] then []
    else
      var st := WalkStep(cells, time);
      st.0 + Walk(cells[Min(st.1, |cells|)..], time)
  }

  /** The records of one table row: none when it has fewer than four cells. */
  function RowRecords(row: Row, time: string): seq<Record> {
    if |row.td| < 4 then [] else Walk(row.td, time)
  }

  function Decoder(time: string): Row -> seq<Record> {
    row => RowRecords(row, time)
  }

  function Scrape(rows: seq<Row>, time: string): seq<Record> {
    FlatMap(rows, Decoder(time))
  }

  /** One pass of the loop body at cells[idx]: the record it appends, if any, and how
      far idx moves. */
  method VisitCell(cells: seq<Cell>, idx: nat, time: string) returns (emitted: seq<Record>, advance: nat)
    requires idx < |cells|
    ensures advance > 0
    ensures Walk(cells[idx..], time) == emitted + Walk(cells[Min(idx + advance, |cells|)..], time)
  {
    WalkFrom(cells, idx, time);
    var rest := cells[idx..];
    assert rest[0] == cells[idx];
    emitted, advance := [], 1;
    if HasCourtLink(cells[idx]) && idx + 1 < |cells| {
      assert rest[1] == cells[idx + 1];
      var court := cells[idx].text;
      var colspan := cells[idx + 1].colspan;
      var nextText := cells[idx + 1].text;
      if colspan != [] && PyInt(colspan).None? {
        advance := 1;
      } else if colspan != [] && PyInt(colspan).value >= 3 {
        emitted := [Record(BenchName, SubBenchNo, court, "", nextText, "", time)];
        advance := 2;
      } else {
        var item, kept := "", "";
        if idx + 2 < |cells| {
          item := cells[idx + 2].text;
        }
        if idx + 3 < |cells| {
          kept := cells[idx + 3].text;
        }
        emitted := [Record(BenchName, SubBenchNo, court, nextText, item, kept, time)];
        advance := 4;
      }
    }
  }

  /** The `while idx < len(cells)` walk over one row. */
  method DecodeRow(row: Row, time: string) returns (recs: seq<Record>)
    ensures recs == RowRecords(row, time)
  {
    recs := [];
    var cells := row.td;
    if |cells| < 4 {
      return;
    }
    var idx := 0;
    ghost var rest := cells;
    while idx < |cells|
      invariant rest == cells[Min(idx, |cells|)..]
      invariant recs + Walk(rest, time) == Walk(cells, time)
      decreases |cells| - idx
    {
      var emitted, advance := VisitCell(cells, idx, time);
      ghost var next := cells[Min(idx + advance, |cells|)..];
      Regroup(recs, emitted, Walk(next, time));
      recs := recs + emitted;
      idx := idx + advance;
      rest := next;
    }
  }

  /** The walk from cells[idx] is its first step followed by the walk from where that
      step lands. */
  lemma WalkFrom(cells: seq<Cell>, idx: nat, time: string)
    requires idx < |cells|
    ensures var st := WalkStep(cells[idx..], time);
            Walk(cells[idx..], time) == st.0 + Walk(cells[Min(idx + st.1, |cells|)..], time)
  {
    var rest := cells[idx..];
    var st := WalkStep(rest, time);
    assert rest[Min(st.1, |rest|)..] == cells[Min(idx + st.1, |cells|)..];
  }

  /** The board: every row in table order. */
  method ScrapeDisplayBoard(rows: seq<Row>, time: string) returns (recs: seq<Record>)
    ensures recs == Scrape(rows, time)
  {
    recs := [];
    for i := 0 to |rows|
      invariant recs == FlatMap(rows[..i], Decoder(time))
    {
      var r := DecodeRow(rows[i], time);
      FlatMapSnoc(rows, i, Decoder(time));
      recs := recs + r;
    }
    assert rows[..|rows|] == rows;
  }

  // ---------------------------------------------------------------------------
  // What the walk emits

  /** A court-link cell followed by a cell spanning three or more columns is a court
      not in session: one record, no Coram or Kept Back, the status as Item No; the
      walk moves past both cells. */
  lemma ClosedCourtStep(cells: seq<Cell>, time: string, span: int)
    requires |cells| >= 2 && HasCourtLink(cells[0])
    requires PyInt(cells[1].colspan) == Some(span) && span >= 3
    ensures WalkStep(cells, time) == ([Record(BenchName, SubBenchNo, cells[0].text, "", cells[1].text, "", time)], 2)
  {
  }

  /** Any other court-link cell with a cell after it gives a record whose Coram is the
      next cell and whose Item No and Kept Back are the two after, "" where the row
      ends; the walk moves past four cells. */
  lemma OpenCourtStep(cells: seq<Cell>, time: string)
    requires |cells| >= 2 && HasCourtLink(cells[0])
    requires cells[1].colspan == [] || (PyInt(cells[1].colspan).Some? && PyInt(cells[1].colspan).value < 3)
    ensures WalkStep(cells, time).1 == 4
    ensures WalkStep(cells, time).0 == [Record(BenchName, SubBenchNo, cells[0].text, cells[1].text,
                                              if |cells| > 2 then cells[2].text else "",
                                              if |cells| > 3 then cells[3].text else "", time)]
  {
  }

  /** Every record of a walk comes from a court-link cell of the row, and carries the
      bench, the sub-bench and the scrape time. */
  lemma {:induction false} WalkRecordsFromCourtCells(cells: seq<Cell>, time: string, k: nat)
    requires k < |Walk(cells, time)|
    ensures exists i :: 0 <= i < |cells| && HasCourtLink(cells[i]) && Walk(cells, time)[k].courtNo == cells[i].text
    ensures Walk(cells, time)[k].bench == BenchName && Walk(cells, time)[k].subBench == SubBenchNo
    ensures Walk(cells, time)[k].dateTime == time
    decreases |cells|
  {
    var st := WalkStep(cells, time);
    var n := Min(st.1, |cells|);
    var tail := cells[n..];
    if k < |st.0| {
      assert Walk(cells, time)[k] == st.0[0];
      assert HasCourtLink(cells[0]) && st.0[0].courtNo == cells[0].text;
    } else {
      assert Walk(cells, time)[k] == Walk(tail, time)[k - |st.0|];
      WalkRecordsFromCourtCells(tail, time, k - |st.0|);
      var i :| 0 <= i < |tail| && HasCourtLink(tail[i]) && Walk(tail, time)[k - |st.0|].courtNo == tail[i].text;
      assert tail[i] == cells[n + i];
    }
  }

  /** Number of court-link cells. */
  function CourtCells(cells: seq<Cell>): nat
    decreases |cells|
  {
    if cells == [] then 0 else (if HasCourtLink(cells[0]) then 1 else 0) + CourtCells(cells[1..])
  }

  lemma {:induction false} CourtCellsSuffix(cells: seq<Cell>, n: nat)
    requires n <= |cells|
    ensures CourtCells(cells[n..]) <= CourtCells(cells)
    decreases n
  {
    if n > 0 {
      CourtCellsSuffix(cells[1..], n - 1);
      assert cells[1..][n - 1..] == cells[n..];
    }
  }

  /** A row gives at most one record per court-link cell. */
  lemma {:induction false} WalkAtMostOnePerCourt(cells: seq<Cell>, time: string)
    ensures |Walk(cells, time)| <= CourtCells(cells)
    decreases |cells|
  {
    if cells != [] {
      var st := WalkStep(cells, time);
      var n := Min(st.1, |cells|);
      WalkAtMostOnePerCourt(cells[n..], time);
      if HasCourtLink(cells[0]) {
        CourtCellsSuffix(cells[1..], n - 1);
        assert cells[1..][n - 1..] == cells[n..];
      } else {
        assert n == 1;
      }
    }
  }

  // ---------------------------------------------------------------------------
  // A board laid out court by court decodes court by court

  /** How a court is laid out: an open court in four cells, a closed one in two. */
  datatype Court =
    | Open(court: Cell, coram: Cell, item: Cell, kept: Cell)
    | Closed(court: Cell, status: Cell)

  /** The layout the board uses: the court cell links to its cause list, an open
      court's Coram cell spans no columns, a closed court's status cell spans three. */
  predicate WellLaidOut(c: Court) {
    HasCourtLink(c.court)
    && match c
       case Open(_, coram, _, _) => coram.colspan == []
       case Closed(_, status) => status.colspan == "3"
  }

  function Cells(c: Court): seq<Cell> {
    match c
    case Open(court, coram, item, kept) => [court, coram, item, kept]
    case Closed(court, status) => [court, status]
  }

  function Render(courts: seq<Court>): seq<Cell>
    decreases |courts|
  {
    if courts == [] then [] else Cells(courts[0]) + Render(courts[1..])
  }

  /** The record a court should give. */
  function Expected(c: Court, time: string): Record {
    match c
    case Open(court, coram, item, kept) => Record(BenchName, SubBenchNo, court.text, coram.text, item.text, kept.text, time)
    case Closed(court, status) => Record(BenchName, SubBenchNo, court.text, "", status.text, "", time)
  }

  /** The records a board should give, court by court. */
  function ExpectedAll(courts: seq<Court>, time: string): seq<Record>
    decreases |courts|
  {
    if courts == [] then [] else [Expected(courts[0], time)] + ExpectedAll(courts[1..], time)
  }

  /** Decoding a laid-out board gives back one record per court, in order. */
  lemma WalkRendered(courts: seq<Court>, time: string)
    requires forall i :: 0 <= i < |courts| ==> WellLaidOut(courts[i])
    ensures |Walk(Render(courts), time)| == |courts|
    ensures forall i :: 0 <= i < |courts| ==> Walk(Render(courts), time)[i] == Expected(courts[i], time)
  {
    WalkRenderedAll(courts, time);
    ExpectedAllAt(courts, time);
  }

  lemma {:induction false} WalkRenderedAll(courts: seq<Court>, time: string)
    requires forall i :: 0 <= i < |courts| ==> WellLaidOut(courts[i])
    ensures Walk(Render(courts), time) == ExpectedAll(courts, time)
    decreases |courts|
  {
    if courts != [] {
      var rest := Render(courts[1..]);
      WalkCourt(courts[0], rest, time);
      WalkRenderedAll(courts[1..], time);
    }
  }

  lemma {:induction false} ExpectedAllAt(courts: seq<Court>, time: string)
    ensures |ExpectedAll(courts, time)| == |courts|
    ensures forall i :: 0 <= i < |courts| ==> ExpectedAll(courts, time)[i] == Expected(courts[i], time)
    decreases |courts|
  {
    if courts != [] {
      ExpectedAllAt(courts[1..], time);
    }
  }

  /** A laid-out court at the head of the cells gives its record, and the walk goes on
      right after its cells. */
  lemma WalkCourt(c: Court, rest: seq<Cell>, time: string)
    requires WellLaidOut(c)
    ensures Walk(Cells(c) + rest, time) == [Expected(c, time)] + Walk(rest, time)
  {
    var cs := Cells(c) + rest;
    assert cs[0] == c.court && cs[1] == Cells(c)[1];
    if c.Closed? {
      assert PyInt("3") == Some(3) by { PyIntOfNumeral("3"); }
      assert WalkStep(cs, time) == ([Expected(c, time)], 2);
      assert cs[2..] == rest;
    } else {
      assert cs[2] == c.item && cs[3] == c.kept;
      assert WalkStep(cs, time) == ([Expected(c, time)], 4);
      assert cs[4..] == rest;
    }
  }

  // ---------------------------------------------------------------------------
  // post_court_data_to_api

  /** serialNumber: the first digit run of Item No ("D-10" gives 10), 0 without one. */
  function SerialNumber(itemNo: string): (n: nat)
    ensures (forall k :: 0 <= k < |itemNo| ==> !IsDigit(itemNo[k])) ==> n == 0
  {
    if itemNo == [] then 0
    else match SearchGroup(itemNo, DigitsAt)
      case Some(g) =>
        SearchCapturesDigits(itemNo, DigitsAt);
        Value(g)
      case None => 0
  }

  /** The first digit run is read whatever follows it. */
  lemma SerialNumberFirstRun(pre: string, d: string, post: string)
    requires forall k :: 0 <= k < |pre| ==> !IsDigit(pre[k])
    requires d != [] && AllDigits(d)
    requires post == [] || !IsDigit(post[0])
    ensures SerialNumber(pre + d + post) == Value(d)
  {
    var s := pre + d + post;
    var k := |pre|;
    assert forall j :: k <= j < k + |d| ==> s[j] == d[j - k];
    assert k + |d| < |s| ==> s[k + |d|] == post[0];
    DigitRunIs(s, k, k + |d|);
    assert s[k..k + |d|] == d;
    forall j | 0 <= j < k ensures DigitsAt(s, j).None? {
      assert s[j] == pre[j];
    }
    SearchGroupAt(s, DigitsAt, k, d);
  }

  /** courtHallNumber: the leading digits of Court No when it starts with a digit,
      else Court No unchanged. */
  function CourtHallNumber(courtNo: string): (r: string)
    ensures courtNo == [] || !IsDigit(courtNo[0]) ==> r == courtNo
    ensures courtNo != [] && IsDigit(courtNo[0]) ==>
              (r != [] && |r| <= |courtNo| && AllDigits(r) && courtNo[..|r|] == r
               && (|r| == |courtNo| || !IsDigit(courtNo[|r|])))
  {
    match DigitsAt(courtNo, 0)
    case Some(g) => g
    case None => courtNo
  }

  function ToPayload(r: Record): (p: Ingest.Payload)
    ensures p.serialNumber == SerialNumber(r.itemNo) && p.courtHallNumber == CourtHallNumber(r.courtNo)
    ensures p.benchName == r.bench && p.caseNumber == "" && p.note == r.keptBack && p.listNumber == Some(0)
  {
    Ingest.Payload(r.bench, CourtHallNumber(r.courtNo), "", SerialNumber(r.itemNo), r.keptBack, Some(0))
  }

  /** What an error entry records: the court as the progress line shows it (the same
      leading digits that are posted as courtHallNumber) and the item. */
  function ErrorKey(r: Record): (k: (string, string))
    ensures k.0 == ToPayload(r).courtHallNumber && k.1 == r.itemNo
    ensures r.courtNo != [] && IsDigit(r.courtNo[0]) ==> k.0 != [] && AllDigits(k.0) && k.0 <= r.courtNo
  {
    (CourtHallNumber(r.courtNo), r.itemNo)
  }
}
