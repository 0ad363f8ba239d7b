/** The Telangana High Court (Hyderabad) display board: the first table of the page,
    whose rows after the header hold several courts side by side. A court starts at
    a cell linking to "court=<n>" and normally spans four cells (court, running item,
    case number, passed-over cases); a court whose session has ended may span two. */
module Telangana {
  import opened Text
  import opened Scan
  import opened Dom

  const BenchName := "hyderabad"
  const SessionEnded := "Court Session Ended"

  /** One spreadsheet row (bench and sub-bench are constants and left out). */
  datatype Record = Record(court: string, runningItem: string, caseNo: string, passedOver: string,
                           dateTime: string)

  // ---------------------------------------------------------------------------
  // get_court_number_from_link

  /** `court=(\d+)` at i. */
  function CourtParamAt(s: string, i: nat): (r: Option<string>)
    ensures r.Some? ==> r.value != [] && AllDigits(r.value)
  {
    if OccursAt(s, "court=", i) then
      var e := DigitRunEnd(s, i + 6);
      if e > i + 6 then Some(s[i + 6..e]) else None
    else None
  }

  /** The court number a cell links to, if its HTML holds "court=<digits>". */
  function CourtLink(c: Cell): (r: Option<string>)
    ensures r.Some? ==> r.value != [] && AllDigits(r.value)
  {
    var g := SearchGroup(c.html, CourtParamAt);
    if g.Some? then
      var h := Search(c.html, 0, CourtParamAt);
      assert CourtParamAt(c.html, h.value.at) == Some(g.value);
      g
    else None
  }

  /** A link "court-view?court=7" gives court number "7". */
  lemma CourtLinkOf(pre: string, d: string, post: string)
    requires !Contains(pre, "court=")
    requires d != [] && AllDigits(d) && (post == [] || !IsDigit(post[0]))
    ensures CourtLink(Cell("", pre + "court=" + d + post, "", "", false, "", None)) == Some(d)
  {
    var s := pre + "court=" + d + post;
    var k := |pre|;
    var e := k + 6 + |d|;
    assert s[k..k + 6] == "court=";
    assert forall j :: k + 6 <= j < e ==> s[j] == d[j - k - 6];
    assert e < |s| ==> s[e] == post[0];
    assert s[k + 6..e] == d;
    NoLinkBefore(pre, s);
    CourtParamFirst(s, k, e);
  }

  /** The first "court=" followed by digits gives those digits. */
  lemma CourtParamFirst(s: string, k: nat, e: nat)
    requires k + 6 < e <= |s| && s[k..k + 6] == "court="
    requires forall j :: k + 6 <= j < e ==> IsDigit(s[j])
    requires e == |s| || !IsDigit(s[e])
    requires forall j :: 0 <= j < k ==> !OccursAt(s, "court=", j)
    ensures SearchGroup(s, CourtParamAt) == Some(s[k + 6..e])
  {
    DigitRunIs(s, k + 6, e);
    assert CourtParamAt(s, k) == Some(s[k + 6..e]);
    SearchGroupAt(s, CourtParamAt, k, s[k + 6..e]);
  }

  /** A text without "court=", followed by "court=", has no earlier occurrence: the
      pattern has no border, so none can straddle the join. */
  lemma NoLinkBefore(pre: string, s: string)
    requires !Contains(pre, "court=")
    requires |pre| + 6 <= |s| && s[..|pre|] == pre && s[|pre|..|pre| + 6] == "court="
    ensures forall j :: 0 <= j < |pre| ==> !OccursAt(s, "court=", j)
  {
    var k := |pre|;
    forall j | 0 <= j < k ensures !OccursAt(s, "court=", j) {
      if j + 6 <= k {
        assert s[j..j + 6] == pre[j..j + 6];
        assert !OccursAt(pre, "court=", j);
      } else {
        NoStraddle(s, j, k);
      }
    }
  }

  lemma NoStraddle(s: string, j: nat, k: nat)
    requires j < k < j + 6 && k + 6 <= |s| && s[k..k + 6] == "court="
    ensures !OccursAt(s, "court=", j)
  {
    assert s[k] == s[k..k + 6][0] == 'c';
    assert s[j..j + 6][k - j] == s[k];
    assert "court="[k - j] != 'c';
  }

  // ---------------------------------------------------------------------------
  // The cell walk of one row

  /** How many cells the court whose link cell is at idx spans: one when it is the
      last cell of the row; two when the next cell says the session ended, unless the
      cell after that is not a court link and one more cell follows; four otherwise. */
  function Span(cells: seq<Cell>, idx: nat): (k: nat)
    requires idx < |cells|
    ensures k == 1 || k == 2 || k == 4
    ensures k == 1 <==> idx + 1 == |cells|
  {
    if idx + 1 < |cells| then
      if Contains(CellText(cells[idx + 1]), SessionEnded) then
        if idx + 3 < |cells| && CourtLink(cells[idx + 2]).None? then 4 else 2
      else 4
    else 1
  }

  /** The record of the court whose link cell is at idx, linking to court n: the
      cells after it that its span covers, as running item, case number and
      passed-over cases (an ended session's two-cell span has only the running item;
      a four-cell span at the end of the row reads the cells that exist). */
  function CourtAt(cells: seq<Cell>, idx: nat, n: string, time: string): (r: Record)
    requires idx < |cells|
    ensures r.court == CourtName(cells[idx], n) && r.dateTime == time
    ensures Span(cells, idx) == 1 ==> r.runningItem == "" && r.caseNo == "" && r.passedOver == ""
    ensures Span(cells, idx) == 2 ==> r.runningItem == CellText(cells[idx + 1]) && r.caseNo == "" && r.passedOver == ""
    ensures Span(cells, idx) == 4 && idx + 3 < |cells| ==>
              r.runningItem == CellText(cells[idx + 1]) && r.caseNo == CellText(cells[idx + 2])
              && r.passedOver == CellText(cells[idx + 3])
  {
    var courtNo := CourtName(cells[idx], n);
    if idx + 1 < |cells| then
      var running := CellText(cells[idx + 1]);
      if Contains(running, SessionEnded) then
        if idx + 3 < |cells| && CourtLink(cells[idx + 2]).None? then
          Record(courtNo, running, CellText(cells[idx + 2]), CellText(cells[idx + 3]), time)
        else Record(courtNo, running, "", "", time)
      else
        var caseNo := if idx + 2 < |cells| then CellText(cells[idx + 2]) else "";
        var passedOver := if idx + 3 < |cells| then CellText(cells[idx + 3]) else "";
        Record(courtNo, running, caseNo, passedOver, time)
    else Record(courtNo, "", "", "", time)
  }

  /** The court column: the cell's text, or "Court <n>" when it has none. */
  function CourtName(c: Cell, n: string): (r: string)
    ensures CellText(c) != "" ==> r == CellText(c)
    ensures CellText(c) == "" ==> r == "Court " + n
  {
    var t := CellText(c);
    if t != "" then t else "Court " + n
  }

  /** The records of the walk from idx: a court link cell gives its record and the walk
      resumes after the cells it spans; any other cell is stepped over. */
  function Walk(cells: seq<Cell>, idx: nat, time: string): seq<Record>
    decreases |cells| - idx
  {
    if idx >= |cells| then []
    else
      match CourtLink(cells[idx])
      case None => Walk(cells, idx + 1, time)
      case Some(n) => [CourtAt(cells, idx, n, time)] + Walk(cells, idx + Span(cells, idx), time)
  }

  /** The cells the walk from idx lands on as court cells, in order. */
  function Stops(cells: seq<Cell>, idx: nat): seq<nat>
    decreases |cells| - idx
  {
    if idx >= |cells| then []
    else
      match CourtLink(cells[idx])
      case None => Stops(cells, idx + 1)
      case Some(_) => [idx] + Stops(cells, idx + Span(cells, idx))
  }

  /** The records of a data row: the walk over it when it has at least four cells. */
  function RowRecords(cells: seq<Cell>, time: string): seq<Record> {
    if |cells| >= 4 then Walk(cells, 0, time) else []
  }

  function Decoder(time: string): Row -> seq<Record> {
    (row: Row) => RowRecords(row.td, time)
  }

  /** The records of the first table: its rows after the header, in order; nothing
      when the page has no table. */
  function Scrape(tables: seq<Table>, time: string): seq<Record> {
    if tables == [] || tables[0].rows == [] then [] else FlatMap(tables[0].rows[1..], Decoder(time))
  }

  /** One court of the walk: the record and the cells consumed. */
  method DecodeCourt(cells: seq<Cell>, idx: nat, courtNum: string, time: string)
    returns (rec: Record, consumed: nat)
    requires idx < |cells|
    ensures rec == CourtAt(cells, idx, courtNum, time) && consumed == Span(cells, idx)
  {
    var courtNo := CellText(cells[idx]);
    var runningItem := "";
    var caseNo := "";
    var passedOver := "";
    if idx + 1 < |cells| {
      runningItem := CellText(cells[idx + 1]);
      if Contains(runningItem, SessionEnded) {
        caseNo := "";
        passedOver := "";
        consumed := 2;
        if idx + 2 < |cells| {
          var nextCellText := CellText(cells[idx + 2]);
          if CourtLink(cells[idx + 2]).None? {
            if idx + 3 < |cells| {
              caseNo := nextCellText;
              passedOver := CellText(cells[idx + 3]);
              consumed := 4;
            } else {
              consumed := 2;
            }
          }
        }
      } else {
        if idx + 2 < |cells| {
          caseNo := CellText(cells[idx + 2]);
        }
        if idx + 3 < |cells| {
          passedOver := CellText(cells[idx + 3]);
        }
        consumed := 4;
      }
    } else {
      consumed := 1;
    }
    rec := Record(if courtNo != "" then courtNo else "Court " + courtNum, runningItem, caseNo, passedOver, time);
  }

  /** The `while idx < len(cells)` walk over one row. */
  method DecodeRow(cells: seq<Cell>, time: string) returns (recs: seq<Record>)
    ensures recs == RowRecords(cells, time)
  {
    recs := [];
    if |cells| < 4 {
      return;
    }
    ghost var all := Walk(cells, 0, time);
    var idx := 0;
    while idx < |cells|
      invariant recs + Walk(cells, idx, time) == all
      decreases |cells| - idx
    {
      var out, next := WalkStep(cells, idx, time);
      Regroup(recs, out, Walk(cells, next, time));
      recs := recs + out;
      idx := next;
    }
    WalkEnd(cells, idx, time);
    assert recs + [] == recs;
  }

  /** One pass of the walk loop: the record of a court link cell and its span, or a
      step over any other cell. */
  method WalkStep(cells: seq<Cell>, idx: nat, time: string) returns (out: seq<Record>, next: nat)
    requires idx < |cells|
    ensures idx < next && Walk(cells, idx, time) == out + Walk(cells, next, time)
  {
    var courtNum := CourtLink(cells[idx]);
    if courtNum.Some? {
      var rec, consumed := DecodeCourt(cells, idx, courtNum.value, time);
      WalkCourt(cells, idx, courtNum.value, time);
      out, next := [rec], idx + consumed;
    } else {
      WalkSkip(cells, idx, time);
      out, next := [], idx + 1;
      assert [] + Walk(cells, next, time) == Walk(cells, next, time);
    }
  }

  /** The row loop over the first table. */
  method ScrapeDisplayBoard(tables: seq<Table>, time: string) returns (recs: seq<Record>)
    ensures recs == Scrape(tables, time)
  {
    recs := [];
    if tables == [] {
      return;
    }
    var rows := tables[0].rows;
    if rows == [] {
      return;
    }
    var body := rows[1..];
    for i := 0 to |body|
      invariant recs == FlatMap(body[..i], Decoder(time))
    {
      var r := DecodeRow(body[i].td, time);
      FlatMapSnoc(body, i, Decoder(time));
      recs := recs + r;
    }
    assert body[..|body|] == body;
  }

  // ---------------------------------------------------------------------------
  // What the walk gives

  /** One step of the walk at a court link cell. */
  lemma WalkCourt(cells: seq<Cell>, idx: nat, n: string, time: string)
    requires idx < |cells| && CourtLink(cells[idx]) == Some(n)
    ensures Walk(cells, idx, time) == [CourtAt(cells, idx, n, time)] + Walk(cells, idx + Span(cells, idx), time)
  {
  }

  /** The walk lands on a court link cell and resumes after its span. */
  lemma StopsCourt(cells: seq<Cell>, idx: nat)
    requires idx < |cells| && CourtLink(cells[idx]).Some?
    ensures Stops(cells, idx) == [idx] + Stops(cells, idx + Span(cells, idx))
  {
  }

  /** The walk steps over any other cell. */
  lemma StopsSkip(cells: seq<Cell>, idx: nat)
    requires idx < |cells| && CourtLink(cells[idx]).None?
    ensures Stops(cells, idx) == Stops(cells, idx + 1)
  {
  }

  /** One step of the walk at any other cell. */
  lemma WalkSkip(cells: seq<Cell>, idx: nat, time: string)
    requires idx < |cells| && CourtLink(cells[idx]).None?
    ensures Walk(cells, idx, time) == Walk(cells, idx + 1, time)
  {
  }

  /** Past the last cell the walk gives nothing. */
  lemma WalkEnd(cells: seq<Cell>, idx: nat, time: string)
    requires idx >= |cells|
    ensures Walk(cells, idx, time) == [] && Stops(cells, idx) == []
  {
  }

  /** Every cell the walk lands on is a court link cell at or after where it
      started. */
  lemma StopsAreCourts(cells: seq<Cell>, idx: nat)
    ensures forall k :: 0 <= k < |Stops(cells, idx)| ==>
              idx <= Stops(cells, idx)[k] < |cells| && CourtLink(cells[Stops(cells, idx)[k]]).Some?
  {
    StopsFrom(cells, idx);
    StopsLand(cells, idx);
  }

  /** Each of xs is a court link cell of the row. */
  predicate CourtCells(cells: seq<Cell>, xs: seq<nat>) {
    forall k :: 0 <= k < |xs| ==> xs[k] < |cells| && CourtLink(cells[xs[k]]).Some?
  }

  lemma {:induction false} StopsLand(cells: seq<Cell>, idx: nat)
    ensures CourtCells(cells, Stops(cells, idx))
    decreases |cells| - idx
  {
    if idx < |cells| {
      if CourtLink(cells[idx]).Some? {
        var next := idx + Span(cells, idx);
        StopsCourt(cells, idx);
        StopsLand(cells, next);
        ConsCourt(cells, idx, Stops(cells, next));
      } else {
        StopsSkip(cells, idx);
        StopsLand(cells, idx + 1);
      }
    }
  }

  lemma ConsCourt(cells: seq<Cell>, x: nat, rest: seq<nat>)
    requires x < |cells| && CourtLink(cells[x]).Some? && CourtCells(cells, rest)
    ensures CourtCells(cells, [x] + rest)
  {
    var st := [x] + rest;
    forall k | 0 <= k < |st| ensures st[k] < |cells| && CourtLink(cells[st[k]]).Some? {
      if k > 0 {
        assert st[k] == rest[k - 1];
      }
    }
  }

  /** The walk lands only on cells at or after where it started. */
  lemma {:induction false} StopsFrom(cells: seq<Cell>, idx: nat)
    ensures AtLeast(Stops(cells, idx), idx)
    decreases |cells| - idx
  {
    if idx < |cells| {
      if CourtLink(cells[idx]).Some? {
        var next := idx + Span(cells, idx);
        StopsCourt(cells, idx);
        StopsFrom(cells, next);
        ConsAtLeast(idx, Stops(cells, next), idx, next);
      } else {
        StopsSkip(cells, idx);
        StopsFrom(cells, idx + 1);
      }
    }
  }

  /** Every element is at least lo. */
  predicate AtLeast(xs: seq<nat>, lo: nat) {
    forall k :: 0 <= k < |xs| ==> lo <= xs[k]
  }

  lemma ConsAtLeast(x: nat, rest: seq<nat>, lo: nat, lo': nat)
    requires lo <= x && lo <= lo' && AtLeast(rest, lo')
    ensures AtLeast([x] + rest, lo)
  {
    var st := [x] + rest;
    forall k | 0 <= k < |st| ensures lo <= st[k] {
      if k > 0 {
        assert st[k] == rest[k - 1];
      }
    }
  }

  /** Strictly increasing. */
  predicate Increasing(xs: seq<nat>) {
    forall k, l :: 0 <= k < l < |xs| ==> xs[k] < xs[l]
  }

  lemma ConsIncreasing(x: nat, rest: seq<nat>)
    requires Increasing(rest) && forall k :: 0 <= k < |rest| ==> x < rest[k]
    ensures Increasing([x] + rest)
  {
    var st := [x] + rest;
    forall k, l | 0 <= k < l < |st| ensures st[k] < st[l] {
      assert st[l] == rest[l - 1];
      if k > 0 {
        assert st[k] == rest[k - 1];
      }
    }
  }

  /** The walk lands on cells in increasing order. */
  lemma {:induction false} StopsIncrease(cells: seq<Cell>, idx: nat)
    ensures Increasing(Stops(cells, idx))
    decreases |cells| - idx
  {
    if idx < |cells| {
      if CourtLink(cells[idx]).Some? {
        var next := idx + Span(cells, idx);
        StopsCourt(cells, idx);
        StopsIncrease(cells, next);
        StopsFrom(cells, next);
        ConsIncreasing(idx, Stops(cells, next));
      } else {
        StopsSkip(cells, idx);
        StopsIncrease(cells, idx + 1);
      }
    }
  }

  /** Each cell the walk lands on gives exactly one record, the one CourtAt builds
      there, in the same order; nothing is filtered. */
  lemma {:induction false} WalkStops(cells: seq<Cell>, idx: nat, time: string)
    ensures |Walk(cells, idx, time)| == |Stops(cells, idx)|
    ensures forall k :: 0 <= k < |Stops(cells, idx)| ==>
              var j := Stops(cells, idx)[k];
              j < |cells| && CourtLink(cells[j]).Some? &&
              Walk(cells, idx, time)[k] == CourtAt(cells, j, CourtLink(cells[j]).value, time)
    decreases |cells| - idx
  {
    StopsAreCourts(cells, idx);
    if idx < |cells| {
      var link := CourtLink(cells[idx]);
      if link.Some? {
        WalkCourt(cells, idx, link.value, time);
        StopsCourt(cells, idx);
        WalkStops(cells, idx + Span(cells, idx), time);
      } else {
        WalkSkip(cells, idx, time);
        StopsSkip(cells, idx);
        WalkStops(cells, idx + 1, time);
      }
    } else {
      WalkEnd(cells, idx, time);
    }
  }

  /** A cell that links to no court is stepped over. */
  lemma NonCourtCellSkipped(cells: seq<Cell>, idx: nat, time: string)
    requires idx < |cells| && CourtLink(cells[idx]).None?
    ensures Walk(cells, idx, time) == Walk(cells, idx + 1, time)
  {
  }

  /** A court link in the last cell still gives a record, with only the court. */
  lemma LastCellCourt(cells: seq<Cell>, n: string, time: string)
    requires cells != [] && CourtLink(cells[|cells| - 1]) == Some(n)
    ensures Walk(cells, |cells| - 1, time) == [Record(CourtName(cells[|cells| - 1], n), "", "", "", time)]
  {
  }

  /** A court whose session ended, followed by another court's link cell, spans two
      cells: it keeps the ended text as its running item and the next court is read
      from the following cell. */
  lemma EndedCourtBeforeCourt(cells: seq<Cell>, idx: nat, n: string, time: string)
    requires idx + 2 < |cells| && CourtLink(cells[idx]) == Some(n)
    requires Contains(CellText(cells[idx + 1]), SessionEnded) && CourtLink(cells[idx + 2]).Some?
    ensures Walk(cells, idx, time) ==
              [Record(CourtName(cells[idx], n), CellText(cells[idx + 1]), "", "", time)] + Walk(cells, idx + 2, time)
  {
  }

  /** From j on, the row is made of groups of four cells, each starting with a court
      link whose session has not ended: the layout the board is meant to have. */
  predicate RegularFrom(cells: seq<Cell>, j: nat)
    decreases |cells| - j
  {
    j == |cells| ||
    (j + 4 <= |cells| && CourtLink(cells[j]).Some? && !Contains(CellText(cells[j + 1]), SessionEnded)
     && RegularFrom(cells, j + 4))
  }

  /** The record of the group of four cells starting at j. */
  function GroupRecord(cells: seq<Cell>, j: nat, time: string): Record
    requires j + 3 < |cells| && CourtLink(cells[j]).Some?
  {
    Record(CourtName(cells[j], CourtLink(cells[j]).value), CellText(cells[j + 1]), CellText(cells[j + 2]),
           CellText(cells[j + 3]), time)
  }

  /** One record per group, read from the group's own four cells. */
  function GroupRecords(cells: seq<Cell>, j: nat, time: string): (r: seq<Record>)
    requires RegularFrom(cells, j)
    ensures |r| == (|cells| - j) / 4
    decreases |cells| - j
  {
    if j == |cells| then [] else [GroupRecord(cells, j, time)] + GroupRecords(cells, j + 4, time)
  }

  /** On a regular row every group gives one record, in order, from its four cells,
      whatever the cells inside a group link to. */
  lemma {:induction false} RegularWalk(cells: seq<Cell>, j: nat, time: string)
    requires RegularFrom(cells, j)
    ensures Walk(cells, j, time) == GroupRecords(cells, j, time)
    decreases |cells| - j
  {
    if j < |cells| {
      WalkCourt(cells, j, CourtLink(cells[j]).value, time);
      RegularWalk(cells, j + 4, time);
    } else {
      WalkEnd(cells, j, time);
    }
  }

  /** A row laid out regularly gives one record per four cells. */
  lemma RegularRow(cells: seq<Cell>, time: string)
    requires RegularFrom(cells, 0) && |cells| >= 4
    ensures RowRecords(cells, time) == GroupRecords(cells, 0, time)
    ensures |RowRecords(cells, time)| == |cells| / 4
  {
    RegularWalk(cells, 0, time);
  }

  /** Rows with fewer than four cells give nothing. */
  lemma ShortRowSkipped(cells: seq<Cell>, time: string)
    requires |cells| < 4
    ensures RowRecords(cells, time) == []
  {
  }
}
