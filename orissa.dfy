/** The Orissa High Court display board: several tables with border 1 side by side,
    each a header row followed by pairs of rows, a one-cell row naming the judge and
    a row holding the court number and the case details ("WKL : 4. WP(C) 19033/2023"). */
module Orissa {
  import opened Text
  import opened Scan
  import opened Dom

  datatype Record = Record(courtNo: string, judgeName: string, slNo: string, caseNo: string,
                           fullDetails: string, dateTime: string)

  // ---------------------------------------------------------------------------
  // extract_slno_and_case: re.search(r':\s*(\d+)\.\s*(.+)', details)

  /** The last position in [lo, j) that does not hold '\n', if any. */
  function LastNotNewline(s: string, lo: nat, j: nat): (r: Option<nat>)
    requires lo <= j <= |s|
    ensures r.Some? ==> lo <= r.value < j && s[r.value] != '\n'
    ensures r.Some? ==> forall k :: r.value < k < j ==> s[k] == '\n'
    ensures r.None? ==> forall k :: lo <= k < j ==> s[k] == '\n'
    decreases j
  {
    if j == lo then None
    else if s[j - 1] != '\n' then Some(j - 1)
    else LastNotNewline(s, lo, j - 1)
  }

  /** The pattern `:\s*(\d+)\.\s*(.+)` matched at exactly i, with its two groups.
      `\s*` and `\d+` must take their whole runs (giving any back leaves a blank or
      a digit where a digit or the dot is needed). `.+` then runs to the end of the
      line; when nothing but whitespace follows the dot, `\s*` gives back up to the
      last character that is not a line break, and `.+` captures that one character. */
  function SlNoCaseAt(s: string, i: nat): (r: Option<(string, string)>)
    ensures r.Some? ==> r.value.0 != "" && AllDigits(r.value.0)
    ensures r.Some? ==> i < |s| && s[i] == ':'
  {
    if !(i < |s| && s[i] == ':') then None
    else
      var a := SpaceRunEnd(s, i + 1);
      if !(a < |s| && IsDigit(s[a])) then None
      else
        var e := DigitRunEnd(s, a);
        if !(e < |s| && s[e] == '.') then None
        else
          var p := SpaceRunEnd(s, e + 1);
          if p < |s| then Some((s[a..e], s[p..UntilChar(s, p, '\n')]))
          else
            match LastNotNewline(s, e + 1, |s|)
            case Some(q) => Some((s[a..e], s[q..q + 1]))
            case None => None
  }

  const NotInSession := "not in session"

  /** The Sl.No and the case number in a court's case details. Empty details, and
      details reading "not in session" in any case, give no Sl.No and the details
      themselves; otherwise the number after the first colon that is followed by a
      number, a dot and more text, and that text stripped; with no such colon, no
      Sl.No and the details unchanged. */
  function ExtractSlNoAndCase(details: string): (r: (string, string))
    ensures details == "" || Lower(details) == NotInSession ==> r == ("", details)
  {
    if details == "" || Lower(details) == NotInSession then ("", details)
    else
      match SearchGroup(details, SlNoCaseAt)
      case Some(g) => (g.0, Strip(g.1))
      case None => ("", details)
  }

  /** Either the Sl.No is a run of digits and the case number is stripped, or there is
      no Sl.No and the case number is the details unchanged. */
  lemma ExtractShape(details: string)
    ensures var r := ExtractSlNoAndCase(details);
            (r.0 == "" && r.1 == details) || (AllDigits(r.0) && Strip(r.1) == r.1 && Contains(details, ":"))
  {
    var r := ExtractSlNoAndCase(details);
    if r.0 != "" {
      var h := Search(details, 0, SlNoCaseAt);
      assert h.Some? && r == (h.value.group.0, Strip(h.value.group.1));
      assert OccursAt(details, ":", h.value.at);
      StripIdempotent(h.value.group.1);
    }
  }

  /** Details without a colon never match. */
  lemma NoColonNoSlNo(details: string)
    requires ':' !in details
    ensures ExtractSlNoAndCase(details) == ("", details)
  {
    forall j | 0 <= j <= |details|
      ensures SlNoCaseAt(details, j).None?
    {
      if j < |details| {
        assert details[j] != ':';
      }
    }
    SearchGroupNone(details, SlNoCaseAt);
  }

  /** "LABEL : N. CASE" gives N and CASE, as in "WKL : 4. WP(C) 19033/2023" giving
      "4" and "WP(C) 19033/2023". */
  lemma SlNoCaseRoundTrip(tag: string, n: string, caseNo: string)
    requires ':' !in tag
    requires n != "" && AllDigits(n)
    requires caseNo != "" && Strip(caseNo) == caseNo && '\n' !in caseNo
    ensures ExtractSlNoAndCase(tag + " : " + n + ". " + caseNo) == (n, caseNo)
  {
    var s := tag + " : " + n + ". " + caseNo;
    var c := |tag|;
    MatchAfterTag(tag, n, caseNo);
    forall j | 0 <= j < c + 1
      ensures SlNoCaseAt(s, j).None?
    {
      if j < c {
        assert s[j] == tag[j];
      }
    }
    SearchGroupAt(s, SlNoCaseAt, c + 1, (n, caseNo));
    assert Lower(s)[c + 1] == ':';
    ColonNotMarker(Lower(s));
  }

  lemma ColonNotMarker(t: string)
    requires ':' in t
    ensures t != NotInSession
  {
  }

  /** The pattern matches at the colon after the tag, capturing N and CASE. */
  lemma MatchAfterTag(tag: string, n: string, caseNo: string)
    requires n != "" && AllDigits(n)
    requires caseNo != "" && Strip(caseNo) == caseNo && '\n' !in caseNo
    ensures var s := tag + " : " + n + ". " + caseNo;
            s[|tag| + 1] == ':' && SlNoCaseAt(s, |tag| + 1) == Some((n, caseNo))
  {
    var s1 := tag + " : ";
    var s2 := s1 + n + ". ";
    var s := s2 + caseNo;
    var c := |tag|;
    var a := c + 3;
    var e := a + |n|;
    var p := e + 2;
    assert s1[c + 1] == ':' && s1[c + 2] == ' ' && |s1| == a;
    assert s2[e] == '.' && s2[e + 1] == ' ' && |s2| == p;
    assert s[c + 1] == ':' && s[c + 2] == ' ';
    assert s[a..e] == n by {
      assert forall k :: a <= k < e ==> s[k] == n[k - a];
    }
    assert s[e] == '.' && s[e + 1] == ' ';
    assert s[p..] == caseNo;
    assert !IsSpace(caseNo[0]);
    forall k | p <= k < |s|
      ensures s[k] != '\n'
    {
      assert s[k] == s[p..][k - p];
      NoNewlineAt(caseNo, k - p);
    }
    MatchAt(s, c + 1, a, e, p);
  }

  lemma NoNewlineAt(t: string, k: nat)
    requires '\n' !in t && k < |t|
    ensures t[k] != '\n'
  {
  }

  /** A colon at i, blanks up to a, a digit run from a to e, a dot, blanks up to p and
      then a line of text that runs to the end: the pattern matches at i, capturing the
      digits and that text. */
  lemma MatchAt(s: string, i: nat, a: nat, e: nat, p: nat)
    requires i < a < e < p < |s| && s[i] == ':' && s[e] == '.'
    requires forall k :: i < k < a ==> IsSpace(s[k])
    requires forall k :: a <= k < e ==> IsDigit(s[k])
    requires forall k :: e < k < p ==> IsSpace(s[k])
    requires !IsSpace(s[p]) && forall k :: p <= k < |s| ==> s[k] != '\n'
    ensures SlNoCaseAt(s, i) == Some((s[a..e], s[p..]))
  {
    SpaceRunIs(s, i + 1, a);
    DigitRunIs(s, a, e);
    SpaceRunIs(s, e + 1, p);
    var le := UntilChar(s, p, '\n');
    assert le == |s|;
    assert SpaceRunEnd(s, i + 1) == a;
    assert a < |s| && IsDigit(s[a]);
    assert DigitRunEnd(s, a) == e;
    assert e < |s| && s[e] == '.';
    assert SpaceRunEnd(s, e + 1) == p;
    assert s[p..UntilChar(s, p, '\n')] == s[p..];
  }

  // ---------------------------------------------------------------------------
  // The judge-row / court-row walk, whatever a pair of rows gives

  /** The walk from row i on: a one-cell row with a row after it is a judge row and
      takes that row with it, contributing what `pair` makes of the two; any other row
      is passed over. */
  function Walk<R>(rows: seq<Row>, i: nat, pair: (Row, Row) -> seq<R>): seq<R>
    decreases |rows| - i
  {
    if i >= |rows| then []
    else if |rows[i].td| == 1 && i + 1 < |rows| then pair(rows[i], rows[i + 1]) + Walk(rows, i + 2, pair)
    else Walk(rows, i + 1, pair)
  }

  /** When each pair gives at most one record, the walk from i gives at most one per two rows. */
  lemma {:induction false} WalkBound<R>(rows: seq<Row>, i: nat, pair: (Row, Row) -> seq<R>)
    requires i <= |rows|
    requires forall a, b :: |pair(a, b)| <= 1
    ensures |Walk(rows, i, pair)| <= (|rows| - i) / 2
    decreases |rows| - i
  {
    if i < |rows| {
      if |rows[i].td| == 1 && i + 1 < |rows| {
        WalkBound(rows, i + 2, pair);
      } else {
        WalkBound(rows, i + 1, pair);
      }
    }
  }

  /** Every record of the walk comes from a judge row j at or after i and the row right
      after it; in particular a judge row that ends the table contributes nothing. */
  lemma {:induction false} WalkOrigin<R>(rows: seq<Row>, i: nat, pair: (Row, Row) -> seq<R>, k: nat)
    requires k < |Walk(rows, i, pair)|
    ensures exists j :: i <= j && j + 1 < |rows| && |rows[j].td| == 1 && Walk(rows, i, pair)[k] in pair(rows[j], rows[j + 1])
    decreases |rows| - i
  {
    if |rows[i].td| == 1 && i + 1 < |rows| {
      var here := pair(rows[i], rows[i + 1]);
      if k < |here| {
        assert Walk(rows, i, pair)[k] == here[k];
      } else {
        WalkOrigin(rows, i + 2, pair, k - |here|);
        assert Walk(rows, i, pair)[k] == Walk(rows, i + 2, pair)[k - |here|];
      }
    } else {
      WalkOrigin(rows, i + 1, pair, k);
    }
  }

  /** Dropping the first row and starting one row earlier is the same walk. */
  lemma {:induction false} WalkShift<R>(rows: seq<Row>, i: nat, pair: (Row, Row) -> seq<R>)
    requires 1 <= i && rows != []
    ensures Walk(rows, i, pair) == Walk(rows[1..], i - 1, pair)
    decreases |rows| - i
  {
    if i < |rows| {
      assert rows[1..][i - 1] == rows[i];
      if i + 1 < |rows| {
        assert rows[1..][i] == rows[i + 1];
        if |rows[i].td| == 1 {
          WalkShift(rows, i + 2, pair);
          return;
        }
      }
      WalkShift(rows, i + 1, pair);
    }
  }

  /** Header, then n judge rows each followed by a row that gives one record: exactly
      n records, the k-th from the k-th pair. */
  lemma {:induction false} WellPaired<R>(rows: seq<Row>, i: nat, n: nat, pair: (Row, Row) -> seq<R>)
    requires i + 2 * n == |rows|
    requires forall k :: 0 <= k < n ==> |rows[i + 2 * k].td| == 1 && |pair(rows[i + 2 * k], rows[i + 2 * k + 1])| == 1
    ensures |Walk(rows, i, pair)| == n
    ensures forall k :: 0 <= k < n ==> Walk(rows, i, pair)[k] == pair(rows[i + 2 * k], rows[i + 2 * k + 1])[0]
    decreases n
  {
    if n > 0 {
      assert |rows[i + 2 * 0].td| == 1 && |pair(rows[i + 2 * 0], rows[i + 2 * 0 + 1])| == 1;
      forall k | 0 <= k < n - 1
        ensures |rows[(i + 2) + 2 * k].td| == 1 && |pair(rows[(i + 2) + 2 * k], rows[(i + 2) + 2 * k + 1])| == 1
      {
        assert (i + 2) + 2 * k == i + 2 * (k + 1);
      }
      WellPaired(rows, i + 2, n - 1, pair);
      forall k | 0 <= k < n
        ensures Walk(rows, i, pair)[k] == pair(rows[i + 2 * k], rows[i + 2 * k + 1])[0]
      {
        if k > 0 {
          assert (i + 2) + 2 * (k - 1) == i + 2 * k;
        }
      }
    }
  }

  // ---------------------------------------------------------------------------
  // What a judge row and a court row give

  /** The record a court row gives under the judge named. */
  function CourtRecord(judgeName: string, courtCells: seq<Cell>, time: string): Record
    requires |courtCells| >= 2
  {
    var details := CellText(courtCells[1]);
    var info := ExtractSlNoAndCase(details);
    Record(CellText(courtCells[0]), judgeName, info.0, info.1, details, time)
  }

  /** What a judge row and the row after it give: one record when the second row has
      two cells or more and a court number, none otherwise. The walk only ever hands it
      a one-cell first row. */
  function PairRecords(judge: Row, court: Row, time: string): (r: seq<Record>)
    ensures |r| <= 1
  {
    if |judge.td| != 1 || |court.td| < 2 || CellText(court.td[0]) == "" then []
    else [CourtRecord(CellText(judge.td[0]), court.td, time)]
  }

  function PairDecoder(time: string): (Row, Row) -> seq<Record> {
    (judge: Row, court: Row) => PairRecords(judge, court, time)
  }

  /** The records of one table: the walk from the row after the header. */
  function TableRecords(t: Table, time: string): seq<Record> {
    Walk(t.rows, 1, PairDecoder(time))
  }

  function TableDecoder(time: string): Table -> seq<Record> {
    (t: Table) => TableRecords(t, time)
  }

  /** A table the scraper reads: border="1". */
  predicate IsCourtTable(t: Table) {
    t.border == "1"
  }

  /** The court tables, in page order. */
  function CourtTables(tables: seq<Table>): seq<Table> {
    Filter(tables, IsCourtTable)
  }

  /** The records of the page: the court tables one after the other. */
  function Scrape(tables: seq<Table>, time: string): seq<Record> {
    FlatMap(CourtTables(tables), TableDecoder(time))
  }

  // ---------------------------------------------------------------------------
  // scrape_display_board

  /** The body of the walk at a judge row with a row after it. */
  method DecodePair(rows: seq<Row>, i: nat, time: string) returns (recs: seq<Record>)
    requires i + 1 < |rows| && |rows[i].td| == 1
    ensures recs == PairRecords(rows[i], rows[i + 1], time)
  {
    var judgeName := CellText(rows[i].td[0]);
    var courtCells := rows[i + 1].td;
    recs := [];
    if |courtCells| >= 2 {
      var courtNo := CellText(courtCells[0]);
      var caseDetails := CellText(courtCells[1]);
      var info := ExtractSlNoAndCase(caseDetails);
      if courtNo != "" {
        recs := [Record(courtNo, judgeName, info.0, info.1, caseDetails, time)];
      }
    }
  }

  /** The while-loop over one table's rows, from the row after the header. */
  method WalkTable(rows: seq<Row>, time: string) returns (recs: seq<Record>)
    ensures recs == Walk(rows, 1, PairDecoder(time))
  {
    recs := [];
    var i := 1;
    while i < |rows|
      invariant 1 <= i <= |rows| + 1
      invariant recs + Walk(rows, i, PairDecoder(time)) == Walk(rows, 1, PairDecoder(time))
      decreases |rows| - i
    {
      if |rows[i].td| == 1 {
        if i + 1 < |rows| {
          var r := DecodePair(rows, i, time);
          recs := recs + r;
          i := i + 2;
        } else {
          i := i + 1;
        }
      } else {
        i := i + 1;
      }
    }
  }

  /** scrape_display_board: the court tables, each walked in turn. */
  method ScrapeDisplayBoard(tables: seq<Table>, time: string) returns (recs: seq<Record>)
    ensures recs == Scrape(tables, time)
  {
    var courtTables := CourtTables(tables);
    recs := [];
    for ti := 0 to |courtTables|
      invariant recs == FlatMap(courtTables[..ti], TableDecoder(time))
    {
      var r := WalkTable(courtTables[ti].rows, time);
      FlatMapSnoc(courtTables, ti, TableDecoder(time));
      recs := recs + r;
    }
    assert courtTables[..|courtTables|] == courtTables;
  }

  // ---------------------------------------------------------------------------
  // What the records say

  /** A table gives at most one record per two rows after the header. */
  lemma TableBound(t: Table, time: string)
    ensures |TableRecords(t, time)| <= if t.rows == [] then 0 else (|t.rows| - 1) / 2
  {
    if t.rows != [] {
      WalkBound(t.rows, 1, PairDecoder(time));
    }
  }

  /** The header row plays no part: a table's records are those of the walk over the
      rows after it, started at the first of them. */
  lemma HeaderIgnored(t: Table, time: string)
    requires t.rows != []
    ensures TableRecords(t, time) == Walk(t.rows[1..], 0, PairDecoder(time))
  {
    WalkShift(t.rows, 1, PairDecoder(time));
  }

  /** Each record pairs the judge row j before a court row with that row's court
      number (cell 0) and case details (cell 1), the row having two cells or more and a
      court number. */
  lemma RecordOrigin(t: Table, time: string, k: nat)
    requires k < |TableRecords(t, time)|
    ensures exists j :: 1 <= j && j + 1 < |t.rows| && |t.rows[j].td| == 1 && |t.rows[j + 1].td| >= 2
                        && CellText(t.rows[j + 1].td[0]) != ""
                        && TableRecords(t, time)[k] == CourtRecord(CellText(t.rows[j].td[0]), t.rows[j + 1].td, time)
  {
    WalkOrigin(t.rows, 1, PairDecoder(time), k);
    var j :| 1 <= j && j + 1 < |t.rows| && |t.rows[j].td| == 1
             && TableRecords(t, time)[k] in PairDecoder(time)(t.rows[j], t.rows[j + 1]);
    assert PairRecords(t.rows[j], t.rows[j + 1], time) != [];
  }

  /** A one-cell row right after a judge row is taken as that judge's court row, not
      as a judge row of its own: the pair gives nothing and the walk resumes two rows on. */
  lemma JudgeRowAfterJudgeRow(rows: seq<Row>, i: nat, time: string)
    requires i + 1 < |rows| && |rows[i].td| == 1 && |rows[i + 1].td| == 1
    ensures Walk(rows, i, PairDecoder(time)) == Walk(rows, i + 2, PairDecoder(time))
  {
    assert PairRecords(rows[i], rows[i + 1], time) == [];
  }

  /** A table laid out as the board intends - header, then n judge rows each followed
      by a court row with a court number - gives exactly n records, the k-th built from
      the k-th pair. */
  lemma BoardLayout(t: Table, n: nat, time: string)
    requires |t.rows| == 1 + 2 * n
    requires forall k :: 0 <= k < n ==> |t.rows[1 + 2 * k].td| == 1
    requires forall k :: 0 <= k < n ==> |t.rows[2 + 2 * k].td| >= 2 && CellText(t.rows[2 + 2 * k].td[0]) != ""
    ensures |TableRecords(t, time)| == n
    ensures forall k :: 0 <= k < n ==>
              TableRecords(t, time)[k] == CourtRecord(CellText(t.rows[1 + 2 * k].td[0]), t.rows[2 + 2 * k].td, time)
  {
    var rows := t.rows;
    var pair := PairDecoder(time);
    forall k | 0 <= k < n
      ensures |rows[1 + 2 * k].td| == 1 && |pair(rows[1 + 2 * k], rows[1 + 2 * k + 1])| == 1
    {
      assert 1 + 2 * k + 1 == 2 + 2 * k;
    }
    WellPaired(rows, 1, n, pair);
    forall k | 0 <= k < n
      ensures TableRecords(t, time)[k] == CourtRecord(CellText(rows[1 + 2 * k].td[0]), rows[2 + 2 * k].td, time)
    {
      assert 1 + 2 * k + 1 == 2 + 2 * k;
      assert pair(rows[1 + 2 * k], rows[2 + 2 * k]) == [CourtRecord(CellText(rows[1 + 2 * k].td[0]), rows[2 + 2 * k].td, time)];
    }
  }

  /** A table's records when it has border 1, nothing otherwise. */
  function BorderedDecoder(time: string): Table -> seq<Record> {
    (t: Table) => if IsCourtTable(t) then TableRecords(t, time) else []
  }

  /** Only the court tables count: any other table contributes nothing, wherever it
      stands. */
  lemma {:induction false} OtherTablesIgnored(tables: seq<Table>, time: string)
    ensures Scrape(tables, time) == FlatMap(tables, BorderedDecoder(time))
    decreases |tables|
  {
    if tables != [] {
      var init := tables[..|tables| - 1];
      var t := tables[|tables| - 1];
      OtherTablesIgnored(init, time);
      var here := if IsCourtTable(t) then [t] else [];
      FlatMapAppend(CourtTables(init), here, TableDecoder(time));
      if IsCourtTable(t) {
        assert FlatMap(here, TableDecoder(time)) == FlatMap(here[..0], TableDecoder(time)) + TableRecords(t, time);
      }
    }
  }

  /** The records come table by table. */
  lemma TablesInOrder(ts: seq<Table>, us: seq<Table>, time: string)
    ensures Scrape(ts + us, time) == Scrape(ts, time) + Scrape(us, time)
  {
    OtherTablesIgnored(ts + us, time);
    OtherTablesIgnored(ts, time);
    OtherTablesIgnored(us, time);
    FlatMapAppend(ts, us, BorderedDecoder(time));
  }
}
