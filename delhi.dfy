/** The Delhi High Court display board: one table row per court, with the item, the
    judges, the case number ("LPA - 500 / 2025") and the cause title ("A Vs B"). */
module Delhi {
  import opened Text
  import opened Scan
  import opened Dom
  import Ingest

  const BenchName := "New Delhi"

  /** One spreadsheet row. */
  datatype Record = Record(court: string, itemNo: string, judges: string, caseNumber: string,
                           caseFull: string, title: string, petitioner: string, respondent: string,
                           dateTime: string)

  // ---------------------------------------------------------------------------
  // extract_case_number_numeric

  // The pattern `-\s*(\d+)\s*/` at i.
  function DashDigitsSlashAt(s: string, i: nat): (r: Option<string>)
    ensures r.Some? ==> r.value != [] && AllDigits(r.value)
  {
    if i < |s| && s[i] == '-' then
      var a := SpaceRunEnd(s, i + 1);
      var e := DigitRunEnd(s, a);
      var f := SpaceRunEnd(s, e);
      if e > a && f < |s| && s[f] == '/' then Some(s[a..e]) else None
    else None
  }

  /** The number of a case such as "LPA - 500 / 2025": the digits between a dash and
      the next slash, else the first standalone number, else "". */
  function CaseNumberNumeric(caseFull: string): (r: string)
    ensures AllSpace(caseFull) ==> r == []
    ensures r == [] || AllDigits(r)
  {
    if AllSpace(caseFull) then []
    else
      SearchCapturesDigits(caseFull, StandaloneAt);
      match Search(caseFull, 0, DashDigitsSlashAt)
      case Some(h) => h.group
      case None =>
        match SearchGroup(caseFull, StandaloneAt)
        case Some(g) => g
        case None => []
  }

  /** "LPA - 500 / 2025", "CONT.CAS(C) - 155 / 2026", "W.P.(C) - 696 / 2025": the
      number after the first dash, when the prefix has no other dash. */
  lemma CaseNumberAfterDash(pre: string, d: string, rest: string)
    requires '-' !in pre
    requires d != [] && AllDigits(d)
    ensures CaseNumberNumeric(pre + " - " + d + " / " + rest) == d
  {
    var s := pre + " - " + d + " / " + rest;
    var k := |pre|;
    DashNumberLayout(s, pre, d, rest, k, k + 3 + |d|);
    DashNumberAt(s, k + 1, k + 3 + |d|);
  }

  /** Where the parts of "PRE - D / REST" sit. */
  lemma DashNumberLayout(s: string, pre: string, d: string, rest: string, k: nat, e: nat)
    requires s == pre + " - " + d + " / " + rest && '-' !in pre && d != [] && AllDigits(d)
    requires k == |pre| && e == k + 3 + |d|
    ensures e + 2 <= |s| && s[k + 1] == '-' && s[k + 2] == ' ' && s[e] == ' ' && s[e + 1] == '/'
    ensures forall j :: 0 <= j < k ==> s[j] != '-'
    ensures s[k] == ' ' && s[k + 3..e] == d
    ensures forall j :: k + 3 <= j < e ==> IsDigit(s[j])
  {
    assert forall j :: 0 <= j < k ==> s[j] == pre[j];
    assert forall j :: k + 3 <= j < e ==> s[j] == d[j - k - 3];
  }

  /** A dash at m, one blank, digits up to e, then " /", with no dash before m: the
      case number is those digits. */
  lemma DashNumberAt(s: string, m: nat, e: nat)
    requires 0 < m && m + 2 < e && e + 2 <= |s|
    requires forall j :: 0 <= j < m ==> s[j] != '-'
    requires s[m] == '-' && s[m + 1] == ' ' && s[e] == ' ' && s[e + 1] == '/'
    requires forall j :: m + 2 <= j < e ==> IsDigit(s[j])
    ensures CaseNumberNumeric(s) == s[m + 2..e]
  {
    assert !AllSpace(s) by { assert IsDigit(s[m + 2]); }
    SpaceRunIs(s, m + 1, m + 2);
    DigitRunIs(s, m + 2, e);
    SpaceRunIs(s, e, e + 1);
    SearchAt(s, DashDigitsSlashAt, m, s[m + 2..e]);
  }

  /** "WP 123": with no dash-number-slash anywhere, the case number is the first
      standalone number of the text. */
  lemma CaseNumberFallback(s: string, k: nat, e: nat)
    requires forall j :: 0 <= j <= |s| ==> DashDigitsSlashAt(s, j).None?
    requires FirstStandaloneRun(s, k, e)
    ensures CaseNumberNumeric(s) == s[k..e]
  {
    assert !AllSpace(s) by { assert IsDigit(s[k]); }
    FirstStandaloneFound(s, k, e);
  }

  // ---------------------------------------------------------------------------
  // split_title_petitioner_respondent

  predicate IsV(c: char) { c == 'V' || c == 'v' }
  predicate IsS(c: char) { c == 'S' || c == 's' }

  /** `\s+[Vv][Ss]\s+` at i: where the match ends. */
  function VsAt(s: string, i: nat): (r: Option<nat>)
    ensures r.Some? ==> i + 4 <= r.value <= |s| && IsSpace(s[i])
  {
    if i < |s| && IsSpace(s[i]) then
      var a := SpaceRunEnd(s, i);
      if a + 1 < |s| && IsV(s[a]) && IsS(s[a + 1]) then
        var b := SpaceRunEnd(s, a + 2);
        if b > a + 2 then Some(b) else None
      else None
    else None
  }

  /** (petitioner, respondent): the stripped text on each side of the first
      whitespace-surrounded "Vs" (any letter case); the whole stripped title and ""
      without one; both empty for an empty title. */
  function SplitTitle(title: string): (r: (string, string))
    ensures AllSpace(title) ==> r == ("", "")
    ensures Search(title, 0, VsAt).None? ==> r == (Strip(title), "")
    ensures r.0 == Strip(r.0) && r.1 == Strip(r.1)
  {
    StripIdempotent(title);
    if AllSpace(title) then ("", "")
    else
      match Search(title, 0, VsAt)
      case Some(h) =>
        StripIdempotent(title[..h.at]);
        StripIdempotent(title[h.group..]);
        (Strip(title[..h.at]), Strip(title[h.group..]))
      case None => (Strip(title), "")
  }

  /** Text holding no whitespace followed by "vs" in any letter case. */
  predicate NoVsWord(p: string) {
    forall j :: 0 <= j < |p| - 2 ==> !(IsSpace(p[j]) && IsV(p[j + 1]) && IsS(p[j + 2]))
  }

  /** Splitting a title written as "petitioner Vs respondent" gives back both parties,
      when the petitioner holds no " vs" word of its own. */
  lemma SplitTitleRoundTrip(p: string, r: string)
    requires p != [] && !IsSpace(p[0]) && !IsSpace(p[|p| - 1]) && NoVsWord(p)
    requires r == [] || (!IsSpace(r[0]) && !IsSpace(r[|r| - 1]))
    ensures SplitTitle(p + " Vs " + r) == (p, r)
  {
    var s := p + " Vs " + r;
    var k := |p|;
    var front := s[..k];
    var back := s[k + 4..];
    assert front == p && back == r;
    assert s[0] == p[0];
    assert !AllSpace(s);
    assert forall j :: 0 <= j < k ==> s[j] == p[j];
    assert s[k] == ' ' && s[k + 1] == 'V' && s[k + 2] == 's' && s[k + 3] == ' ';
    assert k + 4 < |s| ==> s[k + 4] == r[0];
    NoVsBefore(s, k);
    VsHere(s, k);
    SearchAt(s, VsAt, k, k + 4);
    StripNoPadding(p);
    StripNoPadding(r);
  }

  /** No separator starts before k when the text up to k has no " vs" word, ends in a
      non-space, and a space follows it. */
  lemma NoVsBefore(s: string, k: nat)
    requires 0 < k < |s| && !IsSpace(s[k - 1]) && s[k] == ' '
    requires forall j :: 0 <= j < k - 2 ==> !(IsSpace(s[j]) && IsV(s[j + 1]) && IsS(s[j + 2]))
    ensures forall j :: 0 <= j < k ==> VsAt(s, j).None?
  {
    forall j | 0 <= j < k ensures VsAt(s, j).None? {
      if IsSpace(s[j]) {
        var a := SpaceRunEnd(s, j);
        assert j < a < k && IsSpace(s[a - 1]);
      }
    }
  }

  /** " Vs " at k, followed by the end or a non-space, is a separator ending at k + 4. */
  lemma VsHere(s: string, k: nat)
    requires k + 4 <= |s| && s[k] == ' ' && s[k + 1] == 'V' && s[k + 2] == 's' && s[k + 3] == ' '
    requires k + 4 == |s| || !IsSpace(s[k + 4])
    ensures VsAt(s, k) == Some(k + 4)
  {
    SpaceRunIs(s, k, k + 1);
    SpaceRunIs(s, k + 3, k + 4);
  }

  // ---------------------------------------------------------------------------
  // extract_item_number_numeric

  /** The first digit run of an item ("A23" gives "23"), "" for "*" or an empty item. */
  function ItemNumberNumeric(item: string): (r: string)
    ensures AllSpace(item) || item == "*" ==> r == []
    ensures r == [] || AllDigits(r)
    ensures (forall k :: 0 <= k < |item| ==> !IsDigit(item[k])) ==> r == []
  {
    if AllSpace(item) || item == "*" then []
    else
      SearchCapturesDigits(item, DigitsAt);
      assert (forall k :: 0 <= k < |item| ==> !IsDigit(item[k])) ==> SearchGroup(item, DigitsAt).None? by {
        if forall k :: 0 <= k < |item| ==> !IsDigit(item[k]) {
          NoDigitsNoMatch(item, DigitsAt);
        }
      }
      match SearchGroup(item, DigitsAt)
      case Some(g) => g
      case None => []
  }

  /** "A23" and "O50" give "23" and "50". */
  lemma ItemNumberAfterLetters(pre: string, d: string, rest: string)
    requires forall k :: 0 <= k < |pre| ==> !IsDigit(pre[k])
    requires d != [] && AllDigits(d) && (rest == [] || !IsDigit(rest[0]))
    ensures ItemNumberNumeric(pre + d + rest) == d
  {
    var s := pre + d + rest;
    var k := |pre|;
    assert s[k] == d[0];
    assert !AllSpace(s) && s != "*";
    assert forall j :: k <= j < k + |d| ==> s[j] == d[j - k];
    assert k + |d| < |s| ==> s[k + |d|] == rest[0];
    DigitRunIs(s, k, k + |d|);
    assert s[k..k + |d|] == d;
    forall j | 0 <= j < k ensures DigitsAt(s, j).None? {
      assert s[j] == pre[j];
    }
    SearchGroupAt(s, DigitsAt, k, d);
  }

  // ---------------------------------------------------------------------------
  // The row loop

  /** The record of a row: none for fewer than five cells, an item "*" or an empty
      case; otherwise the stripped cells 0-4 and what the helpers derive from them. */
  function RowRecords(cells: seq<Cell>, time: string): (r: seq<Record>)
    ensures |r| <= 1
    ensures |r| == 1 <==> |cells| >= 5 && Strip(cells[1].text) != "*" && Strip(cells[3].text) != ""
  {
    if |cells| < 5 then []
    else
      var court := Strip(cells[0].text);
      var item := Strip(cells[1].text);
      var judges := Strip(cells[2].text);
      var caseFull := Strip(cells[3].text);
      var title := Strip(cells[4].text);
      if item == "*" || caseFull == [] then []
      else
        var parties := SplitTitle(title);
        [Record(court, ItemNumberNumeric(item), judges, CaseNumberNumeric(caseFull), caseFull, title,
                parties.0, parties.1, time)]
  }

  function Decoder(time: string): Row -> seq<Record> {
    (row: Row) => RowRecords(row.td, time)
  }

  function Scrape(rows: seq<Row>, time: string): seq<Record> {
    FlatMap(rows, Decoder(time))
  }

  /** The body of the row loop. */
  method DecodeRow(cells: seq<Cell>, time: string) returns (recs: seq<Record>)
    ensures recs == RowRecords(cells, time)
  {
    recs := [];
    if |cells| < 5 {
      return;
    }
    var courtNo := Strip(cells[0].text);
    var itemNoFull := Strip(cells[1].text);
    var judges := Strip(cells[2].text);
    var caseNoFull := Strip(cells[3].text);
    var title := Strip(cells[4].text);
    if itemNoFull == "*" || caseNoFull == [] {
      return;
    }
    var parties := SplitTitle(title);
    recs := [Record(courtNo, ItemNumberNumeric(itemNoFull), judges, CaseNumberNumeric(caseNoFull), caseNoFull,
                    title, parties.0, parties.1, time)];
  }

  /** The `for row in rows` loop. */
  method ScrapeDisplayBoard(rows: seq<Row>, time: string) returns (recs: seq<Record>)
    ensures recs == Scrape(rows, time)
  {
    recs := [];
    for i := 0 to |rows|
      invariant recs == FlatMap(rows[..i], Decoder(time))
    {
      var r := DecodeRow(rows[i].td, time);
      FlatMapSnoc(rows, i, Decoder(time));
      recs := recs + r;
    }
    assert rows[..|rows|] == rows;
  }

  /** At most one record per row; rows that are all kept give one each. */
  lemma ScrapeCount(rows: seq<Row>, time: string)
    ensures |Scrape(rows, time)| <= |rows|
    ensures (forall i :: 0 <= i < |rows| ==> |rows[i].td| >= 5 && Strip(rows[i].td[1].text) != "*"
                                              && Strip(rows[i].td[3].text) != "") ==>
              |Scrape(rows, time)| == |rows|
  {
    FlatMapBound(rows, Decoder(time), 1);
    if forall i :: 0 <= i < |rows| ==> |rows[i].td| >= 5 && Strip(rows[i].td[1].text) != "*"
                                        && Strip(rows[i].td[3].text) != "" {
      FlatMapOnePerRow(rows, Decoder(time));
    }
  }

  // ---------------------------------------------------------------------------
  // post_court_data_to_api

  /** The body posted, its judgeName, petitioner and respondent aside (see
      PostedParties): serialNumber int(Item No.) or 0, the title as the stage. */
  function ToPayload(r: Record): (p: Ingest.Payload)
    ensures p.serialNumber == IntOrZero(r.itemNo) && p.listNumber == Some(0)
    ensures p.benchName == BenchName && p.courtHallNumber == r.court && p.caseNumber == r.caseNumber
    ensures p.note == r.title
  {
    Ingest.Payload(BenchName, r.court, r.caseNumber, IntOrZero(r.itemNo), r.title, Some(0))
  }

  /** The fields of the posted body that only this court sends: judgeName,
      petitioner and respondent. */
  datatype Parties = Parties(judgeName: string, petitioner: string, respondent: string)

  /** judgeName is the Hon'ble Judges cell, petitioner and respondent the two halves
      of the title; each is stripped, so none starts or ends with a blank. */
  function PostedParties(r: Record): (p: Parties)
    ensures p.judgeName == r.judges && p.petitioner == r.petitioner && p.respondent == r.respondent
  {
    Parties(r.judges, r.petitioner, r.respondent)
  }

  /** A row titled "P Vs R" posts P as petitioner and R as respondent, with its judges
      cell, stripped, as judgeName. */
  lemma RowPostsParties(cells: seq<Cell>, time: string, p: string, q: string)
    requires |cells| >= 5 && Strip(cells[1].text) != "*" && Strip(cells[3].text) != ""
    requires cells[4].text == p + " Vs " + q
    requires p != [] && !IsSpace(p[0]) && !IsSpace(p[|p| - 1]) && NoVsWord(p)
    requires q != [] && !IsSpace(q[0]) && !IsSpace(q[|q| - 1])
    ensures |RowRecords(cells, time)| == 1
    ensures PostedParties(RowRecords(cells, time)[0]) == Parties(Strip(cells[2].text), p, q)
  {
    var t := p + " Vs " + q;
    assert t[0] == p[0] && t[|t| - 1] == q[|q| - 1];
    StripNoPadding(t);
    SplitTitleRoundTrip(p, q);
  }

  /** An item "A23" posts serialNumber 23. */
  lemma PayloadSerialOfItem(pre: string, n: nat)
    requires forall k :: 0 <= k < |pre| ==> !IsDigit(pre[k])
    ensures IntOrZero(ItemNumberNumeric(pre + NatToString(n))) == n
  {
    ItemNumberAfterLetters(pre, NatToString(n), "");
    assert pre + NatToString(n) + "" == pre + NatToString(n);
    IntOrZeroRoundTrip(n);
  }

  /** What an error entry records: court and case number. */
  function ErrorKey(r: Record): (k: (string, string))
    ensures k.0 == r.court && k.1 == r.caseNumber
  {
    (r.court, r.caseNumber)
  }
}
