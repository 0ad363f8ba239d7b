/** The Allahabad High Court (Prayagraj) display board: a table body whose first row
    is a header and whose other rows each describe one court, either a sitting court
    or one marked "NOT in session". */
module Allahabad {
  import opened Text
  import opened Scan
  import opened Dom
  import Ingest

  const BenchName := "Allahabad(Prayagraj)"
  const NotInSession := "Court NOT in session"

  /** One spreadsheet row (bench and sub-bench are constants and left out). */
  datatype Record = Record(courtNo: string, serialNo: string, list: string, progress: string,
                           caseNo: string, caseDetails: string, importantInfo: string, dateTime: string)

  // ---------------------------------------------------------------------------
  // extract_case_number

  const Label := "Case Details"

  /** A character of the class [A-Z0-9/]. */
  predicate IsCaseChar(c: char) { IsUpper(c) || IsDigit(c) || c == '/' }

  /** End of the [A-Z0-9/] run from i. */
  function CaseCharRunEnd(s: string, i: nat): (e: nat)
    requires i <= |s|
    ensures i <= e <= |s|
    ensures forall k :: i <= k < e ==> IsCaseChar(s[k])
    ensures e == |s| || !IsCaseChar(s[e])
    decreases |s| - i
  {
    if i < |s| && IsCaseChar(s[i]) then CaseCharRunEnd(s, i + 1) else i
  }

  /** `Case Details\s*-\s*([A-Z0-9/]+)` at i. */
  function LabelledAt(s: string, i: nat): (r: Option<string>)
    ensures r.Some? ==> r.value != [] && forall k :: 0 <= k < |r.value| ==> IsCaseChar(r.value[k])
  {
    if OccursAt(s, Label, i) then
      var a := SpaceRunEnd(s, i + 12);
      if a < |s| && s[a] == '-' then
        var b := SpaceRunEnd(s, a + 1);
        var e := CaseCharRunEnd(s, b);
        if e > b then Some(s[b..e]) else None
      else None
    else None
  }

  /** `/\d+/\d+` at u: where the second digit run ends. */
  function SlashNumbersAt(s: string, u: nat): (r: Option<nat>)
    ensures r.Some? ==> u + 3 < r.value + 1 && r.value <= |s| && s[u] == '/'
    ensures r.Some? ==> IsDigit(s[r.value - 1]) && forall k :: u < k < r.value ==> IsDigit(s[k]) || s[k] == '/'
  {
    if u < |s| && s[u] == '/' then
      var n := DigitRunEnd(s, u + 1);
      if n > u + 1 && n < |s| && s[n] == '/' then
        var y := DigitRunEnd(s, n + 1);
        if y > n + 1 then Some(y) else None
      else None
    else None
  }

  /** `([A-Z]+/\d+/\d+)` at i. */
  function TypeNumberYearAt(s: string, i: nat): (r: Option<string>)
    ensures r.Some? ==> r.value != [] && forall k :: 0 <= k < |r.value| ==> IsCaseChar(r.value[k])
  {
    var u := if i < |s| then UpperRunEnd(s, i) else i;
    if i < u then
      match SlashNumbersAt(s, u)
      case Some(y) =>
        assert forall k :: i <= k < y ==> IsCaseChar(s[k]) by {
          forall k | i <= k < y ensures IsCaseChar(s[k]) {
            if k < u {} else {}
          }
        }
        Some(s[i..y])
      case None => None
    else None
  }

  /** The case number in the case details: the [A-Z0-9/] run after "Case Details -",
      else the first LETTERS/digits/digits token, else "". */
  function CaseNumber(details: string): (r: string)
    ensures forall k :: 0 <= k < |r| ==> IsCaseChar(r[k])
    ensures SearchGroup(details, LabelledAt).Some? ==> r == SearchGroup(details, LabelledAt).value
    ensures SearchGroup(details, LabelledAt).None? && SearchGroup(details, TypeNumberYearAt).Some? ==>
              r == SearchGroup(details, TypeNumberYearAt).value
    ensures SearchGroup(details, LabelledAt).None? && SearchGroup(details, TypeNumberYearAt).None? ==> r == []
  {
    match SearchGroup(details, LabelledAt)
    case Some(c) => c
    case None =>
      match SearchGroup(details, TypeNumberYearAt)
      case Some(c) => c
      case None => []
  }

  /** "Case Details - WRIC/18652/2024 ..." gives "WRIC/18652/2024": the whole
      [A-Z0-9/] run after the label. */
  lemma CaseNumberAfterLabel(c: string, rest: string)
    requires c != [] && forall k :: 0 <= k < |c| ==> IsCaseChar(c[k])
    requires rest == [] || !IsCaseChar(rest[0])
    ensures CaseNumber(Label + " - " + c + rest) == c
  {
    var s := Label + " - " + c + rest;
    assert s[..12] == Label;
    assert OccursAt(s, Label, 0);
    assert s[12] == ' ' && s[13] == '-' && s[14] == ' ';
    SpaceRunIs(s, 12, 13);
    assert s[15] == c[0];
    SpaceRunIs(s, 14, 15);
    var e := 15 + |c|;
    assert forall k :: 15 <= k < e ==> s[k] == c[k - 15];
    assert e < |s| ==> s[e] == rest[0];
    CaseCharRunIs(s, 15, e);
    assert s[15..e] == c;
    SearchGroupAt(s, LabelledAt, 0, c);
  }

  /** A run of case characters that the text delimits is the run CaseCharRunEnd finds. */
  lemma CaseCharRunIs(s: string, i: nat, e: nat)
    requires i <= e <= |s|
    requires forall k :: i <= k < e ==> IsCaseChar(s[k])
    requires e == |s| || !IsCaseChar(s[e])
    ensures CaseCharRunEnd(s, i) == e
    decreases e - i
  {
    if i < e {
      CaseCharRunIs(s, i + 1, e);
    }
  }

  /** Without the label, the first LETTERS/digits/digits token is taken, as in
      "Fresh WRIC/18652/2024" or "listed: SPLA/45/2023 (fresh)": the text before the
      token holds neither the label nor a token of its own, and does not end in a
      capital (which would make the letters of the token longer). */
  lemma CaseNumberFallback(pre: string, ty: string, n: string, y: string, rest: string)
    requires !Contains(pre, Label)
    requires forall j :: 0 <= j < |pre| ==> TypeNumberYearAt(pre, j).None?
    requires pre == [] || !IsUpper(pre[|pre| - 1])
    requires ty != [] && forall k :: 0 <= k < |ty| ==> IsUpper(ty[k])
    requires n != [] && AllDigits(n) && y != [] && AllDigits(y)
    requires rest == [] || !IsDigit(rest[0])
    requires !Contains(rest, Label)
    ensures CaseNumber(pre + ty + "/" + n + "/" + y + rest) == ty + "/" + n + "/" + y
  {
    var tok := ty + "/" + n + "/" + y;
    var t := tok + rest;
    assert pre + ty + "/" + n + "/" + y + rest == pre + t;
    TokenAfterPrefix(pre, ty, n, y, rest);
    TokenChars(ty, n, y);
    assert tok[|tok| - 1] == y[|y| - 1] && t[0] == ty[0];
    NoTokenBefore(pre, t);
    FallbackOnParts(pre, tok, rest);
  }

  /** The token written after pre is matched where it starts. */
  lemma TokenAfterPrefix(pre: string, ty: string, n: string, y: string, rest: string)
    requires ty != [] && forall k :: 0 <= k < |ty| ==> IsUpper(ty[k])
    requires n != [] && AllDigits(n) && y != [] && AllDigits(y)
    requires rest == [] || !IsDigit(rest[0])
    ensures TypeNumberYearAt(pre + ((ty + "/" + n + "/" + y) + rest), |pre|) == Some(ty + "/" + n + "/" + y)
  {
    var tok := ty + "/" + n + "/" + y;
    TokenPlaced(pre, tok, rest);
    TokenAt(pre + (tok + rest), |pre|, ty, n, y);
  }

  /** The fallback with the token given whole: found at the end of pre, and no token
      or label elsewhere. */
  lemma FallbackOnParts(pre: string, tok: string, rest: string)
    requires |tok| >= 2 && IsDigit(tok[|tok| - 1]) && forall k :: 0 <= k < |tok| ==> IsCaseChar(tok[k])
    requires TypeNumberYearAt(pre + (tok + rest), |pre|) == Some(tok)
    requires forall j :: 0 <= j < |pre| ==> TypeNumberYearAt(pre + (tok + rest), j).None?
    requires !Contains(pre, Label) && !Contains(rest, Label)
    ensures CaseNumber(pre + (tok + rest)) == tok
  {
    var s := pre + (tok + rest);
    var i := |pre|;
    var z := i + |tok|;
    TokenPlaced(pre, tok, rest);
    SliceChars(s, i, z, tok);
    FallbackAt(s, i, z);
  }

  /** Where the parts of pre + tok + rest sit. */
  lemma TokenPlaced(pre: string, tok: string, rest: string)
    requires tok != []
    ensures (pre + (tok + rest))[..|pre|] == pre
    ensures (pre + (tok + rest))[|pre|..|pre| + |tok|] == tok
    ensures (pre + (tok + rest))[|pre| + |tok|..] == rest
    ensures (pre + (tok + rest))[|pre| + |tok| - 1] == tok[|tok| - 1]
    ensures |pre| + |tok| < |pre + (tok + rest)| ==> (pre + (tok + rest))[|pre| + |tok|] == rest[0]
  {
  }

  /** No token starts in a prefix that has none and does not end in a capital, once
      text starting with a capital follows it. */
  lemma NoTokenBefore(pre: string, t: string)
    requires forall j :: 0 <= j < |pre| ==> TypeNumberYearAt(pre, j).None?
    requires pre == [] || !IsUpper(pre[|pre| - 1])
    requires t != [] && IsUpper(t[0])
    ensures forall j :: 0 <= j < |pre| ==> TypeNumberYearAt(pre + t, j).None?
  {
    forall j | 0 <= j < |pre| ensures TypeNumberYearAt(pre + t, j).None? {
      NoTokenAcross(pre, t, j);
    }
  }

  /** A LETTERS/digits/digits token at i with no token before it, and no label before
      or after it, is the case number. */
  lemma FallbackAt(s: string, i: nat, z: nat)
    requires i + 1 < z <= |s| && TypeNumberYearAt(s, i) == Some(s[i..z])
    requires forall j :: 0 <= j < i ==> TypeNumberYearAt(s, j).None?
    requires forall k :: i <= k < z ==> IsCaseChar(s[k])
    requires IsDigit(s[z - 1]) && !Contains(s[..i], Label) && !Contains(s[z..], Label)
    ensures CaseNumber(s) == s[i..z]
  {
    SearchGroupAt(s, TypeNumberYearAt, i, s[i..z]);
    forall j | 0 <= j <= |s| ensures LabelledAt(s, j).None? {
      NoLabelAt(s, j, i, z);
    }
    SearchGroupNone(s, LabelledAt);
  }

  /** Appending text that starts with a capital cannot complete a token that starts in
      a prefix lacking one, when the prefix does not end in a capital: every run the
      token pattern reads stops inside the prefix, or at its end, where '/' and a digit
      are both missing. */
  lemma NoTokenAcross(p: string, t: string, j: nat)
    requires j < |p| && !IsUpper(p[|p| - 1])
    requires t != [] && IsUpper(t[0])
    requires TypeNumberYearAt(p, j).None?
    ensures TypeNumberYearAt(p + t, j).None?
  {
    var s := p + t;
    UpperRunStable(p, t, j);
    var u := UpperRunEnd(p, j);
    SlashNumbersStable(p, t, u);
  }

  /** `/\d+/\d+` read from inside a prefix reads the same once text starting with
      neither a digit nor '/' is appended. */
  lemma SlashNumbersStable(p: string, t: string, u: nat)
    requires u < |p| && t != [] && !IsDigit(t[0]) && t[0] != '/'
    ensures SlashNumbersAt(p + t, u) == SlashNumbersAt(p, u)
  {
    var s := p + t;
    assert s[u] == p[u];
    if p[u] == '/' {
      DigitRunStable(p, t, u + 1);
      var n := DigitRunEnd(p, u + 1);
      if n < |p| {
        assert s[n] == p[n];
        if p[n] == '/' {
          DigitRunStable(p, t, n + 1);
        }
      } else {
        assert s[n] == t[0];
      }
    }
  }

  /** The run of capitals from a position of a prefix that does not end in a capital
      stops inside the prefix, wherever text is appended. */
  lemma UpperRunStable(p: string, t: string, a: nat)
    requires a < |p| && !IsUpper(p[|p| - 1])
    ensures UpperRunEnd(p, a) < |p|
    ensures UpperRunEnd(p + t, a) == UpperRunEnd(p, a)
  {
    var s := p + t;
    var e := UpperRunEnd(p, a);
    assert e < |p|;
    assert forall k :: a <= k < e ==> s[k] == p[k];
    assert s[e] == p[e];
    UpperRunIs(s, a, e);
  }

  /** Every character of a LETTERS/digits/digits token is a case character. */
  lemma TokenChars(ty: string, n: string, y: string)
    requires forall j :: 0 <= j < |ty| ==> IsUpper(ty[j])
    requires AllDigits(n) && AllDigits(y)
    ensures forall k :: 0 <= k < |ty + "/" + n + "/" + y| ==> IsCaseChar((ty + "/" + n + "/" + y)[k])
  {
  }

  /** A slice made of case characters. */
  lemma SliceChars(s: string, i: nat, z: nat, tok: string)
    requires i <= z <= |s| && s[i..z] == tok
    requires forall k :: 0 <= k < |tok| ==> IsCaseChar(tok[k])
    ensures forall k :: i <= k < z ==> IsCaseChar(s[k])
  {
    forall k | i <= k < z ensures IsCaseChar(s[k]) {
      assert s[k] == tok[k - i];
    }
  }

  /** The token sits at i of s, followed by the end or a non-digit. */
  lemma TokenAt(s: string, i: nat, ty: string, n: string, y: string)
    requires ty != [] && forall k :: 0 <= k < |ty| ==> IsUpper(ty[k])
    requires n != [] && AllDigits(n) && y != [] && AllDigits(y)
    requires i + |ty + "/" + n + "/" + y| <= |s| && s[i..i + |ty + "/" + n + "/" + y|] == ty + "/" + n + "/" + y
    requires i + |ty + "/" + n + "/" + y| == |s| || !IsDigit(s[i + |ty + "/" + n + "/" + y|])
    ensures TypeNumberYearAt(s, i) == Some(ty + "/" + n + "/" + y)
  {
    var u := i + |ty|;
    var m := u + 1 + |n|;
    var z := m + 1 + |y|;
    TokenLayout(s, i, ty, n, y, u, m, z);
    UpperRunIs(s, i, u);
    DigitRunIs(s, u + 1, m);
    DigitRunIs(s, m + 1, z);
    TokenShapeAt(s, i, u, m, z);
  }

  /** The characters of "TY/N/Y" written at i of s, class by class. */
  lemma TokenLayout(s: string, i: nat, ty: string, n: string, y: string, u: nat, m: nat, z: nat)
    requires forall k :: 0 <= k < |ty| ==> IsUpper(ty[k])
    requires AllDigits(n) && AllDigits(y)
    requires u == i + |ty| && m == u + 1 + |n| && z == m + 1 + |y|
    requires z <= |s| && s[i..z] == ty + "/" + n + "/" + y
    ensures forall k :: i <= k < u ==> IsUpper(s[k])
    ensures s[u] == '/' && s[m] == '/'
    ensures forall k :: u + 1 <= k < m ==> IsDigit(s[k])
    ensures forall k :: m + 1 <= k < z ==> IsDigit(s[k])
  {
    var tok := ty + "/" + n + "/" + y;
    assert forall k :: i <= k < z ==> s[k] == tok[k - i];
    assert forall k :: i <= k < u ==> s[k] == ty[k - i];
    assert forall k :: u + 1 <= k < m ==> s[k] == n[k - u - 1];
    assert forall k :: m + 1 <= k < z ==> s[k] == y[k - m - 1];
  }

  /** LETTERS from i to u, '/', digits to m, '/', digits to z: the token s[i..z]. */
  lemma TokenShapeAt(s: string, i: nat, u: nat, m: nat, z: nat)
    requires i < u && u + 1 < m && m + 1 < z <= |s|
    requires UpperRunEnd(s, i) == u && s[u] == '/'
    requires DigitRunEnd(s, u + 1) == m && s[m] == '/'
    requires DigitRunEnd(s, m + 1) == z
    ensures TypeNumberYearAt(s, i) == Some(s[i..z])
  {
  }

  /** The label cannot end inside the token (the token has no lower-case letter and
      the label's only capitals, at 0 and 5, are followed by lower-case ones), nor
      start inside it; so it lies wholly before the token or wholly after it, where
      neither part holds it. */
  lemma NoLabelAt(s: string, j: nat, i: nat, z: nat)
    requires i + 1 < z <= |s| && !Contains(s[..i], Label) && !Contains(s[z..], Label)
    requires forall k :: i <= k < z ==> IsCaseChar(s[k])
    requires IsDigit(s[z - 1])
    ensures LabelledAt(s, j).None?
  {
    LabelLetters();
    if j + 12 <= i {
      var h := s[..i];
      assert h[j..j + 12] == s[j..j + 12];
      assert !OccursAt(h, Label, j);
    } else if j < i {
      if i - j == 5 {
        Differs(s, Label, j, 6);
      } else {
        Differs(s, Label, j, i - j);
      }
    } else if j + 1 < z {
      Differs(s, Label, j, 1);
    } else if j < z {
      Differs(s, Label, j, 0);
    } else if j + 12 <= |s| {
      var t := s[z..];
      assert s[j..j + 12] == t[j - z..j - z + 12];
      assert !OccursAt(t, Label, j - z);
    }
  }

  /** The letters of the label that tell it apart from case characters. */
  lemma LabelLetters()
    ensures |Label| == 12 && Label[0] == 'C' && Label[1] == 'a' && Label[6] == 'e'
    ensures forall k :: 1 <= k < 12 && k != 5 ==> !IsCaseChar(Label[k])
  {
  }

  /** One character that differs rules an occurrence out. */
  lemma Differs(s: string, p: string, j: nat, k: nat)
    requires k < |p| && j + k < |s| && s[j + k] != p[k]
    ensures !OccursAt(s, p, j)
  {
    if j + |p| <= |s| {
      assert s[j..j + |p|][k] == s[j + k];
    }
  }

  /** The run of upper-case letters from i ends at e when the text delimits it. */
  lemma UpperRunIs(s: string, i: nat, e: nat)
    requires i <= e <= |s|
    requires forall k :: i <= k < e ==> IsUpper(s[k])
    requires e == |s| || !IsUpper(s[e])
    ensures UpperRunEnd(s, i) == e
    decreases e - i
  {
    if i < e {
      UpperRunIs(s, i + 1, e);
    }
  }

  // ---------------------------------------------------------------------------
  // The row loop

  /** A row whose second cell says the court is not sitting; the longer text is
      checked first, as the scraper does. */
  predicate SaysNotInSession(text: string) {
    Contains(text, NotInSession) || Contains(text, "NOT in session")
  }

  /** The record of a data row: none for fewer than five cells; a not-in-session
      record when cell 1 says so; otherwise cells 0-4 (and 5 when present). */
  function RowRecords(cells: seq<Cell>, time: string): (r: seq<Record>)
    ensures |r| == 1 <==> |cells| >= 5
    ensures |r| <= 1
  {
    if |cells| < 5 then []
    else
      var courtNo := CellText(cells[0]);
      var cellText := CellText(cells[1]);
      if SaysNotInSession(cellText) then
        var info := if |cells| > 5 then CellText(cells[|cells| - 1]) else "";
        [Record(courtNo, "", "", NotInSession, "", NotInSession, info, time)]
      else
        var details := CellText(cells[4]);
        var info := if |cells| > 5 then CellText(cells[5]) else "";
        [Record(courtNo, cellText, CellText(cells[2]), CellText(cells[3]), CaseNumber(details), details, info, time)]
  }

  function Decoder(time: string): Row -> seq<Record> {
    (row: Row) => RowRecords(row.td, time)
  }

  /** The records of the table body: every row after the first, in order. */
  function Scrape(rows: seq<Row>, time: string): seq<Record> {
    if rows == [] then [] else FlatMap(rows[1..], Decoder(time))
  }

  /** The body of the row loop. */
  method DecodeRow(cells: seq<Cell>, time: string) returns (recs: seq<Record>)
    ensures recs == RowRecords(cells, time)
  {
    recs := [];
    if |cells| < 5 {
      return;
    }
    var courtNo := CellText(cells[0]);
    var cellText := CellText(cells[1]);
    if Contains(cellText, NotInSession) || Contains(cellText, "NOT in session") {
      var info := if |cells| > 5 then CellText(cells[|cells| - 1]) else "";
      recs := [Record(courtNo, "", "", NotInSession, "", NotInSession, info, time)];
      return;
    }
    var serialNo := CellText(cells[1]);
    var listName := CellText(cells[2]);
    var progress := CellText(cells[3]);
    var details := CellText(cells[4]);
    var info := if |cells| > 5 then CellText(cells[5]) else "";
    var caseNo := CaseNumber(details);
    recs := [Record(courtNo, serialNo, listName, progress, caseNo, details, info, time)];
  }

  /** The `for row in rows[1:]` loop. */
  method ScrapeDisplayBoard(rows: seq<Row>, time: string) returns (recs: seq<Record>)
    ensures recs == Scrape(rows, time)
  {
    recs := [];
    if rows == [] {
      return;
    }
    var body := rows[1..];
    for i := 0 to |body|
      invariant recs == FlatMap(body[..i], Decoder(time))
    {
      var r := DecodeRow(body[i].td, time);
      FlatMapSnoc(body, i, Decoder(time));
      recs := recs + r;
    }
    assert body[..|body|] == body;
  }

  // ---------------------------------------------------------------------------
  // What the records say

  /** A row with at least five cells. */
  predicate LongRow(row: Row) { |row.td| >= 5 }

  /** One record for each row after the header that has at least five cells. */
  lemma RecordCount(rows: seq<Row>, time: string)
    requires rows != []
    ensures |Scrape(rows, time)| == CountWhere(rows[1..], LongRow)
  {
    FlatMapCount(rows[1..], Decoder(time), LongRow);
  }

  /** The shorter test decides: "Court NOT in session" contains "NOT in session". */
  lemma NotInSessionTest(text: string)
    ensures SaysNotInSession(text) <==> Contains(text, "NOT in session")
  {
    if Contains(text, NotInSession) {
      var i :| 0 <= i <= |text| - |NotInSession| && OccursAt(text, NotInSession, i);
      var w := text[i..i + 20];
      assert w == NotInSession;
      assert text[i + 6..i + 20] == w[6..];
      assert OccursAt(text, "NOT in session", i + 6);
    }
  }

  /** A not-in-session row keeps only the court and the last cell (when there are
      more than five), with fixed progress and case details and no case number. */
  lemma NotInSessionRecord(cells: seq<Cell>, time: string)
    requires |cells| >= 5 && SaysNotInSession(CellText(cells[1]))
    ensures var r := RowRecords(cells, time)[0];
            r.courtNo == CellText(cells[0]) && r.serialNo == "" && r.list == "" && r.caseNo == ""
            && r.progress == NotInSession && r.caseDetails == NotInSession
            && r.importantInfo == (if |cells| > 5 then CellText(cells[|cells| - 1]) else "")
  {
  }

  /** A sitting court's row gives cells 0-4 in order, the case number read from the
      case details, and cell 5 as important information when present. */
  lemma RegularRecord(cells: seq<Cell>, time: string)
    requires |cells| >= 5 && !SaysNotInSession(CellText(cells[1]))
    ensures var r := RowRecords(cells, time)[0];
            r.courtNo == CellText(cells[0]) && r.serialNo == CellText(cells[1]) && r.list == CellText(cells[2])
            && r.progress == CellText(cells[3]) && r.caseDetails == CellText(cells[4])
            && r.caseNo == CaseNumber(CellText(cells[4]))
            && r.importantInfo == (if |cells| > 5 then CellText(cells[5]) else "")
  {
  }

  // ---------------------------------------------------------------------------
  // post_court_data_to_api

  /** The body posted: serialNumber int(Serial No) or 0, the progress as the stage,
      listNumber always 0. */
  function ToPayload(r: Record): (p: Ingest.Payload)
    ensures p.serialNumber == IntOrZero(r.serialNo) && p.listNumber == Some(0)
    ensures p.benchName == BenchName && p.courtHallNumber == r.courtNo && p.caseNumber == r.caseNo
    ensures p.note == r.progress
  {
    Ingest.Payload(BenchName, r.courtNo, r.caseNo, IntOrZero(r.serialNo), r.progress, Some(0))
  }

  /** A court not in session posts serial number 0 and an empty case number. */
  lemma NotInSessionPayload(cells: seq<Cell>, time: string)
    requires |cells| >= 5 && SaysNotInSession(CellText(cells[1]))
    ensures var p := ToPayload(RowRecords(cells, time)[0]);
            p.serialNumber == 0 && p.caseNumber == "" && p.note == NotInSession
  {
    assert IntOrZero("") == 0;
  }

  /** What an error entry records: court and case number. */
  function ErrorKey(r: Record): (k: (string, string))
    ensures k.0 == r.courtNo && k.1 == r.caseNo
  {
    (r.courtNo, r.caseNo)
  }
}
