/** The Chhattisgarh High Court (Bilaspur) display board posted to the ingestion API.
    A court's first row carries the court in a cell spanning several rows; the rows
    below it omit that cell, so the decoder carries the court forward. */
module Chhattisgarh {
  import opened Text
  import opened Scan
  import opened Dom
  import Ingest

  const BenchName := "Bilaspur"

  datatype Record = Record(court: string, listType: string, round: string, sno: string,
                           caseNumber: string, caseType: string, caseYear: string,
                           fullCase: string, purpose: string, dateTime: string)

  // ---------------------------------------------------------------------------
  // parse_case_details

  /** End of the case type at the start of s: `[A-Z]+(?:\([A-Z]+\))?`, 0 when s does
      not start with an upper-case letter. */
  function CaseTypeEnd(s: string): (t: nat)
    ensures t <= |s|
    ensures t > 0 ==> IsUpper(s[0])
  {
    var u := UpperRunEnd(s, 0);
    if u > 0 && u < |s| && s[u] == '(' then
      var v := UpperRunEnd(s, u + 1);
      if v > u + 1 && v < |s| && s[v] == ')' then v + 1 else u
    else u
  }

  // `([A-Z]+(?:\([A-Z]+\))?)\s*/\s*(\d+)\s*/\s*(\d{4})` matched at the start of s:
  // (number, type, year).
  function TypedCaseAtStart(s: string): (r: Option<(string, string, string)>)
    ensures r.Some? ==> r.value.0 != [] && AllDigits(r.value.0)
    ensures r.Some? ==> |r.value.2| == 4 && AllDigits(r.value.2)
    ensures r.Some? ==> r.value.1 != [] && IsUpper(r.value.1[0])
  {
    var t := CaseTypeEnd(s);
    if t == 0 then None
    else
      match SlashAfter(s, t)
      case None => None
      case Some(i) =>
        var b := SpaceRunEnd(s, i);
        var e := DigitRunEnd(s, b);
        if e == b then None
        else
          match SlashAfter(s, e)
          case None => None
          case Some(j) =>
            match YearAt(s, j)
            case None => None
            case Some(y) => Some((s[b..e], s[..t], y))
  }

  // `\s*/` at i: the position after the slash.
  function SlashAfter(s: string, i: nat): (r: Option<nat>)
    requires i <= |s|
    ensures r.Some? ==> i < r.value <= |s| && s[r.value - 1] == '/'
  {
    var a := SpaceRunEnd(s, i);
    if a < |s| && s[a] == '/' then Some(a + 1) else None
  }

  // `\s*(\d{4})` at j: the four digits.
  function YearAt(s: string, j: nat): (r: Option<string>)
    requires j <= |s|
    ensures r.Some? ==> |r.value| == 4 && AllDigits(r.value)
  {
    var g := SpaceRunEnd(s, j);
    if g + 4 <= |s| && AllDigits(s[g..g + 4]) then Some(s[g..g + 4]) else None
  }

  /** (case number, case type, case year) of a case string: the typed form
      "FA(MAT) / 448 / 2025" in full; otherwise only a number between slashes; all
      empty when neither is there. */
  function ParseCaseDetails(caseStr: string): (r: (string, string, string))
    ensures AllSpace(caseStr) ==> r == ("", "", "")
    ensures r.0 == [] || AllDigits(r.0)
    ensures r.2 == [] || (|r.2| == 4 && AllDigits(r.2))
    ensures r.1 != [] ==> r.0 != [] && r.2 != []
  {
    if AllSpace(caseStr) then ("", "", "")
    else
      var s := Strip(caseStr);
      match TypedCaseAtStart(s)
      case Some(m) => m
      case None =>
        SearchCapturesDigits(s, SpacedSlashDigitsSlashAt);
        match SearchGroup(s, SpacedSlashDigitsSlashAt)
        case Some(g) => (g, "", "")
        case None => ("", "", "")
  }

  /** A case type as the pattern accepts it: capitals, optionally followed by capitals
      in parentheses. */
  predicate CaseType(ty: string, u: string, p: string) {
    u != [] && (forall k :: 0 <= k < |u| ==> IsUpper(u[k]))
    && (forall k :: 0 <= k < |p| ==> IsUpper(p[k]))
    && ty == (if p == [] then u else u + "(" + p + ")")
  }

  lemma CaseTypeEndOf(s: string, ty: string, u: string, p: string)
    requires CaseType(ty, u, p)
    requires |s| > |ty| && s[..|ty|] == ty && !IsUpper(s[|ty|]) && s[|ty|] != '('
    ensures CaseTypeEnd(s) == |ty|
  {
    assert forall k :: 0 <= k < |u| ==> s[k] == u[k];
    if p == [] {
    } else {
      assert s[|u|] == '(';
      assert forall k :: |u| < k <= |u| + |p| ==> s[k] == p[k - |u| - 1];
      assert s[|u| + 1 + |p|] == ')';
    }
  }

  /** Where the parts of "TYPE / NUM / YYYY..." sit. */
  lemma TypedCaseLayout(s: string, ty: string, num: string, year: string, rest: string, t: nat, e: nat)
    requires s == ty + " / " + num + " / " + year + rest && |year| == 4
    requires t == |ty| && e == t + 3 + |num|
    ensures |s| == e + 7 + |rest|
    ensures s[..t] == ty
    ensures s[t] == ' ' && s[t + 1] == '/' && s[t + 2] == ' '
    ensures s[t + 3..e] == num
    ensures s[e] == ' ' && s[e + 1] == '/' && s[e + 2] == ' '
    ensures s[e + 3..e + 7] == year
    ensures s[|s| - 1] == (if rest != [] then rest[|rest| - 1] else year[3])
  {
  }

  /** " / " at a, followed by a non-blank: the slash is found and the blank after it
      is a run of one. */
  lemma SlashGapAt(s: string, a: nat)
    requires a + 3 < |s| && s[a] == ' ' && s[a + 1] == '/' && s[a + 2] == ' ' && !IsSpace(s[a + 3])
    ensures SlashAfter(s, a) == Some(a + 2) && SpaceRunEnd(s, a + 2) == a + 3
  {
    SpaceRunIs(s, a, a + 1);
    SpaceRunIs(s, a + 2, a + 3);
  }

  /** ... and the pattern reads the parts back. */
  lemma TypedCaseMatches(s: string, t: nat, e: nat)
    requires CaseTypeEnd(s) == t && t > 0
    requires t + 3 < e && e + 7 <= |s|
    requires s[t] == ' ' && s[t + 1] == '/' && s[t + 2] == ' '
    requires forall k :: t + 3 <= k < e ==> IsDigit(s[k])
    requires s[e] == ' ' && s[e + 1] == '/' && s[e + 2] == ' '
    requires AllDigits(s[e + 3..e + 7])
    ensures TypedCaseAtStart(s) == Some((s[t + 3..e], s[..t], s[e + 3..e + 7]))
  {
    TypedCaseNumber(s, t, e);
    TypedCaseYear(s, e);
    TypedCaseAtEnds(s, t, t + 2, t + 3, e, e + 2, s[e + 3..e + 7]);
  }

  /** " / " at t and digits up to e: the number runs from t + 3 to e. */
  lemma TypedCaseNumber(s: string, t: nat, e: nat)
    requires t + 3 < e <= |s|
    requires s[t] == ' ' && s[t + 1] == '/' && s[t + 2] == ' '
    requires forall k :: t + 3 <= k < e ==> IsDigit(s[k])
    requires e == |s| || !IsDigit(s[e])
    ensures SlashAfter(s, t) == Some(t + 2) && SpaceRunEnd(s, t + 2) == t + 3
    ensures DigitRunEnd(s, t + 3) == e
  {
    SlashGapAt(s, t);
    DigitRunIs(s, t + 3, e);
  }

  /** " / " at e and four digits after it: the year. */
  lemma TypedCaseYear(s: string, e: nat)
    requires e + 7 <= |s|
    requires s[e] == ' ' && s[e + 1] == '/' && s[e + 2] == ' '
    requires AllDigits(s[e + 3..e + 7])
    ensures SlashAfter(s, e) == Some(e + 2) && YearAt(s, e + 2) == Some(s[e + 3..e + 7])
  {
    assert IsDigit(s[e + 3]) by { assert s[e + 3] == s[e + 3..e + 7][0]; }
    SlashGapAt(s, e);
    YearAtIs(s, e + 2, e + 3, e + 7);
  }

  /** The pattern read off from where each of its parts ends. */
  lemma TypedCaseAtEnds(s: string, t: nat, i: nat, b: nat, e: nat, j: nat, y: string)
    requires CaseTypeEnd(s) == t && t > 0
    requires SlashAfter(s, t) == Some(i)
    requires SpaceRunEnd(s, i) == b && DigitRunEnd(s, b) == e && e > b
    requires SlashAfter(s, e) == Some(j) && YearAt(s, j) == Some(y)
    ensures TypedCaseAtStart(s) == Some((s[b..e], s[..t], y))
  {
  }

  lemma YearAtIs(s: string, j: nat, g: nat, h: nat)
    requires j <= |s| && SpaceRunEnd(s, j) == g && h == g + 4 && h <= |s| && AllDigits(s[g..h])
    ensures YearAt(s, j) == Some(s[g..h])
  {
  }

  /** "FA(MAT) / 448 / 2025" gives ("448", "FA(MAT)", "2025"). */
  lemma ParseTypedCase(ty: string, u: string, p: string, num: string, year: string, rest: string)
    requires CaseType(ty, u, p)
    requires num != [] && AllDigits(num) && |year| == 4 && AllDigits(year)
    requires rest == [] || !IsSpace(rest[|rest| - 1])
    ensures ParseCaseDetails(ty + " / " + num + " / " + year + rest) == (num, ty, year)
  {
    var s := ty + " / " + num + " / " + year + rest;
    var t, e := |ty|, |ty| + 3 + |num|;
    TypedCaseLayout(s, ty, num, year, rest, t, e);
    assert !IsSpace(s[|s| - 1]) by {
      if rest == [] { assert IsDigit(year[3]); }
    }
    ParseTypedLaidOut(s, ty, u, p, num, year, t, e);
  }

  lemma ParseTypedLaidOut(s: string, ty: string, u: string, p: string, num: string, year: string, t: nat, e: nat)
    requires CaseType(ty, u, p)
    requires num != [] && AllDigits(num) && |year| == 4 && AllDigits(year)
    requires t == |ty| && e == t + 3 + |num| && e + 7 <= |s|
    requires s[..t] == ty && s[t + 3..e] == num && s[e + 3..e + 7] == year
    requires s[t] == ' ' && s[t + 1] == '/' && s[t + 2] == ' '
    requires s[e] == ' ' && s[e + 1] == '/' && s[e + 2] == ' '
    requires !IsSpace(s[|s| - 1])
    ensures ParseCaseDetails(s) == (num, ty, year)
  {
    assert s[0] == u[0] by { assert s[0] == s[..t][0]; }
    StripNoPadding(s);
    assert !AllSpace(s) by { assert !IsSpace(s[0]); }
    CaseTypeEndOf(s, ty, u, p);
    SliceDigits(s, t + 3, e, num);
    TypedCaseMatches(s, t, e);
    TypedCaseParsed(s);
  }

  /** A slice of digits holds digits at every index it covers. */
  lemma SliceDigits(s: string, i: nat, j: nat, d: string)
    requires i <= j <= |s| && s[i..j] == d && AllDigits(d)
    ensures forall k :: i <= k < j ==> IsDigit(s[k])
  {
    assert forall k :: i <= k < j ==> s[k] == d[k - i];
  }

  /** A stripped case string starting with the typed form parses to its parts. */
  lemma TypedCaseParsed(s: string)
    requires !AllSpace(s) && Strip(s) == s && TypedCaseAtStart(s).Some?
    ensures ParseCaseDetails(s) == TypedCaseAtStart(s).value
  {
  }

  /** A case string not starting with a case type falls back to the number between
      slashes: "crmp/3873/2025" gives ("3873", "", ""). */
  lemma ParseUntypedCase(pre: string, num: string, post: string)
    requires '/' !in pre && (pre == [] || !IsUpper(pre[0]))
    requires num != [] && AllDigits(num)
    requires Strip(pre + "/" + num + "/" + post) == pre + "/" + num + "/" + post
    ensures ParseCaseDetails(pre + "/" + num + "/" + post) == (num, "", "")
  {
    var s := pre + "/" + num + "/" + post;
    var k := |pre|;
    var e := k + 1 + |num|;
    SlashNumberLayout(s, pre, [], num, [], post, k, k + 1, e, e);
    assert !AllSpace(s) by { assert s[k + 1] == num[0]; }
    assert CaseTypeEnd(s) == 0 by {
      if pre == [] { assert s[0] == '/'; } else { assert s[0] == pre[0]; }
    }
    SliceDigits(s, k + 1, e, num);
    SlashNumberFound(s, k, k + 1, e, e, num);
  }

  // ---------------------------------------------------------------------------
  // extract_case_number_from_purpose

  /** The case number in a Purpose text: the number between slashes, else the first
      standalone number, else "". */
  function CaseNumberFromPurpose(purpose: string): (r: string)
    ensures AllSpace(purpose) ==> r == []
    ensures r == [] || AllDigits(r)
    ensures (forall k :: 0 <= k < |purpose| ==> !IsDigit(purpose[k])) ==> r == []
  {
    if AllSpace(purpose) then []
    else
      SearchCapturesDigits(purpose, SpacedSlashDigitsSlashAt);
      SearchCapturesDigits(purpose, StandaloneAt);
      if (forall k :: 0 <= k < |purpose| ==> !IsDigit(purpose[k])) then
        NoDigitsNoMatch(purpose, SpacedSlashDigitsSlashAt);
        NoDigitsNoMatch(purpose, StandaloneAt);
        []
      else
        match SearchGroup(purpose, SpacedSlashDigitsSlashAt)
        case Some(g) => g
        case None =>
          match SearchGroup(purpose, StandaloneAt)
          case Some(g) => g
          case None => []
  }

  /** Where the parts of "PRE/ NUM /POST" sit. */
  lemma SlashNumberLayout(s: string, pre: string, sp1: string, num: string, sp2: string, post: string,
                           k: nat, a: nat, e: nat, f: nat)
    requires s == pre + "/" + sp1 + num + sp2 + "/" + post
    requires k == |pre| && a == k + 1 + |sp1| && e == a + |num| && f == e + |sp2|
    ensures |s| == f + 1 + |post|
    ensures forall j :: 0 <= j < k ==> s[j] == pre[j]
    ensures s[k] == '/' && s[f] == '/'
    ensures s[k + 1..a] == sp1 && s[a..e] == num && s[e..f] == sp2
  {
  }

  // A slash at k, blanks up to a, digits up to e, blanks up to f and a slash at f,
  // with no slash before k, are the first match of `/\s*(\d+)\s*/`.
  lemma SlashNumberFound(s: string, k: nat, a: nat, e: nat, f: nat, num: string)
    requires k < a < e <= f < |s|
    requires forall j :: 0 <= j < k ==> s[j] != '/'
    requires s[k] == '/' && s[f] == '/'
    requires forall j :: k + 1 <= j < a ==> IsSpace(s[j])
    requires forall j :: a <= j < e ==> IsDigit(s[j])
    requires forall j :: e <= j < f ==> IsSpace(s[j])
    requires s[a..e] == num
    ensures SearchGroup(s, SpacedSlashDigitsSlashAt) == Some(num)
  {
    SpaceRunIs(s, k + 1, a);
    DigitRunIs(s, a, e);
    SpaceRunIs(s, e, f);
    SearchGroupAt(s, SpacedSlashDigitsSlashAt, k, num);
  }

  /** A slice of blanks holds blanks at every index it covers. */
  lemma SliceSpaces(s: string, i: nat, j: nat, b: string)
    requires i <= j <= |s| && s[i..j] == b && AllSpace(b)
    ensures forall k :: i <= k < j ==> IsSpace(s[k])
  {
    assert forall k :: i <= k < j ==> s[k] == b[k - i];
  }

  /** "CRMP / 3087 / 2025" gives "3087": blanks around the number are allowed. */
  lemma PurposeNumberBetweenSlashes(pre: string, sp1: string, num: string, sp2: string, post: string)
    requires '/' !in pre && AllSpace(sp1) && AllSpace(sp2)
    requires num != [] && AllDigits(num)
    ensures CaseNumberFromPurpose(pre + "/" + sp1 + num + sp2 + "/" + post) == num
  {
    var s := pre + "/" + sp1 + num + sp2 + "/" + post;
    var k := |pre|;
    var a := k + 1 + |sp1|;
    var e := a + |num|;
    var f := e + |sp2|;
    SlashNumberLayout(s, pre, sp1, num, sp2, post, k, a, e, f);
    assert s[a] == num[0];
    assert !AllSpace(s);
    assert !(forall j :: 0 <= j < |s| ==> !IsDigit(s[j]));
    SliceSpaces(s, k + 1, a, sp1);
    SliceDigits(s, a, e, num);
    SliceSpaces(s, e, f, sp2);
    SlashNumberFound(s, k, a, e, f, num);
  }

  /** "CRMP 3087 OF 2025": with no number between slashes anywhere, the case number
      is the first standalone number of the text. */
  lemma PurposeFallback(s: string, k: nat, e: nat)
    requires forall j :: 0 <= j <= |s| ==> SpacedSlashDigitsSlashAt(s, j).None?
    requires FirstStandaloneRun(s, k, e)
    ensures CaseNumberFromPurpose(s) == s[k..e]
  {
    assert !AllSpace(s) by { assert IsDigit(s[k]); }
    SearchGroupNone(s, SpacedSlashDigitsSlashAt);
    FirstStandaloneFound(s, k, e);
  }

  // ---------------------------------------------------------------------------
  // serialNumber and listNumber

  /** serialNumber from Full Case: with a '-', int() of the text before the first
      '-' ("8 - 9" gives 8); otherwise the first standalone number; 0 when nothing
      reads as a number. */
  function SerialNumber(fullCase: string): (n: int)
    ensures n >= 0
    ensures '-' !in fullCase && (forall k :: 0 <= k < |fullCase| ==> !IsDigit(fullCase[k])) ==> n == 0
  {
    if '-' in fullCase then
      var head := Strip(BeforeFirst(fullCase, '-'));
      match PyInt(head)
      case Some(v) =>
        assert head != [] && head[0] != '-';
        v
      case None => 0
    else
      SearchCapturesDigits(fullCase, StandaloneAt);
      if (forall k :: 0 <= k < |fullCase| ==> !IsDigit(fullCase[k])) then
        NoDigitsNoMatch(fullCase, StandaloneAt);
        0
      else
        match SearchGroup(fullCase, StandaloneAt)
        case Some(g) => Value(g)
        case None => 0
  }

  /** A serial range "8 - 9" is read as its first number. */
  lemma SerialNumberOfRange(d: string, post: string)
    requires d != [] && AllDigits(d)
    ensures SerialNumber(d + " - " + post) == Value(d)
  {
    var s := d + " - " + post;
    assert s == (d + " ") + ['-'] + (" " + post);
    assert '-' !in d + " ";
    BeforeFirstOf(d + " ", '-', " " + post);
    assert s[|d| + 1] == '-';
    StripPadded([], d, " ");
    assert [] + d + " " == d + " ";
    PyIntOfNumeral(d);
  }

  /** Without a '-', the serial number is the value of the first standalone number:
      "Item 12" gives 12. */
  lemma SerialNumberFallback(s: string, k: nat, e: nat)
    requires '-' !in s
    requires FirstStandaloneRun(s, k, e)
    ensures SerialNumber(s) == Value(s[k..e])
  {
    assert IsDigit(s[k]);
    FirstStandaloneFound(s, k, e);
  }

  /** listNumber: int(List Type), 0 when it is empty or not a number. */
  function ListNumber(listType: string): (n: int)
    ensures PyInt(listType).Some? ==> n == PyInt(listType).value
    ensures PyInt(listType).None? ==> n == 0
  {
    IntOrZero(listType)
  }

  function ToPayload(r: Record): (p: Ingest.Payload)
    ensures p.caseNumber == CaseNumberFromPurpose(r.purpose)
    ensures p.serialNumber == SerialNumber(r.fullCase) && p.listNumber == Some(ListNumber(r.listType))
    ensures p.benchName == BenchName && p.courtHallNumber == r.court && p.note == r.purpose
  {
    Ingest.Payload(BenchName, r.court, CaseNumberFromPurpose(r.purpose), SerialNumber(r.fullCase), r.purpose, Some(ListNumber(r.listType)))
  }

  function ErrorKey(r: Record): (k: (string, string))
    ensures k == (r.court, r.purpose)
  {
    (r.court, r.purpose)
  }

  // ---------------------------------------------------------------------------
  // The row loop with the carried court

  /** A row whose first cell starts a new court: its rowspan reads as more than 1. */
  predicate StartsCourt(cells: seq<Cell>)
    requires |cells| > 0
  {
    cells[0].rowspan != [] && PyInt(cells[0].rowspan).Some? && PyInt(cells[0].rowspan).value > 1
  }

  /** A row the loop decodes: at least five cells, and a rowspan int() can read. */
  predicate Decodable(cells: seq<Cell>) {
    |cells| >= 5 && (cells[0].rowspan == [] || PyInt(cells[0].rowspan).Some?)
  }

  function TextAt(cells: seq<Cell>, i: nat): string {
    if i < |cells| then cells[i].text else ""
  }

  /** The record a decodable row gives under the carried court, and the court carried
      on from it. */
  function RowStep(cells: seq<Cell>, court: string, time: string): (r: (Option<Record>, string))
    ensures r.0.Some? <==> Decodable(cells)
    ensures !Decodable(cells) ==> r.1 == court
    ensures Decodable(cells) && StartsCourt(cells) ==> r.1 == cells[0].text
    ensures Decodable(cells) && !StartsCourt(cells) ==> r.1 == court
    ensures r.0.Some? ==> r.0.value.court == r.1
  {
    if !Decodable(cells) then (None, court)
    else
      var c := if StartsCourt(cells) then cells[0].text else court;
      var o := if StartsCourt(cells) then 1 else 0;
      (Some(RecordAt(cells, o, c, time)), c)
  }

  /** The record read from the five cells from o on, under court c. */
  function RecordAt(cells: seq<Cell>, o: nat, c: string, time: string): (r: Record)
    ensures r.court == c && r.listType == TextAt(cells, o) && r.round == TextAt(cells, o + 1)
    ensures r.sno == TextAt(cells, o + 2) && r.fullCase == TextAt(cells, o + 3)
    ensures r.purpose == TextAt(cells, o + 4) && r.dateTime == time
    ensures (r.caseNumber, r.caseType, r.caseYear) == ParseCaseDetails(r.fullCase)
  {
    var fullCase := TextAt(cells, o + 3);
    var d := ParseCaseDetails(fullCase);
    Record(c, TextAt(cells, o), TextAt(cells, o + 1), TextAt(cells, o + 2), d.0, d.1, d.2,
           fullCase, TextAt(cells, o + 4), time)
  }

  function OptionToSeq<T>(o: Option<T>): (r: seq<T>)
    ensures |r| <= 1
  {
    if o.Some? then [o.value] else []
  }

  /** The records of the first rows and the court carried out of them. */
  function Decode(rows: seq<Row>, time: string): (r: (seq<Record>, string))
    ensures |r.0| <= |rows|
    decreases |rows|
  {
    if rows == [] then ([], "")
    else
      var prev := Decode(rows[..|rows| - 1], time);
      var st := RowStep(rows[|rows| - 1].td, prev.1, time);
      (prev.0 + OptionToSeq(st.0), st.1)
  }

  /** One pass of the loop body: the record of the row, if any, and the court carried
      on. */
  method DecodeRow(cells: seq<Cell>, court: string, time: string) returns (rec: Option<Record>, currentCourt: string)
    ensures (rec, currentCourt) == RowStep(cells, court, time)
  {
    currentCourt := court;
    if |cells| == 1 {
      return None, currentCourt;
    }
    if |cells| < 5 {
      return None, currentCourt;
    }
    var rowspan := cells[0].rowspan;
    var n := PyInt(rowspan);
    if rowspan != [] && n.None? {
      return None, currentCourt;
    }
    var o := 0;
    if rowspan != [] && n.value > 1 {
      currentCourt := cells[0].text;
      o := 1;
    }
    assert Decodable(cells) && (StartsCourt(cells) <==> o == 1);
    rec := Some(RecordAt(cells, o, currentCourt, time));
  }

  /** The `while i < len(rows)` loop. */
  method ScrapeDisplayBoard(rows: seq<Row>, time: string) returns (recs: seq<Record>)
    ensures recs == Decode(rows, time).0
  {
    recs := [];
    var currentCourt := "";
    var i := 0;
    while i < |rows|
      invariant i <= |rows|
      invariant (recs, currentCourt) == Decode(rows[..i], time)
    {
      assert rows[..i + 1][..i] == rows[..i];
      var rec;
      rec, currentCourt := DecodeRow(rows[i].td, currentCourt, time);
      recs := recs + OptionToSeq(rec);
      i := i + 1;
    }
    assert rows[..|rows|] == rows;
  }

  // ---------------------------------------------------------------------------
  // The carried court

  /** A row the loop decodes and that starts a court. */
  predicate CourtRow(row: Row) {
    Decodable(row.td) && StartsCourt(row.td)
  }

  /** The court carried out of a run of rows is the court cell of the last row that
      started a court, and "" before any has. */
  lemma {:induction false} CarriedCourt(rows: seq<Row>, time: string)
    ensures Decode(rows, time).1 == match LastWhere(rows, CourtRow)
                                     case None => ""
                                     case Some(j) => TextAt(rows[j].td, 0)
    decreases |rows|
  {
    if rows != [] {
      var init := rows[..|rows| - 1];
      CarriedCourt(init, time);
      assert forall j :: 0 <= j < |init| ==> init[j] == rows[j];
    }
  }

  /** Each row gives at most one record, and a row with fewer than five cells (the
      one-cell marquee rows among them) gives none and leaves the carried court. */
  lemma ShortRowsSkipped(rows: seq<Row>, time: string)
    requires rows != [] && |rows[|rows| - 1].td| < 5
    ensures Decode(rows, time) == Decode(rows[..|rows| - 1], time)
  {
    var prev := Decode(rows[..|rows| - 1], time);
    assert RowStep(rows[|rows| - 1].td, prev.1, time) == (None, prev.1);
    assert prev.0 + OptionToSeq<Record>(None) == prev.0;
  }

  /** The record of a row that starts a court reads cells 1-5; any other record reads
      cells 0-4 under the carried court. */
  lemma FieldPlacement(cells: seq<Cell>, court: string, time: string)
    requires Decodable(cells)
    ensures StartsCourt(cells) ==>
              var r := RowStep(cells, court, time).0.value;
              r.court == cells[0].text && r.listType == cells[1].text && r.round == cells[2].text
              && r.sno == cells[3].text && r.fullCase == cells[4].text && r.purpose == TextAt(cells, 5)
    ensures !StartsCourt(cells) ==>
              var r := RowStep(cells, court, time).0.value;
              r.court == court && r.listType == cells[0].text && r.round == cells[1].text
              && r.sno == cells[2].text && r.fullCase == cells[3].text && r.purpose == cells[4].text
  {
  }
}
