/** The Port Blair (Calcutta High Court circuit bench) display board: one table row
    per court, whose third cell shows a serial or a serial range ("AD 27-31") and
    whose eye button lists the case numbers being heard. */
module PortBlair {
  import opened Text
  import opened Scan
  import opened Dom
  import Ingest

  const BenchName := "Port Blair"

  /** One spreadsheet row: a (serial, case) pair of one court. */
  datatype Record = Record(bench: string, court: string, judges: string, serial: string,
                           caseFull: string, caseNumber: string, dateTime: string)

  // ---------------------------------------------------------------------------
  // extract_case_number_numeric

  /** The number inside a case number such as "MAT/67/2026": the first digit run
      enclosed by slashes, else the first digit run after a slash, else "". */
  function CaseNumberNumeric(caseFull: string): (r: string)
    ensures AllSpace(caseFull) ==> r == []
    ensures r == [] || AllDigits(r)
    ensures '/' !in caseFull ==> r == []
  {
    if AllSpace(caseFull) then []
    else
      SearchCapturesDigits(caseFull, SlashDigitsSlashAt);
      SearchCapturesDigits(caseFull, SlashDigitsAt);
      match SearchGroup(caseFull, SlashDigitsSlashAt)
      case Some(g) => g
      case None =>
        match SearchGroup(caseFull, SlashDigitsAt)
        case Some(g) => g
        case None => []
  }

  /** The first slash-enclosed digit run wins: "MAT/67/2026" gives "67", and so does
      "A/B/67/2026", whose earlier slashes enclose no digits. */
  lemma CaseNumberBetweenSlashes(pre: string, d: string, rest: string)
    requires forall j :: 0 <= j < |pre| ==> SlashDigitsSlashAt(pre + "/", j).None?
    requires d != [] && AllDigits(d)
    ensures CaseNumberNumeric(pre + "/" + d + "/" + rest) == d
  {
    var p := pre + "/";
    var t := d + "/" + rest;
    var s := p + t;
    assert pre + "/" + d + "/" + rest == s;
    SlashNumberHere(p, d, rest);
    forall j | 0 <= j < |pre| ensures SlashDigitsSlashAt(s, j).None? {
      NoSlashNumberAcross(p, t, j);
    }
    assert !AllSpace(s) by { assert s[|pre|] == '/'; }
    SearchGroupAt(s, SlashDigitsSlashAt, |pre|, d);
  }

  /** A prefix ending in '/' followed by "D/": the pattern matches at that slash. */
  lemma SlashNumberHere(p: string, d: string, rest: string)
    requires p != [] && p[|p| - 1] == '/' && d != [] && AllDigits(d)
    ensures SlashDigitsSlashAt(p + (d + "/" + rest), |p| - 1) == Some(d)
  {
    var s := p + (d + "/" + rest);
    var k := |p|;
    assert s[k - 1] == '/';
    assert forall j :: k <= j < k + |d| ==> s[j] == d[j - k];
    assert s[k + |d|] == '/';
    DigitRunIs(s, k, k + |d|);
    assert s[k..k + |d|] == d;
  }

  /** A slash-enclosed digit run starting in a prefix that ends in '/' lies within
      that prefix, so appending text cannot create one. */
  lemma NoSlashNumberAcross(p: string, t: string, j: nat)
    requires j + 1 < |p| && p[|p| - 1] == '/'
    requires SlashDigitsSlashAt(p, j).None?
    ensures SlashDigitsSlashAt(p + t, j).None?
  {
    var s := p + t;
    assert s[j] == p[j];
    if p[j] == '/' {
      DigitRunStable(p, t, j + 1);
      var e := DigitRunEnd(p, j + 1);
      assert e < |p| && s[e] == p[e];
    }
  }

  /** With a single slash, the digit run after it is taken: "WPA/444" gives "444". */
  lemma CaseNumberAfterOnlySlash(pre: string, d: string, rest: string)
    requires '/' !in pre && '/' !in rest && d != [] && AllDigits(d)
    requires rest == [] || !IsDigit(rest[0])
    ensures CaseNumberNumeric(pre + "/" + d + rest) == d
  {
    var s := pre + "/" + d + rest;
    var k := |pre|;
    assert s[k] == '/';
    assert !AllSpace(s);
    assert forall j :: k < j <= k + |d| ==> s[j] == d[j - k - 1];
    assert k + 1 + |d| < |s| ==> s[k + 1 + |d|] == rest[0];
    assert DigitRunEnd(s, k + 1) == k + 1 + |d|;
    assert s[k + 1..k + 1 + |d|] == d;
    forall j | 0 <= j <= |s| ensures SlashDigitsSlashAt(s, j).None? {
      if j < k { assert s[j] == pre[j]; }
      else if j > k && j < |s| {
        if j <= k + |d| { assert s[j] == d[j - k - 1]; } else { assert s[j] == rest[j - k - 1 - |d|]; }
      }
    }
    SearchGroupNone(s, SlashDigitsSlashAt);
    forall j | 0 <= j < k ensures SlashDigitsAt(s, j).None? {
      assert s[j] == pre[j];
    }
    SearchGroupAt(s, SlashDigitsAt, k, d);
  }

  // ---------------------------------------------------------------------------
  // extract_serial_number_range

  /** `(\d+)-(\d+)` at i, with both digit runs. */
  function RangeAt(s: string, i: nat): (r: Option<(string, string)>)
    ensures r.Some? ==> r.value.0 != [] && AllDigits(r.value.0) && r.value.1 != [] && AllDigits(r.value.1)
  {
    if i < |s| && IsDigit(s[i]) then
      var e := DigitRunEnd(s, i);
      if e < |s| && s[e] == '-' then
        var f := DigitRunEnd(s, e + 1);
        if f > e + 1 then Some((s[i..e], s[e + 1..f])) else None
      else None
    else None
  }

  /** Python's list(range(a, b + 1)). */
  function InclusiveRange(a: nat, b: nat): (r: seq<nat>)
    ensures |r| == if a <= b then b - a + 1 else 0
    ensures forall i :: 0 <= i < |r| ==> r[i] == a + i
  {
    if a > b then [] else seq(b - a + 1, i requires 0 <= i <= b - a => a + i)
  }

  /** The serial numbers a serial cell shows: every number of the first "A-B" range,
      else the first standalone number, else none. */
  function SerialRange(s: string): (r: seq<nat>)
    ensures AllSpace(s) ==> r == []
    ensures forall i :: 0 <= i < |r| - 1 ==> r[i + 1] == r[i] + 1
  {
    if AllSpace(s) then []
    else
      match Search(s, 0, RangeAt)
      case Some(h) => InclusiveRange(Value(h.group.0), Value(h.group.1))
      case None =>
        SearchCapturesDigits(s, StandaloneAt);
        match SearchGroup(s, StandaloneAt)
        case Some(g) => [Value(g)]
        case None => []
  }

  /** Where "A-B" sits in the text, RangeAt reads A and B. */
  lemma RangeAtSpan(pre: string, a: string, b: string, post: string)
    requires a != [] && AllDigits(a) && b != [] && AllDigits(b)
    requires post == [] || !IsDigit(post[0])
    ensures RangeAt(pre + a + "-" + b + post, |pre|) == Some((a, b))
  {
    var s := pre + a + "-" + b + post;
    var k := |pre|;
    var e := k + |a|;
    var f := e + 1 + |b|;
    assert forall j :: k <= j < e ==> s[j] == a[j - k];
    assert s[e] == '-';
    DigitRunIs(s, k, e);
    assert forall j :: e < j < f ==> s[j] == b[j - e - 1];
    assert f < |s| ==> s[f] == post[0];
    DigitRunIs(s, e + 1, f);
    assert s[k..e] == a;
    assert s[e + 1..f] == b;
  }

  /** "AD 27-31" gives [27, 28, 29, 30, 31]: a range after text without digits is
      expanded in full, and is empty when it runs backwards. */
  lemma SerialRangeExpands(pre: string, a: string, b: string, post: string)
    requires forall k :: 0 <= k < |pre| ==> !IsDigit(pre[k])
    requires a != [] && AllDigits(a) && b != [] && AllDigits(b)
    requires post == [] || !IsDigit(post[0])
    ensures SerialRange(pre + a + "-" + b + post) == InclusiveRange(Value(a), Value(b))
    ensures |SerialRange(pre + a + "-" + b + post)| == if Value(a) <= Value(b) then Value(b) - Value(a) + 1 else 0
  {
    var s := pre + a + "-" + b + post;
    var k := |pre|;
    assert s[k] == a[0];
    assert !AllSpace(s);
    RangeAtSpan(pre, a, b, post);
    forall j | 0 <= j < k ensures RangeAt(s, j).None? {
      assert s[j] == pre[j];
    }
    SearchAt(s, RangeAt, k, (a, b));
  }

  /** A text whose digits all lie in one stretch holds no "A-B" range. */
  lemma NoRangeInOneDigitRun(s: string, lo: nat, hi: nat)
    requires lo <= hi <= |s|
    requires forall p :: 0 <= p < |s| && IsDigit(s[p]) ==> lo <= p < hi
    requires forall p :: lo <= p < hi ==> IsDigit(s[p])
    ensures forall j :: 0 <= j <= |s| ==> RangeAt(s, j).None?
  {
  }

  /** "AD 7" gives [7]: a lone number standing as a word of its own. */
  lemma SerialRangeSingle(pre: string, d: string, post: string)
    requires forall k :: 0 <= k < |pre| ==> !IsDigit(pre[k])
    requires forall k :: 0 <= k < |post| ==> !IsDigit(post[k])
    requires d != [] && AllDigits(d)
    requires pre == [] || !IsWordChar(pre[|pre| - 1])
    requires post == [] || !IsWordChar(post[0])
    ensures SerialRange(pre + d + post) == [Value(d)]
  {
    NumberLaidOut(pre, d, post);
    SerialRangeAt(pre + d + post, |pre|, |pre| + |d|);
  }

  /** The positions of "PRE D POST" seen character by character. */
  lemma NumberLaidOut(pre: string, d: string, post: string)
    requires forall k :: 0 <= k < |pre| ==> !IsDigit(pre[k])
    requires forall k :: 0 <= k < |post| ==> !IsDigit(post[k])
    requires d != [] && AllDigits(d)
    requires pre == [] || !IsWordChar(pre[|pre| - 1])
    requires post == [] || !IsWordChar(post[0])
    ensures var s, k, e := pre + d + post, |pre|, |pre| + |d|;
            && k < e <= |s| && s[k..e] == d
            && (forall j :: 0 <= j < k ==> !IsDigit(s[j]))
            && (forall j :: k <= j < e ==> IsDigit(s[j]))
            && (forall j :: e <= j < |s| ==> !IsDigit(s[j]))
            && (k == 0 || !IsWordChar(s[k - 1]))
            && (e == |s| || !IsWordChar(s[e]))
  {
    var s, k, e := pre + d + post, |pre|, |pre| + |d|;
    assert forall j :: 0 <= j < k ==> s[j] == pre[j];
    assert forall j :: k <= j < e ==> s[j] == d[j - k];
    assert forall j :: e <= j < |s| ==> s[j] == post[j - e];
  }

  /** One standalone digit run from k to e and no other digit: the serial is its
      value. */
  lemma SerialRangeAt(s: string, k: nat, e: nat)
    requires k < e <= |s|
    requires forall j :: 0 <= j < k ==> !IsDigit(s[j])
    requires forall j :: k <= j < e ==> IsDigit(s[j])
    requires forall j :: e <= j < |s| ==> !IsDigit(s[j])
    requires k == 0 || !IsWordChar(s[k - 1])
    requires e == |s| || !IsWordChar(s[e])
    ensures SerialRange(s) == [Value(s[k..e])]
  {
    assert !AllSpace(s) by { assert IsDigit(s[k]); }
    NoRangeInOneDigitRun(s, k, e);
    StandaloneRunAt(s, k, e);
  }

  /** Python's `\b`: in "AD7" the 7 is glued to a letter, so no serial is found. */
  lemma SerialRangeNeedsWordBoundary()
    ensures SerialRange("AD7") == []
  {
    var s := "AD7";
    assert !AllSpace(s) by { assert !IsSpace(s[0]); }
    forall j | 0 <= j <= |s| ensures RangeAt(s, j).None? && StandaloneAt(s, j).None? {
    }
    SearchGroupNone(s, StandaloneAt);
  }

  // ---------------------------------------------------------------------------
  // The eye button: viewCases('AD 7','MAT/67/2026, MAT/68/2026')

  lemma NonQuoteRunIs(s: string, i: nat, e: nat)
    requires i <= e < |s| && s[e] == '\''
    requires forall k :: i <= k < e ==> s[k] != '\''
    ensures UntilChar(s, i, '\'') == e
    decreases e - i
  {
    if i < e {
      NonQuoteRunIs(s, i + 1, e);
    }
  }

  const ViewCasesOpen := "viewCases('"

  /** `viewCases\('([^']+)','([^']+)'\)` at i, with both groups. */
  function ViewCasesAt(s: string, i: nat): Option<(string, string)> {
    if !OccursAt(s, ViewCasesOpen, i) then None
    else
      var a := i + |ViewCasesOpen|;
      var q := UntilChar(s, a, '\'');
      if q > a && OccursAt(s, "','", q) then
        var b := q + 3;
        var q2 := UntilChar(s, b, '\'');
        if q2 > b && OccursAt(s, "')", q2) then Some((s[a..q], s[b..q2])) else None
      else None
  }

  /** The serial shown and the case numbers listed by the eye button of a row; a row
      without an eye button, or whose onclick does not match, lists none. */
  function EyeButtonCases(onclick: Option<string>): (r: (Option<string>, seq<string>))
    ensures r.0.None? <==> r.1 == []
    ensures forall i :: 0 <= i < |r.1| ==> ',' !in r.1[i]
  {
    match onclick
    case None => (None, [])
    case Some(o) =>
      match SearchGroup(o, ViewCasesAt)
      case None => (None, [])
      case Some(g) => (Some(Strip(g.0)), CaseList(g.1))
  }

  /** The case numbers of a comma-separated list, each stripped. */
  function CaseList(list: string): (r: seq<string>)
    ensures |r| >= 1
    ensures forall i :: 0 <= i < |r| ==> ',' !in r[i]
  {
    var parts := Split(Strip(list), ',');
    seq(|parts|, i requires 0 <= i < |parts| => Strip(parts[i]))
  }

  /** Text that Strip leaves alone and that holds neither a quote nor a comma. */
  predicate CaseText(c: string) {
    c != [] && !IsSpace(c[0]) && !IsSpace(c[|c| - 1]) && '\'' !in c && ',' !in c
  }

  /** An onclick written from two quote-free texts matches at its start with them
      as the groups. */
  lemma ViewCasesAtWritten(display: string, list: string)
    requires display != [] && '\'' !in display && list != [] && '\'' !in list
    ensures ViewCasesAt(ViewCasesOpen + display + "','" + list + "')", 0) == Some((display, list))
  {
    var s := ViewCasesOpen + display + "','" + list + "')";
    var a := |ViewCasesOpen|;
    var q := a + |display|;
    var q2 := q + 3 + |list|;
    ViewCasesLayout(s, display, list, a, q, q2);
    QuoteFreeSlice(s, a, q, display);
    QuoteFreeSlice(s, q + 3, q2, list);
    ViewCasesAtEnds(s, a, q, q2);
  }

  /** Where the parts of a written onclick sit. */
  lemma ViewCasesLayout(s: string, display: string, list: string, a: nat, q: nat, q2: nat)
    requires s == ViewCasesOpen + display + "','" + list + "')"
    requires a == |ViewCasesOpen| && q == a + |display| && q2 == q + 3 + |list|
    ensures |s| == q2 + 2 && s[..a] == ViewCasesOpen
    ensures s[a..q] == display && s[q..q + 3] == "','" && s[q + 3..q2] == list && s[q2..q2 + 2] == "')"
  {
  }

  lemma QuoteFreeSlice(s: string, i: nat, j: nat, t: string)
    requires i <= j <= |s| && s[i..j] == t && '\'' !in t
    ensures forall k :: i <= k < j ==> s[k] != '\''
  {
    assert forall k :: i <= k < j ==> s[k] == t[k - i];
  }

  /** The opening at 0, quote-free runs a..q and q+3..q2 closed by "','" and "')". */
  lemma ViewCasesAtEnds(s: string, a: nat, q: nat, q2: nat)
    requires a == |ViewCasesOpen| && a < q && q + 3 < q2 && q2 + 2 <= |s|
    requires s[..a] == ViewCasesOpen && s[q..q + 3] == "','" && s[q2..q2 + 2] == "')"
    requires forall k :: a <= k < q ==> s[k] != '\''
    requires forall k :: q + 3 <= k < q2 ==> s[k] != '\''
    ensures ViewCasesAt(s, 0) == Some((s[a..q], s[q + 3..q2]))
  {
    assert s[q] == '\'' by { assert s[q] == s[q..q + 3][0]; }
    assert s[q2] == '\'' by { assert s[q2] == s[q2..q2 + 2][0]; }
    NonQuoteRunIs(s, a, q);
    NonQuoteRunIs(s, q + 3, q2);
  }

  lemma JoinedCasesUnpadded(cases: seq<string>)
    requires |cases| >= 1 && forall i :: 0 <= i < |cases| ==> CaseText(cases[i])
    ensures Strip(Join(cases, ',')) == Join(cases, ',')
  {
    var j := Join(cases, ',');
    var first, last := cases[0], cases[|cases| - 1];
    assert CaseText(first) && CaseText(last);
    JoinEnds(cases, ',');
    assert j[0] == first[0] && j[|j| - 1] == last[|last| - 1];
    StripNoPadding(j);
  }

  /** A list written by joining case numbers with commas reads back as them. */
  lemma CaseListRoundTrip(cases: seq<string>)
    requires |cases| >= 1 && forall i :: 0 <= i < |cases| ==> CaseText(cases[i])
    ensures CaseList(Join(cases, ',')) == cases
  {
    JoinedCasesUnpadded(cases);
    JoinSplit(cases, ',');
    CaseListOfStrippedPieces(Join(cases, ','), cases);
  }

  lemma CaseListOfStrippedPieces(list: string, cases: seq<string>)
    requires Strip(list) == list && Split(list, ',') == cases
    requires forall i :: 0 <= i < |cases| ==> CaseText(cases[i])
    ensures CaseList(list) == cases
  {
    forall i | 0 <= i < |cases| ensures Strip(cases[i]) == cases[i] {
      StripNoPadding(cases[i]);
    }
  }

  /** Reading back an onclick written for a serial and a list of case numbers gives
      that serial and those case numbers. */
  lemma EyeButtonRoundTrip(display: string, cases: seq<string>)
    requires CaseText(display)
    requires |cases| >= 1 && forall i :: 0 <= i < |cases| ==> CaseText(cases[i])
    ensures EyeButtonCases(Some(ViewCasesOpen + display + "','" + Join(cases, ',') + "')"))
            == (Some(display), cases)
  {
    var joined := Join(cases, ',');
    var s := ViewCasesOpen + display + "','" + joined + "')";
    JoinKeepsOut(cases, ',', '\'');
    JoinEnds(cases, ',');
    ViewCasesAtWritten(display, joined);
    SearchGroupAt(s, ViewCasesAt, 0, (display, joined));
    StripNoPadding(display);
    CaseListRoundTrip(cases);
  }

  // ---------------------------------------------------------------------------
  // scrape_display_board

  /** The court cell's text; when the cell has span children its "ℹ" marker is
      removed first. */
  function CourtText(c: Cell): (r: string)
    ensures c.hasSpan ==> '\U{2139}' !in r
  {
    if c.hasSpan then Strip(Remove(c.text, '\U{2139}')) else Strip(c.text)
  }

  /** The i-th element, or the last one once the list has run out. */
  function Pad<T>(xs: seq<T>, i: nat): (r: T)
    requires |xs| > 0
    ensures r in xs
    ensures i < |xs| ==> r == xs[i]
    ensures i >= |xs| ==> r == xs[|xs| - 1]
  {
    if i < |xs| then xs[i] else xs[|xs| - 1]
  }

  function Max(a: nat, b: nat): nat { if a < b then b else a }

  /** The records of a court that has both serials and case numbers: as many as the
      longer list, the shorter list padded with its last element. */
  function PairedRecords(court: string, judges: string, serials: seq<nat>, cases: seq<string>, time: string): seq<Record>
    requires |serials| > 0 && |cases| > 0
  {
    seq(Max(|serials|, |cases|), i requires 0 <= i < Max(|serials|, |cases|) =>
      PairedRecord(court, judges, serials, cases, i, time))
  }

  /** The i-th of them. */
  function PairedRecord(court: string, judges: string, serials: seq<nat>, cases: seq<string>, i: nat, time: string): Record
    requires |serials| > 0 && |cases| > 0
  {
    Record(BenchName, court, judges, NatToString(Pad(serials, i)), Pad(cases, i), CaseNumberNumeric(Pad(cases, i)), time)
  }

  /** The records of a court that shows serials but no case numbers. */
  function SerialOnlyRecords(court: string, judges: string, serials: seq<nat>, time: string): seq<Record> {
    seq(|serials|, i requires 0 <= i < |serials| => Record(BenchName, court, judges, NatToString(serials[i]), "", "", time))
  }

  /** The records of one table row. */
  function RowRecords(row: Row, time: string): seq<Record> {
    if |row.td| < 3 then []
    else
      var court := CourtText(row.td[0]);
      var judges := Strip(row.td[1].text);
      var serials := SerialRange(Strip(row.td[2].text));
      var cases := EyeButtonCases(row.onclick).1;
      if |cases| > 0 && |serials| > 0 then PairedRecords(court, judges, serials, cases, time)
      else if |serials| > 0 then SerialOnlyRecords(court, judges, serials, time)
      else []
  }

  function Decoder(time: string): Row -> seq<Record> {
    row => RowRecords(row, time)
  }

  /** The records of the whole board, row after row. */
  function Scrape(rows: seq<Row>, time: string): seq<Record> {
    FlatMap(rows, Decoder(time))
  }

  /** The pairing loop: one record per index up to the longer list's length. */
  method PairSerialsWithCases(court: string, judges: string, serials: seq<nat>, cases: seq<string>, time: string)
    returns (recs: seq<Record>)
    requires |serials| > 0 && |cases| > 0
    ensures recs == PairedRecords(court, judges, serials, cases, time)
  {
    var n := if |serials| < |cases| then |cases| else |serials|;
    recs := [];
    for i := 0 to n
      invariant |recs| == i
      invariant forall k :: 0 <= k < i ==> recs[k] == PairedRecord(court, judges, serials, cases, k, time)
    {
      var serialNo := if i < |serials| then serials[i] else serials[|serials| - 1];
      var caseFull := if i < |cases| then cases[i] else cases[|cases| - 1];
      recs := recs + [Record(BenchName, court, judges, NatToString(serialNo), caseFull, CaseNumberNumeric(caseFull), time)];
    }
    ghost var spec := PairedRecords(court, judges, serials, cases, time);
    assert forall k :: 0 <= k < n ==> spec[k] == PairedRecord(court, judges, serials, cases, k, time);
  }

  /** One table row: its serials, its eye button, and the records they give. */
  method DecodeRow(row: Row, time: string) returns (recs: seq<Record>)
    ensures recs == RowRecords(row, time)
  {
    recs := [];
    if |row.td| < 3 {
      return;
    }
    var court := CourtText(row.td[0]);
    var judges := Strip(row.td[1].text);
    var serials := SerialRange(Strip(row.td[2].text));
    var cases := EyeButtonCases(row.onclick).1;
    if |cases| > 0 && |serials| > 0 {
      recs := PairSerialsWithCases(court, judges, serials, cases, time);
    } else if |serials| > 0 {
      recs := SerialsAlone(court, judges, serials, time);
    }
  }

  /** The loop for a row without case numbers: one record per serial. */
  method SerialsAlone(court: string, judges: string, serials: seq<nat>, time: string) returns (recs: seq<Record>)
    ensures recs == SerialOnlyRecords(court, judges, serials, time)
  {
    recs := [];
    for i := 0 to |serials|
      invariant recs == SerialOnlyRecords(court, judges, serials[..i], time)
    {
      recs := recs + [Record(BenchName, court, judges, NatToString(serials[i]), "", "", time)];
    }
    assert serials[..|serials|] == serials;
  }

  /** The board: every row in table order. */
  method ScrapeDisplayBoard(rows: seq<Row>, time: string) returns (recs: seq<Record>)
    ensures recs == Scrape(rows, time)
  {
    recs := [];
    for i := 0 to |rows|
      invariant recs == FlatMap(rows[..i], Decoder(time))
    {
      var r := DecodeRow(rows[i], time);
      FlatMapSnoc(rows, i, Decoder(time));
      recs := recs + r;
    }
    assert rows[..|rows|] == rows;
  }

  // ---------------------------------------------------------------------------
  // What the records say

  /** Pairing covers both lists: every serial and every case number of the row
      appears in a record, and the records come out in serial order. */
  lemma PairingCoversBoth(court: string, judges: string, serials: seq<nat>, cases: seq<string>, time: string)
    requires |serials| > 0 && |cases| > 0
    ensures |PairedRecords(court, judges, serials, cases, time)| == Max(|serials|, |cases|)
    ensures forall j :: 0 <= j < |serials| ==> PairedRecords(court, judges, serials, cases, time)[j].serial == NatToString(serials[j])
    ensures forall j :: 0 <= j < |cases| ==> PairedRecords(court, judges, serials, cases, time)[j].caseFull == cases[j]
    ensures forall j :: |serials| <= j < Max(|serials|, |cases|) ==>
              PairedRecords(court, judges, serials, cases, time)[j].serial == NatToString(serials[|serials| - 1])
    ensures forall j :: |cases| <= j < Max(|serials|, |cases|) ==>
              PairedRecords(court, judges, serials, cases, time)[j].caseFull == cases[|cases| - 1]
  {
  }

  /** A row with fewer than three cells, or whose serial cell shows no number, gives
      no record; a row with serials and no case numbers gives one record per serial
      with empty case fields. */
  lemma RowRecordsSkipAndSerialOnly(row: Row, time: string)
    ensures |row.td| < 3 ==> RowRecords(row, time) == []
    ensures |row.td| >= 3 && SerialRange(Strip(row.td[2].text)) == [] ==> RowRecords(row, time) == []
    ensures |row.td| >= 3 && EyeButtonCases(row.onclick).1 == [] ==>
              |RowRecords(row, time)| == |SerialRange(Strip(row.td[2].text))|
              && forall j :: 0 <= j < |RowRecords(row, time)| ==>
                   RowRecords(row, time)[j].caseFull == "" && RowRecords(row, time)[j].caseNumber == ""
  {
  }

  /** Every record's case number is what the numeric extraction reads from its full
      case number, and its serial reads back as one of the row's serials. */
  lemma RecordFieldsAgree(row: Row, time: string, j: nat)
    requires j < |RowRecords(row, time)|
    ensures RowRecords(row, time)[j].caseNumber == CaseNumberNumeric(RowRecords(row, time)[j].caseFull)
    ensures IntOrZero(RowRecords(row, time)[j].serial) in SerialRange(Strip(row.td[2].text))
    ensures RowRecords(row, time)[j].bench == BenchName && RowRecords(row, time)[j].dateTime == time
  {
    var court := CourtText(row.td[0]);
    var judges := Strip(row.td[1].text);
    var serials := SerialRange(Strip(row.td[2].text));
    var cases := EyeButtonCases(row.onclick).1;
    if |cases| > 0 {
      PairedFieldsAgree(court, judges, serials, cases, j, time);
    } else {
      SerialOnlyFieldsAgree(court, judges, serials, j, time);
    }
  }

  lemma PairedFieldsAgree(court: string, judges: string, serials: seq<nat>, cases: seq<string>, j: nat, time: string)
    requires |serials| > 0 && |cases| > 0 && j < |PairedRecords(court, judges, serials, cases, time)|
    ensures var r := PairedRecords(court, judges, serials, cases, time)[j];
            r.caseNumber == CaseNumberNumeric(r.caseFull) && IntOrZero(r.serial) in serials
            && r.bench == BenchName && r.dateTime == time
  {
    IntOrZeroRoundTrip(Pad(serials, j));
  }

  lemma SerialOnlyFieldsAgree(court: string, judges: string, serials: seq<nat>, j: nat, time: string)
    requires j < |SerialOnlyRecords(court, judges, serials, time)|
    ensures var r := SerialOnlyRecords(court, judges, serials, time)[j];
            r.caseNumber == CaseNumberNumeric(r.caseFull) && IntOrZero(r.serial) in serials
            && r.bench == BenchName && r.dateTime == time
  {
    IntOrZeroRoundTrip(serials[j]);
    assert CaseNumberNumeric("") == "";
  }

  // ---------------------------------------------------------------------------
  // post_court_data_to_api and the tally

  /** The body posted for a record: the serial cell text read back as an int (0 when
      empty or not a number), the coram as the stage, list number 0. */
  function ToPayload(r: Record): (p: Ingest.Payload)
    ensures p.serialNumber == IntOrZero(r.serial)
    ensures p.benchName == BenchName && p.courtHallNumber == r.court && p.caseNumber == r.caseNumber
    ensures p.note == r.judges && p.listNumber == Some(0)
  {
    Ingest.Payload(BenchName, r.court, r.caseNumber, IntOrZero(r.serial), r.judges, Some(0))
  }

  /** A record scraped from a serial n posts serialNumber n. */
  lemma PayloadSerialRoundTrip(court: string, judges: string, n: nat, caseFull: string, time: string)
    ensures ToPayload(Record(BenchName, court, judges, NatToString(n), caseFull, CaseNumberNumeric(caseFull), time)).serialNumber == n
  {
    IntOrZeroRoundTrip(n);
  }

  /** What an error entry records: court and case number. */
  function ErrorKey(r: Record): (k: (string, string))
    ensures k.0 == r.court && k.1 == r.caseNumber
  {
    (r.court, r.caseNumber)
  }
}
