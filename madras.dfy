/** The Madras High Court (Chennai) display board. The page is read as one text, cut
    at every "Court No :" marker; each piece after the first describes one court: its
    number, then somewhere an "Item No : ..." token and a case number such as
    "WP.1083/2026". */
module Madras {
  import opened Text
  import opened Scan
  import opened Dom
  import Ingest

  const BenchName := "Chennai"

  /** One spreadsheet row. */
  datatype Record = Record(bench: string, courtNo: string, itemNo: string, caseNumber: string,
                           caseFull: string, dateTime: string)

  // ---------------------------------------------------------------------------
  // extract_case_number_numeric

  /** `(\d+)/` at i: a digit run followed by a slash. */
  function DigitsSlashAt(s: string, i: nat): (r: Option<string>)
    ensures r.Some? ==> i < |s| && r.value == s[i..DigitRunEnd(s, i)] && r.value != [] && AllDigits(r.value)
  {
    if i < |s| && IsDigit(s[i]) then
      var e := DigitRunEnd(s, i);
      if e < |s| && s[e] == '/' then Some(s[i..e]) else None
    else None
  }

  /** `\.?(\d+)/` at i. When s[i] is a dot, the pattern without the dot cannot match
      at i either, so the dotted reading is the only one. */
  function DotDigitsSlashAt(s: string, i: nat): (r: Option<string>)
    ensures r.Some? ==> r.value != [] && AllDigits(r.value)
  {
    if i < |s| && s[i] == '.' then DigitsSlashAt(s, i + 1) else DigitsSlashAt(s, i)
  }

  /** The number of a case such as "WP.1083/2026" or "CRL OP.16466/2007": the first
      digit run followed by a slash, else the first standalone number, else "". */
  function CaseNumberNumeric(caseFull: string): (r: string)
    ensures AllSpace(caseFull) ==> r == []
    ensures r == [] || AllDigits(r)
    ensures (forall k :: 0 <= k < |caseFull| ==> !IsDigit(caseFull[k])) ==> r == []
  {
    if AllSpace(caseFull) then []
    else
      SearchCapturesDigits(caseFull, StandaloneAt);
      NoDigitsDotSlash(caseFull);
      match Search(caseFull, 0, DotDigitsSlashAt)
      case Some(h) => h.group
      case None =>
        match SearchGroup(caseFull, StandaloneAt)
        case Some(g) => g
        case None => []
  }

  lemma NoDigitsDotSlash(s: string)
    ensures (forall k :: 0 <= k < |s| ==> !IsDigit(s[k])) ==> Search(s, 0, DotDigitsSlashAt).None?
  {
  }

  /** "WP.1083/2026", "WP1594/2026" and "CRL OP.16466/2007" give 1083, 1594 and 16466:
      the digits before the first slash, when nothing before them is a digit. */
  lemma CaseNumberBeforeSlash(pre: string, d: string, rest: string)
    requires forall k :: 0 <= k < |pre| ==> !IsDigit(pre[k])
    requires d != [] && AllDigits(d)
    ensures CaseNumberNumeric(pre + d + "/" + rest) == d
  {
    var s := pre + d + "/" + rest;
    var k := |pre|;
    assert s[k] == d[0];
    assert !AllSpace(s);
    assert forall j :: k <= j < k + |d| ==> s[j] == d[j - k];
    assert s[k + |d|] == '/';
    DigitRunIs(s, k, k + |d|);
    assert s[k..k + |d|] == d;
    assert DigitsSlashAt(s, k) == Some(d);
    forall j | 0 <= j < k - 1 ensures DotDigitsSlashAt(s, j).None? {
      assert s[j] == pre[j] && s[j + 1] == pre[j + 1];
    }
    if k > 0 && pre[k - 1] == '.' {
      assert s[k - 1] == '.';
      SearchAt(s, DotDigitsSlashAt, k - 1, d);
    } else {
      assert k > 0 ==> s[k - 1] == pre[k - 1];
      SearchAt(s, DotDigitsSlashAt, k, d);
    }
  }

  /** "WP 1083 OF 2026": when no digit run anywhere is followed by a slash, the case
      number is the first standalone number of the text. */
  lemma CaseNumberFallback(s: string, k: nat, e: nat)
    requires forall j :: 0 <= j <= |s| ==> DigitsSlashAt(s, j).None?
    requires FirstStandaloneRun(s, k, e)
    ensures CaseNumberNumeric(s) == s[k..e]
  {
    assert !AllSpace(s) by { assert IsDigit(s[k]); }
    forall j | 0 <= j <= |s| ensures DotDigitsSlashAt(s, j).None? {
      if j < |s| && s[j] == '.' {
        assert DigitsSlashAt(s, j + 1).None?;
      }
    }
    FirstStandaloneFound(s, k, e);
  }

  // ---------------------------------------------------------------------------
  // extract_item_number_numeric

  /** The digits an item number starts with ("6/L1" gives "6"), "" when it does not
      start with a digit. */
  function ItemNumberNumeric(item: string): (r: string)
    ensures r == [] || (|r| <= |item| && AllDigits(r) && r == item[..|r|] && (|r| == |item| || !IsDigit(item[|r|])))
    ensures item != [] && IsDigit(item[0]) ==> r != []
  {
    if AllSpace(item) then []
    else
      match DigitsAt(item, 0)
      case Some(d) => d
      case None => []
  }

  /** A leading digit run is the item number: "21" gives "21", "6/L1" gives "6". */
  lemma ItemNumberLeading(d: string, rest: string)
    requires d != [] && AllDigits(d)
    requires rest == [] || !IsDigit(rest[0])
    ensures ItemNumberNumeric(d + rest) == d
  {
    var s := d + rest;
    assert IsDigit(s[0]);
    var r := ItemNumberNumeric(s);
    assert s[..|d|] == d;
    assert |d| < |s| ==> s[|d|] == rest[0];
    assert r != [];
    assert forall j :: 0 <= j < |d| ==> s[j] == d[j];
    assert |r| == |d|;
  }

  // ---------------------------------------------------------------------------
  // Cutting the page at "Court No :"

  const CourtMarker := "Court No"

  /** `Court No\s*:` at i: the end of the marker. */
  function MarkerAt(s: string, i: nat): (r: Option<nat>)
    ensures r.Some? ==> i + 9 <= r.value <= |s| && OccursAt(s, CourtMarker, i)
  {
    if OccursAt(s, CourtMarker, i) then
      var a := SpaceRunEnd(s, i + 8);
      if a < |s| && s[a] == ':' then Some(a + 1) else None
    else None
  }

  /** re.split(r'Court No\s*:', s): the text between consecutive markers, with the
      text before the first and after the last. */
  function SplitAtMarkers(s: string): (r: seq<string>)
    ensures |r| >= 1
    decreases |s|
  {
    match Search(s, 0, MarkerAt)
    case None => [s]
    case Some(h) => [s[..h.at]] + SplitAtMarkers(s[h.group..])
  }

  /** The court sections: every piece after the first. */
  function Sections(page: string): seq<string> {
    SplitAtMarkers(page)[1..]
  }

  /** A page written as a preface and sections each introduced by "Court No :" */
  function Page(preface: string, sections: seq<string>): string
    decreases |sections|
  {
    if sections == [] then preface
    else preface + "Court No :" + Page(sections[0], sections[1..])
  }

  /** Text in which no marker can start. */
  predicate NoMarker(b: string) { !Contains(b, CourtMarker) }

  /** "Court No" has no border: no proper suffix of it is also a prefix, so an
      occurrence cannot straddle the start of a marker written after a text. */
  lemma NoStraddle(b: string, t: string, j: nat)
    requires j < |b| && NoMarker(b) && |t| >= 8 && t[..8] == CourtMarker
    ensures !OccursAt(b + t, CourtMarker, j)
  {
    var s := b + t;
    if j + 8 <= |b| {
      assert s[j..j + 8] == b[j..j + 8];
      assert !OccursAt(b, CourtMarker, j);
    } else {
      assert s[|b|] == 'C';
      assert forall k :: 0 < k < 8 ==> CourtMarker[k] != 'C';
      assert s[j..j + 8][|b| - j] == s[|b|];
    }
  }

  /** Cutting a written page gives back its preface and its sections. */
  lemma {:induction false} SplitPage(preface: string, sections: seq<string>)
    requires NoMarker(preface) && forall i :: 0 <= i < |sections| ==> NoMarker(sections[i])
    ensures SplitAtMarkers(Page(preface, sections)) == [preface] + sections
    decreases |sections|
  {
    if sections == [] {
      NoMarkerNoCut(preface);
    } else {
      var tail := Page(sections[0], sections[1..]);
      MarkerCut(preface, tail);
      SplitPage(sections[0], sections[1..]);
      assert [sections[0]] + sections[1..] == sections;
    }
  }

  /** A text without a marker is not cut. */
  lemma NoMarkerNoCut(s: string)
    requires NoMarker(s)
    ensures SplitAtMarkers(s) == [s]
  {
    forall j | 0 <= j <= |s| ensures MarkerAt(s, j).None? {
      if j < |s| {
        assert !OccursAt(s, CourtMarker, j);
      }
    }
  }

  /** The first cut of preface + "Court No :" + tail falls right after the preface,
      when the preface holds no marker. */
  lemma MarkerCut(preface: string, tail: string)
    requires NoMarker(preface)
    ensures SplitAtMarkers(preface + "Court No :" + tail) == [preface] + SplitAtMarkers(tail)
  {
    var s := preface + "Court No :" + tail;
    var k := |preface|;
    FirstMarker(preface, tail);
    assert s[..k] == preface;
    assert s[k + 10..] == tail;
  }

  lemma FirstMarker(preface: string, tail: string)
    requires NoMarker(preface)
    ensures Search(preface + "Court No :" + tail, 0, MarkerAt) == Some(Hit(|preface|, |preface| + 10))
  {
    var t := "Court No :" + tail;
    var s := preface + t;
    assert s == preface + "Court No :" + tail;
    var k := |preface|;
    assert t[..8] == CourtMarker;
    forall j | 0 <= j < k ensures MarkerAt(s, j).None? {
      NoStraddle(preface, t, j);
    }
    assert s[k..k + 8] == CourtMarker;
    assert s[k + 8] == ' ' && s[k + 9] == ':';
    SpaceRunIs(s, k + 8, k + 9);
    SearchAt(s, MarkerAt, k, k + 10);
  }

  /** The sections of a written page are the sections it was written from. */
  lemma SectionsOfPage(preface: string, sections: seq<string>)
    requires NoMarker(preface) && forall i :: 0 <= i < |sections| ==> NoMarker(sections[i])
    ensures Sections(Page(preface, sections)) == sections
  {
    SplitPage(preface, sections);
  }

  // ---------------------------------------------------------------------------
  // One section

  /** `\s*(\d+)` matched at the start of a section: the court number. */
  function CourtNoAtStart(section: string): (r: Option<string>)
    ensures r.Some? ==> r.value != [] && AllDigits(r.value)
  {
    DigitsAt(section, SpaceRunEnd(section, 0))
  }

  predicate IsItemChar(c: char) { IsDigit(c) || c == '/' || c == 'L' }

  /** End of the maximal run of `[\d/L]` that starts at i. */
  function ItemRunEnd(s: string, i: nat): (e: nat)
    requires i <= |s|
    ensures i <= e <= |s|
    ensures forall k :: i <= k < e ==> IsItemChar(s[k])
    ensures e == |s| || !IsItemChar(s[e])
    decreases |s| - i
  {
    if i < |s| && IsItemChar(s[i]) then ItemRunEnd(s, i + 1) else i
  }

  /** `Item No\s*:\s*([\d/L]+)` at i. */
  function ItemAt(s: string, i: nat): (r: Option<string>)
    ensures r.Some? ==> r.value != [] && forall k :: 0 <= k < |r.value| ==> IsItemChar(r.value[k])
  {
    if OccursAt(s, "Item No", i) then
      var a := SpaceRunEnd(s, i + 7);
      if a < |s| && s[a] == ':' then
        var b := SpaceRunEnd(s, a + 1);
        var e := ItemRunEnd(s, b);
        if e > b then Some(s[b..e]) else None
      else None
    else None
  }

  /** `(\d+/\d+)` at i. */
  function DigitsSlashDigitsAt(s: string, i: nat): (r: Option<string>)
    ensures r.Some? ==> i < |s| && IsDigit(s[i]) && |r.value| <= |s| - i && r.value == s[i..i + |r.value|]
    ensures r.Some? ==> '/' in r.value && NoSpace(r.value)
  {
    if i < |s| && IsDigit(s[i]) then
      var e := DigitRunEnd(s, i);
      if e < |s| && s[e] == '/' then
        var f := DigitRunEnd(s, e + 1);
        if f > e + 1 then
          assert s[i..f][e - i] == '/';
          assert forall k :: i <= k < f ==> IsDigit(s[k]) || s[k] == '/';
          Some(s[i..f])
        else None
      else None
    else None
  }

  /** The case-number prefixes, in the order the alternation lists them. No two of them
      can match at the same place, so the first that matches is the only one. */
  const CasePrefixes: seq<string> := ["WP", "CRL", "SA", "OP", "WRIT", "MA", "CS", "OSA", "COC"]

  /** p at i ignoring letter case. */
  predicate OccursAtNoCase(s: string, p: string, i: nat) {
    i + |p| <= |s| && Lower(s[i..i + |p|]) == Lower(p)
  }

  /** End of the first listed prefix found at i. */
  function PrefixEnd(s: string, i: nat, ps: seq<string>): (r: Option<nat>)
    ensures r.Some? ==> i < r.value <= |s|
    decreases |ps|
  {
    if ps == [] then None
    else if ps[0] != [] && OccursAtNoCase(s, ps[0], i) then Some(i + |ps[0]|)
    else PrefixEnd(s, i, ps[1..])
  }

  predicate IsDotOrSpace(c: char) { c == '.' || IsSpace(c) }

  /** End of the maximal run of `[.\s]` that starts at i. */
  function DotSpaceRunEnd(s: string, i: nat): (e: nat)
    requires i <= |s|
    ensures i <= e <= |s|
    ensures e == |s| || !IsDotOrSpace(s[e])
    decreases |s| - i
  {
    if i < |s| && IsDotOrSpace(s[i]) then DotSpaceRunEnd(s, i + 1) else i
  }

  /** `((?:WP|CRL|SA|OP|WRIT|MA|CS|OSA|COC)[.\s]*\d+/\d+)` at i, ignoring case: the
      match and where its digits begin. */
  function PrefixedCaseAt(s: string, i: nat): (r: Option<(string, nat)>)
    ensures r.Some? ==> r.value.1 <= |s| && DigitsSlashDigitsAt(s, r.value.1).Some?
  {
    match PrefixEnd(s, i, CasePrefixes)
    case None => None
    case Some(p) =>
      var a := DotSpaceRunEnd(s, p);
      match DigitsSlashDigitsAt(s, a)
      case None => None
      case Some(t) => Some((s[i..a + |t|], a))
  }

  /** The case token of a section: the prefixed form, else a bare digits/digits. */
  function CaseToken(section: string): (r: Option<string>)
  {
    match Search(section, 0, PrefixedCaseAt)
    case Some(h) => Some(h.group.0)
    case None => SearchGroup(section, DigitsSlashDigitsAt)
  }

  /** A section has a case token exactly when it holds digits, a slash and digits. */
  lemma CaseTokenIffDigitsSlashDigits(section: string)
    ensures CaseToken(section).Some? <==> SearchGroup(section, DigitsSlashDigitsAt).Some?
  {
    var h := Search(section, 0, PrefixedCaseAt);
    if h.Some? {
      var a := h.value.group.1;
      assert DigitsSlashDigitsAt(section, a).Some?;
    }
  }

  /** The record of one section, when it has a court number, an item token and a case
      token; the stored full case has its whitespace removed. */
  function SectionRecord(section: string, time: string): (r: Option<Record>)
    ensures r.Some? <==> CourtNoAtStart(section).Some? && SearchGroup(section, ItemAt).Some?
                         && SearchGroup(section, DigitsSlashDigitsAt).Some?
    ensures r.Some? ==> NoSpace(r.value.caseFull) && r.value.bench == BenchName
    ensures r.Some? ==> r.value.courtNo == CourtNoAtStart(section).value
    ensures r.Some? ==> r.value.itemNo == ItemNumberNumeric(SearchGroup(section, ItemAt).value)
    ensures r.Some? ==> r.value.caseNumber == CaseNumberNumeric(r.value.caseFull)
  {
    CaseTokenIffDigitsSlashDigits(section);
    match CourtNoAtStart(section)
    case None => None
    case Some(courtNo) =>
      match SearchGroup(section, ItemAt)
      case None => None
      case Some(itemFull) =>
        match CaseToken(section)
        case None => None
        case Some(token) =>
          var caseFull := RemoveSpaces(Strip(token));
          Some(Record(BenchName, courtNo, ItemNumberNumeric(itemFull), CaseNumberNumeric(caseFull), caseFull, time))
  }

  function Decoder(time: string): string -> seq<Record> {
    (section: string) => match SectionRecord(section, time) case Some(r) => [r] case None => []
  }

  /** The records of the page, section by section. */
  function Scrape(page: string, time: string): seq<Record> {
    FlatMap(Sections(page), Decoder(time))
  }

  /** The `for section in court_sections[1:]` loop. */
  method ScrapeDisplayBoard(page: string, time: string) returns (recs: seq<Record>)
    ensures recs == Scrape(page, time)
  {
    var sections := Sections(page);
    recs := [];
    for i := 0 to |sections|
      invariant recs == FlatMap(sections[..i], Decoder(time))
    {
      FlatMapSnoc(sections, i, Decoder(time));
      var r := SectionRecord(sections[i], time);
      if r.Some? {
        recs := recs + [r.value];
      }
    }
    assert sections[..|sections|] == sections;
  }

  /** At most one record per section, and none from the text before the first
      marker. */
  lemma ScrapeBound(page: string, time: string)
    ensures |Scrape(page, time)| <= |SplitAtMarkers(page)| - 1
  {
    FlatMapBound(Sections(page), Decoder(time), 1);
  }

  /** The stored full case numbers hold no whitespace. */
  lemma ScrapedCasesUnspaced(page: string, time: string)
    ensures forall k :: 0 <= k < |Scrape(page, time)| ==> NoSpace(Scrape(page, time)[k].caseFull)
  {
    var sections := Sections(page);
    forall k | 0 <= k < |Scrape(page, time)| ensures NoSpace(Scrape(page, time)[k].caseFull) {
      FlatMapOrigin(sections, Decoder(time), k);
      var i :| 0 <= i < |sections| && Scrape(page, time)[k] in Decoder(time)(sections[i]);
      DecodedUnspaced(sections[i], time);
    }
  }

  lemma DecodedUnspaced(section: string, time: string)
    ensures forall r :: r in Decoder(time)(section) ==> NoSpace(r.caseFull)
  {
  }

  // ---------------------------------------------------------------------------
  // post_court_data_to_api

  /** The body posted: serialNumber int(Item No) or 0, the full case as the stage. */
  function ToPayload(r: Record): (p: Ingest.Payload)
    ensures p.serialNumber == IntOrZero(r.itemNo) && p.listNumber == Some(0)
    ensures p.benchName == BenchName && p.courtHallNumber == r.courtNo && p.caseNumber == r.caseNumber
    ensures p.note == r.caseFull
  {
    Ingest.Payload(BenchName, r.courtNo, r.caseNumber, IntOrZero(r.itemNo), r.caseFull, Some(0))
  }

  /** An item number scraped from "6/L1" posts serialNumber 6. */
  lemma PayloadSerialOfItem(n: nat, rest: string)
    requires rest == [] || !IsDigit(rest[0])
    ensures IntOrZero(ItemNumberNumeric(NatToString(n) + rest)) == n
  {
    ItemNumberLeading(NatToString(n), rest);
    IntOrZeroRoundTrip(n);
  }

  /** What an error entry records: court and case number. */
  function ErrorKey(r: Record): (k: (string, string))
    ensures k.0 == r.courtNo && k.1 == r.caseNumber
  {
    (r.courtNo, r.caseNumber)
  }
}
