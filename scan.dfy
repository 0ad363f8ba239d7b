/** Python `re.search` for the handful of patterns the scrapers share. A pattern is a
    matcher `m(s, i)` that says whether the pattern matches starting exactly at i and,
    if so, what its group captured; `Search` tries positions left to right and keeps
    the first success, which is Python's leftmost-match rule. Each matcher below is
    written so that Python's backtracking could not find a different match at i. */
module Scan {
  import opened Text

  datatype Hit<T> = Hit(at: nat, group: T)

  /** The leftmost position at or after `from` where `m` matches, with its capture. */
  function Search<T>(s: string, from: nat, m: (string, nat) -> Option<T>): (r: Option<Hit<T>>)
    requires from <= |s|
    ensures r.Some? ==> from <= r.value.at <= |s| && m(s, r.value.at) == Some(r.value.group)
    ensures r.Some? ==> forall j :: from <= j < r.value.at ==> m(s, j).None?
    ensures r.None? ==> forall j :: from <= j <= |s| ==> m(s, j).None?
    decreases |s| - from
  {
    match m(s, from)
    case Some(g) => Some(Hit(from, g))
    case None => if from == |s| then None else Search(s, from + 1, m)
  }

  /** The capture of the leftmost match, if any. */
  function SearchGroup<T>(s: string, m: (string, nat) -> Option<T>): (r: Option<T>)
    ensures r.Some? <==> exists j :: 0 <= j <= |s| && m(s, j).Some?
  {
    var h := Search(s, 0, m);
    if h.Some? then Some(h.value.group) else None
  }

  /** Pins down a leftmost match: a match at k with none before it is what
      SearchGroup returns. */
  lemma SearchGroupAt<T>(s: string, m: (string, nat) -> Option<T>, k: nat, g: T)
    requires k <= |s| && m(s, k) == Some(g)
    requires forall j :: 0 <= j < k ==> m(s, j).None?
    ensures SearchGroup(s, m) == Some(g)
  {
    var h := Search(s, 0, m);
    assert h.Some?;
    assert h.value.at == k;
  }

  /** The same for the hit itself. */
  lemma SearchAt<T>(s: string, m: (string, nat) -> Option<T>, k: nat, g: T)
    requires k <= |s| && m(s, k) == Some(g)
    requires forall j :: 0 <= j < k ==> m(s, j).None?
    ensures Search(s, 0, m) == Some(Hit(k, g))
  {
    var h := Search(s, 0, m);
    assert h.Some?;
    assert h.value.at == k;
  }

  /** A digit run that the text delimits is the maximal run DigitRunEnd finds. */
  lemma DigitRunIs(s: string, i: nat, e: nat)
    requires i <= e <= |s|
    requires forall k :: i <= k < e ==> IsDigit(s[k])
    requires e == |s| || !IsDigit(s[e])
    ensures DigitRunEnd(s, i) == e
    decreases e - i
  {
    if i < e {
      DigitRunIs(s, i + 1, e);
    }
  }

  /** A digit run read from a prefix ends at the same place once text is appended,
      when the run stops inside the prefix or the appended text does not start with
      a digit. */
  lemma DigitRunStable(p: string, t: string, a: nat)
    requires a <= |p|
    requires DigitRunEnd(p, a) < |p| || t == [] || !IsDigit(t[0])
    ensures DigitRunEnd(p + t, a) == DigitRunEnd(p, a)
  {
    var s := p + t;
    var e := DigitRunEnd(p, a);
    assert forall k :: a <= k < e ==> s[k] == p[k];
    assert e < |p| ==> s[e] == p[e];
    assert e == |p| && t != [] ==> s[e] == t[0];
    DigitRunIs(s, a, e);
  }

  /** No position matches: SearchGroup finds nothing. */
  lemma SearchGroupNone<T>(s: string, m: (string, nat) -> Option<T>)
    requires forall j :: 0 <= j <= |s| ==> m(s, j).None?
    ensures SearchGroup(s, m) == None
  {
  }

  // ---------------------------------------------------------------------------
  // Matchers

  /** `\d+` at i: the maximal digit run starting at i. */
  function DigitsAt(s: string, i: nat): (r: Option<string>)
    ensures r.Some? ==> i < |s| && IsDigit(s[i]) && r.value == s[i..DigitRunEnd(s, i)]
    ensures r.None? ==> i >= |s| || !IsDigit(s[i])
  {
    if i < |s| && IsDigit(s[i]) then Some(s[i..DigitRunEnd(s, i)]) else None
  }

  /** `/(\d+)/` at i. */
  function SlashDigitsSlashAt(s: string, i: nat): Option<string> {
    if i < |s| && s[i] == '/' then
      var e := DigitRunEnd(s, i + 1);
      if e > i + 1 && e < |s| && s[e] == '/' then Some(s[i + 1..e]) else None
    else None
  }

  /** `/(\d+)` at i. */
  function SlashDigitsAt(s: string, i: nat): Option<string> {
    if i < |s| && s[i] == '/' then
      var e := DigitRunEnd(s, i + 1);
      if e > i + 1 then Some(s[i + 1..e]) else None
    else None
  }

  /** `\b(\d+)\b` at i: a digit run with no word character on either side. */
  function StandaloneAt(s: string, i: nat): Option<string> {
    if i < |s| && IsDigit(s[i]) && (i == 0 || !IsWordChar(s[i - 1])) then
      var e := DigitRunEnd(s, i);
      if e == |s| || !IsWordChar(s[e]) then Some(s[i..e]) else None
    else None
  }

  // `/\s*(\d+)\s*/` at i.
  function SpacedSlashDigitsSlashAt(s: string, i: nat): Option<string> {
    if i < |s| && s[i] == '/' then
      var a := SpaceRunEnd(s, i + 1);
      var e := DigitRunEnd(s, a);
      var f := SpaceRunEnd(s, e);
      if e > a && f < |s| && s[f] == '/' then Some(s[a..e]) else None
    else None
  }

  // ---------------------------------------------------------------------------
  // What the shared matchers capture

  /** Every shared matcher captures a non-empty run of digits. */
  lemma MatchersCaptureDigits(s: string, i: nat)
    ensures DigitsAt(s, i).Some? ==> DigitsAt(s, i).value != [] && AllDigits(DigitsAt(s, i).value)
    ensures SlashDigitsSlashAt(s, i).Some? ==> SlashDigitsSlashAt(s, i).value != [] && AllDigits(SlashDigitsSlashAt(s, i).value)
    ensures SlashDigitsAt(s, i).Some? ==> SlashDigitsAt(s, i).value != [] && AllDigits(SlashDigitsAt(s, i).value)
    ensures StandaloneAt(s, i).Some? ==> StandaloneAt(s, i).value != [] && AllDigits(StandaloneAt(s, i).value)
    ensures SpacedSlashDigitsSlashAt(s, i).Some? ==> SpacedSlashDigitsSlashAt(s, i).value != [] && AllDigits(SpacedSlashDigitsSlashAt(s, i).value)
  {
  }

  /** A first match of one of the shared matchers is a non-empty digit run. */
  lemma SearchCapturesDigits(s: string, m: (string, nat) -> Option<string>)
    requires m == DigitsAt || m == SlashDigitsSlashAt || m == SlashDigitsAt || m == StandaloneAt || m == SpacedSlashDigitsSlashAt
    ensures SearchGroup(s, m).Some? ==> SearchGroup(s, m).value != [] && AllDigits(SearchGroup(s, m).value)
  {
    var h := Search(s, 0, m);
    if h.Some? {
      MatchersCaptureDigits(s, h.value.at);
    }
  }

  /** A text without digits matches none of the shared matchers. */
  lemma NoDigitsNoMatch(s: string, m: (string, nat) -> Option<string>)
    requires forall k :: 0 <= k < |s| ==> !IsDigit(s[k])
    requires m == DigitsAt || m == SlashDigitsSlashAt || m == SlashDigitsAt || m == StandaloneAt || m == SpacedSlashDigitsSlashAt
    ensures SearchGroup(s, m) == None
  {
    forall j | 0 <= j <= |s| ensures m(s, j).None? {
      MatchersCaptureDigits(s, j);
    }
  }

  /** A digit run whose neighbours are not word characters is found as a standalone
      number when it is the first digit in the text. */
  lemma StandaloneFirstRun(pre: string, d: string, post: string)
    requires forall k :: 0 <= k < |pre| ==> !IsDigit(pre[k])
    requires d != [] && AllDigits(d)
    requires pre == [] || !IsWordChar(pre[|pre| - 1])
    requires post == [] || !IsWordChar(post[0])
    ensures SearchGroup(pre + d + post, StandaloneAt) == Some(d)
  {
    var s := pre + d + post;
    var k := |pre|;
    var e := k + |d|;
    assert forall j :: 0 <= j < k ==> s[j] == pre[j];
    assert forall j :: k <= j < e ==> s[j] == d[j - k];
    assert e < |s| ==> s[e] == post[0];
    assert s[k..e] == d;
    StandaloneRunAt(s, k, e);
  }

  /** A digit run delimited by non-word characters, with no digit before it, is the
      standalone number found. */
  lemma StandaloneRunAt(s: string, k: nat, e: nat)
    requires k < e <= |s|
    requires forall j :: 0 <= j < k ==> !IsDigit(s[j])
    requires forall j :: k <= j < e ==> IsDigit(s[j])
    requires k == 0 || !IsWordChar(s[k - 1])
    requires e == |s| || !IsWordChar(s[e])
    ensures SearchGroup(s, StandaloneAt) == Some(s[k..e])
  {
    assert DigitRunEnd(s, k) == e;
    assert StandaloneAt(s, k) == Some(s[k..e]);
    SearchGroupAt(s, StandaloneAt, k, s[k..e]);
  }

  /** s[k..e] is the first `\b(\d+)\b` run of s: a digit run with non-word characters
      (or the ends of s) on both sides, and no such run starting before k. Digits may
      occur before k, inside longer words such as "WRIC2024". */
  predicate FirstStandaloneRun(s: string, k: nat, e: nat) {
    && k < e <= |s|
    && (forall j :: k <= j < e ==> IsDigit(s[j]))
    && (k == 0 || !IsWordChar(s[k - 1]))
    && (e == |s| || !IsWordChar(s[e]))
    && (forall j :: 0 <= j < k ==> StandaloneAt(s, j).None?)
  }

  /** The first standalone run is what the `\b(\d+)\b` search captures. */
  lemma FirstStandaloneFound(s: string, k: nat, e: nat)
    requires FirstStandaloneRun(s, k, e)
    ensures SearchGroup(s, StandaloneAt) == Some(s[k..e])
  {
    DigitRunIs(s, k, e);
    assert StandaloneAt(s, k) == Some(s[k..e]);
    SearchGroupAt(s, StandaloneAt, k, s[k..e]);
  }
}
