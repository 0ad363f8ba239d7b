/** Character classes and the Python string primitives the scrapers lean on:
    str.strip(), `in`, str.split(sep), str.lower()/upper(), re.sub(r'\s+', ' ', ...)
    and int(text), all over `string` (= seq<char>). */
module Text {

  datatype Option<T> = None | Some(value: T)

  /** An ASCII decimal digit: what `\d` matches in the scrapers' patterns. */
  predicate IsDigit(c: char) { '0' <= c <= '9' }

  predicate IsUpper(c: char) { 'A' <= c <= 'Z' }

  predicate IsLower(c: char) { 'a' <= c <= 'z' }

  /** A character of `\w`, which decides where Python's `\b` sits. */
  predicate IsWordChar(c: char) { IsDigit(c) || IsUpper(c) || IsLower(c) || c == '_' }

  /** Python's str.isspace(), which is also the set `\s` matches and str.strip() removes. */
  predicate IsSpace(c: char) {
    c == ' ' || '\t' <= c <= '\r' || '\U{1c}' <= c <= '\U{1f}' || c == '\U{85}' || c == '\U{a0}'
    || c == '\U{1680}' || '\U{2000}' <= c <= '\U{200a}' || c == '\U{2028}' || c == '\U{2029}'
    || c == '\U{202f}' || c == '\U{205f}' || c == '\U{3000}'
  }

  predicate AllDigits(s: string) { forall i :: 0 <= i < |s| ==> IsDigit(s[i]) }

  predicate AllSpace(s: string) { forall i :: 0 <= i < |s| ==> IsSpace(s[i]) }

  predicate NoSpace(s: string) { forall i :: 0 <= i < |s| ==> !IsSpace(s[i]) }

  // ---------------------------------------------------------------------------
  // Runs of one character class

  /** End of the maximal run of digits that starts at i. */
  function DigitRunEnd(s: string, i: nat): (e: nat)
    requires i <= |s|
    ensures i <= e <= |s|
    ensures forall k :: i <= k < e ==> IsDigit(s[k])
    ensures e == |s| || !IsDigit(s[e])
    decreases |s| - i
  {
    if i < |s| && IsDigit(s[i]) then DigitRunEnd(s, i + 1) else i
  }

  /** End of the maximal run of upper-case letters that starts at i. */
  function UpperRunEnd(s: string, i: nat): (e: nat)
    requires i <= |s|
    ensures i <= e <= |s|
    ensures forall k :: i <= k < e ==> IsUpper(s[k])
    ensures e == |s| || !IsUpper(s[e])
    decreases |s| - i
  {
    if i < |s| && IsUpper(s[i]) then UpperRunEnd(s, i + 1) else i
  }

  /** End of the maximal run of whitespace that starts at i. */
  function SpaceRunEnd(s: string, i: nat): (e: nat)
    requires i <= |s|
    ensures i <= e <= |s|
    ensures forall k :: i <= k < e ==> IsSpace(s[k])
    ensures e == |s| || !IsSpace(s[e])
    decreases |s| - i
  {
    if i < |s| && IsSpace(s[i]) then SpaceRunEnd(s, i + 1) else i
  }

  /** A whitespace run that the text delimits is the maximal run SpaceRunEnd finds. */
  lemma SpaceRunIs(s: string, i: nat, e: nat)
    requires i <= e <= |s|
    requires forall k :: i <= k < e ==> IsSpace(s[k])
    requires e == |s| || !IsSpace(s[e])
    ensures SpaceRunEnd(s, i) == e
    decreases e - i
  {
    if i < e {
      SpaceRunIs(s, i + 1, e);
    }
  }

  /** End of the run of characters other than c that starts at i: `[^c]*` at i, which
      stops at the first c or at the end of the text. */
  function UntilChar(s: string, i: nat, c: char): (e: nat)
    requires i <= |s|
    ensures i <= e <= |s|
    ensures forall k :: i <= k < e ==> s[k] != c
    ensures e == |s| || s[e] == c
    decreases |s| - i
  {
    if i < |s| && s[i] != c then UntilChar(s, i + 1, c) else i
  }

  /** Start of the maximal run of whitespace that ends at j, not going below lo. */
  function SpaceTailStart(s: string, lo: nat, j: nat): (b: nat)
    requires lo <= j <= |s|
    ensures lo <= b <= j
    ensures forall k :: b <= k < j ==> IsSpace(s[k])
    ensures b == lo || !IsSpace(s[b - 1])
    decreases j
  {
    if j > lo && IsSpace(s[j - 1]) then SpaceTailStart(s, lo, j - 1) else j
  }

  // ---------------------------------------------------------------------------
  // str.strip()

  /** Python's str.strip() with no argument: drops leading and trailing whitespace. */
  function Strip(s: string): (r: string)
    ensures r == [] || (!IsSpace(r[0]) && !IsSpace(r[|r| - 1]))
    ensures r == [] <==> AllSpace(s)
    ensures |r| <= |s|
  {
    var a := SpaceRunEnd(s, 0);
    var b := SpaceTailStart(s, a, |s|);
    assert a == |s| ==> AllSpace(s);
    assert a < |s| ==> a < b && !AllSpace(s);
    s[a..b]
  }

  /** Strip removes exactly whitespace padding: a text whose ends are not whitespace,
      padded on both sides with whitespace, strips back to itself. */
  lemma {:induction false} StripPadded(pre: string, x: string, post: string)
    requires AllSpace(pre) && AllSpace(post)
    requires x == [] || (!IsSpace(x[0]) && !IsSpace(x[|x| - 1]))
    ensures Strip(pre + x + post) == x
  {
    var s := pre + x + post;
    if x == [] {
      assert AllSpace(s) by {
        forall k | 0 <= k < |s| ensures IsSpace(s[k]) {
          if k < |pre| { assert s[k] == pre[k]; } else { assert s[k] == post[k - |pre|]; }
        }
      }
    } else {
      var a := SpaceRunEnd(s, 0);
      assert s[|pre|] == x[0];
      assert a == |pre|;
      var b := SpaceTailStart(s, a, |s|);
      assert s[|pre| + |x| - 1] == x[|x| - 1];
      assert b == |pre| + |x|;
      assert s[a..b] == x;
    }
  }

  lemma StripNoPadding(x: string)
    requires x == [] || (!IsSpace(x[0]) && !IsSpace(x[|x| - 1]))
    ensures Strip(x) == x
  {
    StripPadded([], x, []);
    assert [] + x + [] == x;
  }

  /** Stripping twice is stripping once. */
  lemma StripIdempotent(s: string)
    ensures Strip(Strip(s)) == Strip(s)
  {
    StripNoPadding(Strip(s));
  }

  // ---------------------------------------------------------------------------
  // Substrings: the `in` operator and str.find

  predicate OccursAt(s: string, p: string, i: nat) {
    i + |p| <= |s| && s[i..i + |p|] == p
  }

  /** Python's `p in s` for strings. */
  predicate Contains(s: string, p: string) {
    exists i | 0 <= i <= |s| - |p| :: OccursAt(s, p, i)
  }

  /** The first occurrence of p in s at or after from: Python's s.find(p, from). */
  function IndexOf(s: string, p: string, from: nat): (r: Option<nat>)
    requires from <= |s|
    ensures r.Some? ==> from <= r.value && OccursAt(s, p, r.value)
    ensures r.Some? ==> forall j :: from <= j < r.value ==> !OccursAt(s, p, j)
    ensures r.None? ==> forall j :: from <= j <= |s| ==> !OccursAt(s, p, j)
    decreases |s| - from
  {
    if OccursAt(s, p, from) then Some(from)
    else if from == |s| then None
    else IndexOf(s, p, from + 1)
  }

  lemma IndexOfContains(s: string, p: string)
    ensures IndexOf(s, p, 0).Some? <==> Contains(s, p)
  {
    if Contains(s, p) {
      var i :| 0 <= i <= |s| - |p| && OccursAt(s, p, i);
      assert !IndexOf(s, p, 0).None?;
    }
  }

  /** A pattern embedded in a text is found in it. */
  lemma ContainsEmbedded(pre: string, p: string, post: string)
    ensures Contains(pre + p + post, p)
  {
    var s := pre + p + post;
    assert s[|pre|..|pre| + |p|] == p;
    assert OccursAt(s, p, |pre|);
  }

  // ---------------------------------------------------------------------------
  // str.split(sep) for a one-character separator, and its inverse

  /** The first position at or after from that holds c: Python's s.find(c, from),
      with None for -1. */
  function FindChar(s: string, c: char, from: nat): (r: Option<nat>)
    requires from <= |s|
    ensures r.Some? ==> from <= r.value < |s| && s[r.value] == c
    ensures r.Some? ==> forall j :: from <= j < r.value ==> s[j] != c
    ensures r.None? ==> forall j :: from <= j < |s| ==> s[j] != c
    decreases |s| - from
  {
    if from == |s| then None
    else if s[from] == c then Some(from)
    else FindChar(s, c, from + 1)
  }

  function Split(s: string, sep: char): (r: seq<string>)
    ensures |r| >= 1
    ensures forall i :: 0 <= i < |r| ==> sep !in r[i]
    ensures sep !in s ==> r == [s]
    decreases |s|
  {
    match FindChar(s, sep, 0)
    case None => [s]
    case Some(n) =>
      assert forall j :: 0 <= j < n ==> s[..n][j] != sep;
      [s[..n]] + Split(s[n + 1..], sep)
  }

  /** Python's sep.join(parts). */
  function Join(parts: seq<string>, sep: char): string
    decreases |parts|
  {
    if |parts| == 0 then ""
    else if |parts| == 1 then parts[0]
    else parts[0] + [sep] + Join(parts[1..], sep)
  }

  /** Splitting loses nothing: joining the pieces back gives the text. */
  lemma {:induction false} SplitJoin(s: string, sep: char)
    ensures Join(Split(s, sep), sep) == s
    decreases |s|
  {
    match FindChar(s, sep, 0)
    case None =>
    case Some(n) =>
      var t := s[n + 1..];
      SplitJoin(t, sep);
      var rest := Split(t, sep);
      SplitFound(s, sep, n);
      JoinCons(s[..n], rest, sep);
      Around(s, n);
  }

  /** Past a first separator at n, splitting goes on with the text after it. */
  lemma SplitFound(s: string, sep: char, n: nat)
    requires FindChar(s, sep, 0) == Some(n)
    ensures Split(s, sep) == [s[..n]] + Split(s[n + 1..], sep)
  {
  }

  /** Concatenation regroups freely: what was gathered, then a step, then the rest. */
  lemma Regroup<T>(a: seq<T>, x: seq<T>, b: seq<T>)
    ensures a + (x + b) == (a + x) + b
  {
  }

  /** A text is what comes before position n, the character at n, and what follows. */
  lemma Around<T>(s: seq<T>, n: nat)
    requires n < |s|
    ensures s == s[..n] + [s[n]] + s[n + 1..]
  {
  }

  lemma JoinCons(p: string, rest: seq<string>, sep: char)
    requires |rest| >= 1
    ensures Join([p] + rest, sep) == p + [sep] + Join(rest, sep)
  {
    assert ([p] + rest)[1..] == rest;
  }

  /** The separator itself is the only character Join adds. */
  lemma {:induction false} JoinKeepsOut(parts: seq<string>, sep: char, c: char)
    requires |parts| >= 1 && c != sep
    requires forall i :: 0 <= i < |parts| ==> c !in parts[i]
    ensures c !in Join(parts, sep)
    decreases |parts|
  {
    if |parts| > 1 {
      JoinKeepsOut(parts[1..], sep, c);
    }
  }

  /** Join starts with the first piece and ends with the last one. */
  lemma {:induction false} JoinEnds(parts: seq<string>, sep: char)
    requires |parts| >= 1 && forall i :: 0 <= i < |parts| ==> parts[i] != []
    ensures Join(parts, sep) != []
    ensures Join(parts, sep)[0] == parts[0][0]
    ensures Join(parts, sep)[|Join(parts, sep)| - 1] == parts[|parts| - 1][|parts[|parts| - 1]| - 1]
    decreases |parts|
  {
    if |parts| > 1 {
      JoinEnds(parts[1..], sep);
    }
  }

  /** Splitting undoes joining when no piece holds the separator. */
  lemma {:induction false} JoinSplit(parts: seq<string>, sep: char)
    requires |parts| >= 1
    requires forall i :: 0 <= i < |parts| ==> sep !in parts[i]
    ensures Split(Join(parts, sep), sep) == parts
    decreases |parts|
  {
    if |parts| > 1 {
      var p := parts[0];
      var rest := Join(parts[1..], sep);
      FirstSeparator(p, sep, rest);
      SplitFound(p + [sep] + rest, sep, |p|);
      JoinSplit(parts[1..], sep);
      assert parts == [p] + parts[1..];
    }
  }

  /** In x + [sep] + y, when x has no separator, the first one is right after x. */
  lemma FirstSeparator(x: string, sep: char, y: string)
    requires sep !in x
    ensures var s := x + [sep] + y;
            FindChar(s, sep, 0) == Some(|x|) && s[..|x|] == x && s[|x| + 1..] == y
  {
    var s := x + [sep] + y;
    assert s[|x|] == sep;
    assert forall j :: 0 <= j < |x| ==> s[j] == x[j];
    assert s[..|x|] == x;
    assert s[|x| + 1..] == y;
  }

  /** The text before the first separator: Python's s.split(sep)[0]. */
  function BeforeFirst(s: string, sep: char): (r: string)
    ensures sep !in r
    ensures r == s || (|r| < |s| && s[..|r| + 1] == r + [sep])
  {
    match FindChar(s, sep, 0)
    case None => s
    case Some(n) =>
      assert forall j :: 0 <= j < n ==> s[..n][j] != sep;
      assert s[..n + 1] == s[..n] + [sep];
      s[..n]
  }

  /** The text before the first separator of x + [sep] + y, when x has none, is x. */
  lemma BeforeFirstOf(x: string, sep: char, y: string)
    requires sep !in x
    ensures BeforeFirst(x + [sep] + y, sep) == x
  {
    FirstSeparator(x, sep, y);
  }

  lemma BeforeFirstIsFirstPiece(s: string, sep: char)
    ensures BeforeFirst(s, sep) == Split(s, sep)[0]
  {
  }

  /** The text after the last separator: Python's s.split(sep)[-1]. */
  function AfterLast(s: string, sep: char): (r: string)
    ensures sep !in r
    ensures sep !in s ==> r == s
  {
    var parts := Split(s, sep);
    parts[|parts| - 1]
  }

  /** Splitting at a separator splits the text on each side of it. */
  lemma {:induction false} SplitAround(x: string, sep: char, y: string)
    ensures Split(x + [sep] + y, sep) == Split(x, sep) + Split(y, sep)
    decreases |x|
  {
    match FindChar(x, sep, 0)
    case None =>
      SplitAroundFree(x, sep, y);
    case Some(n) =>
      SplitAround(x[n + 1..], sep, y);
      SplitAroundStep(x, sep, y, n);
  }

  lemma SplitAroundFree(x: string, sep: char, y: string)
    requires FindChar(x, sep, 0).None?
    ensures Split(x + [sep] + y, sep) == Split(x, sep) + Split(y, sep)
  {
    assert sep !in x by {
      forall j | 0 <= j < |x| ensures x[j] != sep {}
    }
    FirstSeparator(x, sep, y);
    SplitFound(x + [sep] + y, sep, |x|);
  }

  lemma SplitAroundStep(x: string, sep: char, y: string, n: nat)
    requires FindChar(x, sep, 0) == Some(n)
    requires var t := x[n + 1..]; Split(t + [sep] + y, sep) == Split(t, sep) + Split(y, sep)
    ensures Split(x + [sep] + y, sep) == Split(x, sep) + Split(y, sep)
  {
    var t := x[n + 1..];
    SplitShapes(x, sep, y, n);
    Reassemble(Split(x + [sep] + y, sep), Split(x, sep), [x[..n]], Split(t + [sep] + y, sep), Split(t, sep), Split(y, sep));
  }

  /** What splitting x + [sep] + y and x give, past x's first separator at n. */
  lemma SplitShapes(x: string, sep: char, y: string, n: nat)
    requires FindChar(x, sep, 0) == Some(n)
    ensures Split(x + [sep] + y, sep) == [x[..n]] + Split(x[n + 1..] + [sep] + y, sep)
    ensures Split(x, sep) == [x[..n]] + Split(x[n + 1..], sep)
  {
    var s := x + [sep] + y;
    assert FindChar(s, sep, 0) == Some(n) by {
      assert forall j :: 0 <= j < |x| ==> s[j] == x[j];
    }
    assert s[..n] == x[..n];
    assert s[n + 1..] == x[n + 1..] + [sep] + y;
    SplitFound(s, sep, n);
    SplitFound(x, sep, n);
  }

  lemma Reassemble<T>(s: seq<T>, x: seq<T>, h: seq<T>, m: seq<T>, p: seq<T>, q: seq<T>)
    requires s == h + m && x == h + p && m == p + q
    ensures s == x + q
  {
    Regroup(h, p, q);
  }

  /** The text after the last separator of x + [sep] + y, when y has none, is y. */
  lemma AfterLastOf(x: string, sep: char, y: string)
    requires sep !in y
    ensures AfterLast(x + [sep] + y, sep) == y
  {
    SplitAround(x, sep, y);
  }

  /** Python's s.replace(c, "") for one character c. */
  function Remove(s: string, c: char): (r: string)
    ensures c !in r && |r| <= |s|
    ensures c !in s ==> r == s
    ensures forall x :: x in r <==> x in s && x != c
    decreases |s|
  {
    if s == [] then [] else if s[0] == c then Remove(s[1..], c) else [s[0]] + Remove(s[1..], c)
  }

  /** re.sub(r'\s+', '', s): s with every whitespace character dropped. */
  function RemoveSpaces(s: string): (r: string)
    ensures NoSpace(r) && |r| <= |s|
    ensures NoSpace(s) ==> r == s
    ensures forall x :: x in r <==> x in s && !IsSpace(x)
    decreases |s|
  {
    if s == [] then []
    else if IsSpace(s[0]) then RemoveSpaces(s[1..])
    else
      [s[0]] + RemoveSpaces(s[1..])
  }

  // ---------------------------------------------------------------------------
  // Case mapping (ASCII letters only)

  function LowerChar(c: char): char { if IsUpper(c) then (c as int + 32) as char else c }

  function UpperChar(c: char): char { if IsLower(c) then (c as int - 32) as char else c }

  /** Python's str.lower() on ASCII letters. */
  function Lower(s: string): (r: string)
    ensures |r| == |s| && forall i :: 0 <= i < |s| ==> r[i] == LowerChar(s[i])
  {
    seq(|s|, i requires 0 <= i < |s| => LowerChar(s[i]))
  }

  /** Python's str.upper() on ASCII letters. */
  function Upper(s: string): (r: string)
    ensures |r| == |s| && forall i :: 0 <= i < |s| ==> r[i] == UpperChar(s[i])
  {
    seq(|s|, i requires 0 <= i < |s| => UpperChar(s[i]))
  }

  // ---------------------------------------------------------------------------
  // re.sub(r'\s+', ' ', s)

  /** Replaces every maximal run of whitespace by one blank. */
  function CollapseSpaces(s: string): (r: string)
    ensures forall i :: 0 <= i < |r| && IsSpace(r[i]) ==> r[i] == ' '
    ensures forall i, j :: 0 <= i && j == i + 1 && j < |r| ==> !(IsSpace(r[i]) && IsSpace(r[j]))
    ensures |r| > 0 <==> |s| > 0
    ensures |s| > 0 ==> |r| > 0 && (IsSpace(r[0]) <==> IsSpace(s[0]))
    decreases |s|
  {
    if s == [] then []
    else if IsSpace(s[0]) then
      var e := SpaceRunEnd(s, 0);
      var t := s[e..];
      assert t != [] ==> !IsSpace(t[0]);
      [' '] + CollapseSpaces(t)
    else [s[0]] + CollapseSpaces(s[1..])
  }

  /** Text with no whitespace and a single blank between it and the next non-space
      character is left as it is. */
  predicate Collapsed(s: string) {
    (forall i :: 0 <= i < |s| && IsSpace(s[i]) ==> s[i] == ' ')
    && (forall i, j :: 0 <= i < |s| && j == i + 1 && j < |s| ==> !(IsSpace(s[i]) && IsSpace(s[j])))
  }

  lemma {:induction false} CollapseSpacesFixesCollapsed(s: string)
    requires Collapsed(s)
    ensures CollapseSpaces(s) == s
    decreases |s|
  {
    if s != [] {
      if IsSpace(s[0]) {
        var e := SpaceRunEnd(s, 0);
        assert e == SpaceRunEnd(s, 1);
        if |s| > 1 { assert !(IsSpace(s[0]) && IsSpace(s[1])); }
        assert e == 1;
        assert Collapsed(s[1..]);
        CollapseSpacesFixesCollapsed(s[1..]);
      } else {
        assert Collapsed(s[1..]);
        CollapseSpacesFixesCollapsed(s[1..]);
      }
    }
  }

  /** `re.sub(r'\s+', ' ', text).strip()`: the cleaned text of a cell. */
  function CleanText(s: string): (r: string)
    ensures s == [] ==> r == []
  {
    Strip(CollapseSpaces(s))
  }

  /** Clean text has no whitespace at its ends, and its only whitespace is single
      blanks. */
  lemma CleanTextIsClean(s: string)
    ensures Strip(CleanText(s)) == CleanText(s) && Collapsed(CleanText(s))
  {
    var c := CollapseSpaces(s);
    StripIdempotent(c);
    var a := SpaceRunEnd(c, 0);
    var b := SpaceTailStart(c, a, |c|);
    assert Strip(c) == c[a..b];
    assert forall i :: 0 <= i < b - a ==> c[a..b][i] == c[a + i];
  }

  /** Cleaning clean text changes nothing. */
  lemma CleanTextIdempotent(s: string)
    ensures CleanText(CleanText(s)) == CleanText(s)
  {
    CleanTextIsClean(s);
    CollapseSpacesFixesCollapsed(CleanText(s));
  }

  // ---------------------------------------------------------------------------
  // Decimal numerals and int(text)

  function DigitValue(c: char): nat
    requires IsDigit(c)
  {
    c as int - '0' as int
  }

  function DigitChar(d: nat): (c: char)
    requires d < 10
    ensures IsDigit(c) && DigitValue(c) == d
  {
    ('0' as int + d) as char
  }

  /** The value of a numeral of decimal digits; leading zeros allowed, "" reads as 0. */
  function Value(s: string): nat
    requires AllDigits(s)
    decreases |s|
  {
    if s == [] then 0 else Value(s[..|s| - 1]) * 10 + DigitValue(s[|s| - 1])
  }

  /** Python's str(n) for a non-negative int. */
  function NatToString(n: nat): (r: string)
    ensures |r| >= 1 && AllDigits(r)
    ensures Value(r) == n
    ensures |r| > 1 ==> r[0] != '0'
    decreases n
  {
    if n < 10 then [DigitChar(n)]
    else
      var p := NatToString(n / 10);
      var r := p + [DigitChar(n % 10)];
      assert r[..|r| - 1] == p;
      r
  }

  /** The body int() accepts after an optional sign: digits, with single underscores
      allowed only between two digits. */
  predicate UnderscoredDigits(b: string) {
    |b| > 0 && DigitsOrUnderscores(b)
    && forall i, j :: 0 <= i < |b| && j == i + 1 && b[i] == '_' ==> 0 < i && j < |b| && IsDigit(b[j])
  }

  predicate DigitsOrUnderscores(b: string) {
    forall i :: 0 <= i < |b| ==> IsDigit(b[i]) || b[i] == '_'
  }

  function DropUnderscores(b: string): (r: string)
    requires DigitsOrUnderscores(b)
    ensures AllDigits(r)
    ensures AllDigits(b) ==> r == b
    decreases |b|
  {
    if b == [] then [] else if b[0] == '_' then DropUnderscores(b[1..]) else [b[0]] + DropUnderscores(b[1..])
  }

  /** Python's int(text) in base 10: None where Python raises ValueError. */
  function PyInt(s: string): Option<int>
  {
    var t := Strip(s);
    if t == [] then None
    else
      var body := if t[0] == '-' || t[0] == '+' then t[1..] else t;
      if !UnderscoredDigits(body) then None
      else
        var v: int := Value(DropUnderscores(body));
        Some(if t[0] == '-' then -v else v)
  }

  /** int() reads a plain numeral as its value ... */
  lemma PyIntOfNumeral(d: string)
    requires d != [] && AllDigits(d)
    ensures PyInt(d) == Some(Value(d))
  {
    StripNoPadding(d);
    assert d[0] != '-' && d[0] != '+';
    assert UnderscoredDigits(d);
    assert DropUnderscores(d) == d;
  }

  /** ... and never reads text holding a character other than whitespace, a sign,
      a digit or '_'. */
  lemma PyIntRejects(s: string, i: nat)
    requires i < |s| && !IsSpace(s[i]) && !IsDigit(s[i]) && s[i] !in "+-_"
    ensures PyInt(s) == None
  {
    var a := SpaceRunEnd(s, 0);
    var b := SpaceTailStart(s, a, |s|);
    var t := Strip(s);
    assert t == s[a..b];
    if t != [] {
      assert a <= i < b;
      var body := if t[0] == '-' || t[0] == '+' then t[1..] else t;
      var j := if t[0] == '-' || t[0] == '+' then i - a - 1 else i - a;
      assert t[0] == s[a];
      assert 0 <= j < |body| && body[j] == s[i];
      assert !(IsDigit(body[j]) || body[j] == '_');
      assert !DigitsOrUnderscores(body);
    }
  }

  /** int(str(n)) == n: a number written with str() reads back unchanged. */
  lemma PyIntRoundTrip(n: nat)
    ensures PyInt(NatToString(n)) == Some(n)
  {
    PyIntOfNumeral(NatToString(n));
  }

  /** `int(text) if text else 0` guarded by `except ValueError: 0`, the serial-number
      conversion most sites use. */
  function IntOrZero(s: string): (r: int)
    ensures PyInt(s).Some? ==> r == PyInt(s).value
    ensures PyInt(s).None? ==> r == 0
  {
    if s == [] then 0
    else match PyInt(s)
      case Some(v) => v
      case None => 0
  }

  lemma IntOrZeroRoundTrip(n: nat)
    ensures IntOrZero(NatToString(n)) == n
  {
    PyIntRoundTrip(n);
  }
}
