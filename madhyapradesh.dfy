/** The Madhya Pradesh High Court display board, which the Gwalior and the Jabalpur
    scrapers read in the same way once their bench has been picked from the city list:
    the first table of class `board_id`, whose rows after the header are courts when
    their class mentions "record" and they have at least seven cells. */
module MadhyaPradesh {
  import opened Text
  import opened Dom

  // ---------------------------------------------------------------------------
  // extract_court_number

  /** The fallback of extract_court_number: the cell's text stripped, split at
      newlines, and the first piece stripped again. */
  function FallbackCourtNumber(text: string): (r: string)
    ensures '\n' !in r
  {
    var first := BeforeFirst(Strip(text), '\n');
    StripWithout(first, '\n');
    Strip(first)
  }

  /** The court number of a cell: the stripped text of the `font` inside its `strong`,
      or, when it has none, the fallback. */
  function CourtNumber(c: Cell): (r: string)
    ensures r == [] || (!IsSpace(r[0]) && !IsSpace(r[|r| - 1]))
    ensures c.strongFont.None? ==> '\n' !in r
  {
    match c.strongFont
    case Some(t) => Strip(t)
    case None => FallbackCourtNumber(c.text)
  }

  /** Stripping never brings in a character the text did not have. */
  lemma StripWithout(s: string, c: char)
    requires c !in s
    ensures c !in Strip(s)
  {
    var a := SpaceRunEnd(s, 0);
    var b := SpaceTailStart(s, a, |s|);
    assert forall k :: 0 <= k < b - a ==> s[a..b][k] == s[a + k];
  }

  /** The first of the lines that holds anything besides whitespace, stripped; ""
      when every line is blank. */
  function FirstFilled(lines: seq<string>): string
    decreases |lines|
  {
    if lines == [] then ""
    else if !AllSpace(lines[0]) then Strip(lines[0])
    else FirstFilled(lines[1..])
  }

  /** Whitespace in front of a text does not change what it strips to. */
  lemma StripSkipsBlank(sp: string, x: string)
    requires AllSpace(sp)
    ensures Strip(sp + x) == Strip(x)
  {
    var s := sp + x;
    if AllSpace(x) {
      assert AllSpace(s) by {
        forall k | 0 <= k < |s| ensures IsSpace(s[k]) {
          if k < |sp| { assert s[k] == sp[k]; } else { assert s[k] == x[k - |sp|]; }
        }
      }
    } else {
      var a := SpaceRunEnd(x, 0);
      var b := SpaceTailStart(x, a, |x|);
      assert Strip(x) == x[a..b];
      assert AllSpace(sp + x[..a]) by {
        forall k | 0 <= k < |sp| + a ensures IsSpace((sp + x[..a])[k]) {
          if k < |sp| { assert (sp + x[..a])[k] == sp[k]; } else { assert (sp + x[..a])[k] == x[k - |sp|]; }
        }
      }
      assert AllSpace(x[b..]) by {
        forall k | 0 <= k < |x| - b ensures IsSpace(x[b..][k]) { assert x[b..][k] == x[b + k]; }
      }
      assert s == (sp + x[..a]) + x[a..b] + x[b..];
      StripPadded(sp + x[..a], x[a..b], x[b..]);
    }
  }

  /** A text whose first non-blank character is at i and last at j - 1 strips to
      s[i..j]. */
  lemma StripBetween(s: string, i: nat, j: nat)
    requires i < j <= |s| && !IsSpace(s[i]) && !IsSpace(s[j - 1])
    requires forall k :: 0 <= k < i ==> IsSpace(s[k])
    requires forall k :: j <= k < |s| ==> IsSpace(s[k])
    ensures Strip(s) == s[i..j]
  {
    var pre, mid, post := s[..i], s[i..j], s[j..];
    assert forall k :: 0 <= k < |pre| ==> pre[k] == s[k];
    assert forall k :: 0 <= k < |post| ==> post[k] == s[j + k];
    assert mid[0] == s[i] && mid[|mid| - 1] == s[j - 1];
    assert s == pre + mid + post;
    StripPadded(pre, mid, post);
  }

  /** The first piece of s reaches at least to p when s has no newline before p, and
      stops at q when s has a newline there. */
  lemma BeforeFirstSpan(s: string, p: nat, q: nat)
    requires p <= q && p <= |s|
    requires forall k :: 0 <= k < p ==> s[k] != '\n'
    requires q < |s| ==> s[q] == '\n'
    ensures var r := BeforeFirst(s, '\n');
            p <= |r| <= q && r == s[..|r|]
  {
    var r := BeforeFirst(s, '\n');
    if r != s {
      assert s[|r|] == '\n';
    }
  }

  /** Where the first line t[..n] of a text sits: its non-blank middle is t[a..e], and
      the stripped text ends at b. */
  lemma FirstLineFrame(t: string, n: nat) returns (a: nat, e: nat, b: nat)
    requires n <= |t| && !AllSpace(t[..n])
    ensures a < e <= n && e <= b <= |t|
    ensures !IsSpace(t[a]) && !IsSpace(t[e - 1]) && !IsSpace(t[b - 1])
    ensures forall k :: 0 <= k < a ==> IsSpace(t[k])
    ensures forall k :: e <= k < n ==> IsSpace(t[k])
    ensures forall k :: b <= k < |t| ==> IsSpace(t[k])
  {
    a := SpaceRunEnd(t, 0);
    e := SpaceTailStart(t, 0, n);
    var line := t[..n];
    assert forall k :: 0 <= k < n ==> line[k] == t[k];
    b := SpaceTailStart(t, a, |t|);
  }

  /** The first piece of the stripped text starts at the first line's first non-blank
      character, a, and reaches past its last, at e - 1, but not beyond the line. */
  lemma FirstPieceSpan(t: string, n: nat, a: nat, e: nat, b: nat)
    requires n <= |t| && (forall k :: 0 <= k < n ==> t[k] != '\n') && (n == |t| || t[n] == '\n')
    requires a < e <= n && e <= b <= |t|
    requires !IsSpace(t[a]) && !IsSpace(t[b - 1])
    requires forall k :: 0 <= k < a ==> IsSpace(t[k])
    requires forall k :: b <= k < |t| ==> IsSpace(t[k])
    ensures var r := BeforeFirst(Strip(t), '\n');
            e - a <= |r| <= n - a && forall k :: 0 <= k < |r| ==> r[k] == t[a + k]
  {
    StripBetween(t, a, b);
    var s := Strip(t);
    assert forall k :: 0 <= k < |s| ==> s[k] == t[a + k];
    BeforeFirstSpan(s, e - a, n - a);
  }

  /** The first piece of the stripped text strips to the first line's non-blank
      middle, t[a..e]. */
  lemma FirstPieceStrips(t: string, n: nat, a: nat, e: nat, b: nat)
    requires n <= |t| && (forall k :: 0 <= k < n ==> t[k] != '\n') && (n == |t| || t[n] == '\n')
    requires a < e <= n && e <= b <= |t|
    requires !IsSpace(t[a]) && !IsSpace(t[e - 1]) && !IsSpace(t[b - 1])
    requires forall k :: 0 <= k < a ==> IsSpace(t[k])
    requires forall k :: e <= k < n ==> IsSpace(t[k])
    requires forall k :: b <= k < |t| ==> IsSpace(t[k])
    ensures Strip(BeforeFirst(Strip(t), '\n')) == t[a..e]
  {
    var r := BeforeFirst(Strip(t), '\n');
    FirstPieceSpan(t, n, a, e, b);
    StripBetween(r, 0, e - a);
    assert r[..e - a] == t[a..e];
  }

  /** The first line strips to its non-blank middle, t[a..e]. */
  lemma LineStrips(t: string, n: nat, a: nat, e: nat)
    requires a < e <= n <= |t| && !IsSpace(t[a]) && !IsSpace(t[e - 1])
    requires forall k :: 0 <= k < a ==> IsSpace(t[k])
    requires forall k :: e <= k < n ==> IsSpace(t[k])
    ensures Strip(t[..n]) == t[a..e]
  {
    var line := t[..n];
    assert forall k :: 0 <= k < n ==> line[k] == t[k];
    StripBetween(line, a, e);
    assert line[a..e] == t[a..e];
  }

  /** When the text's first line, t[..n], holds something besides whitespace, the
      fallback gives that line stripped. */
  lemma FirstLineWhenFilled(t: string, n: nat)
    requires n <= |t| && (forall k :: 0 <= k < n ==> t[k] != '\n') && (n == |t| || t[n] == '\n')
    requires !AllSpace(t[..n])
    ensures FallbackCourtNumber(t) == Strip(t[..n])
  {
    var a, e, b := FirstLineFrame(t, n);
    FirstPieceStrips(t, n, a, e, b);
    LineStrips(t, n, a, e);
  }

  /** A text of one line: the fallback strips it. */
  lemma OneLine(t: string)
    requires '\n' !in t
    ensures FallbackCourtNumber(t) == FirstFilled(Split(t, '\n'))
  {
    assert Split(t, '\n') == [t];
    if AllSpace(t) {
      assert Strip(t) == [];
    } else {
      assert t[..|t|] == t;
      FirstLineWhenFilled(t, |t|);
    }
  }

  /** A blank first line, t[..n], is skipped. */
  lemma BlankFirstLine(t: string, n: nat)
    requires n < |t| && t[n] == '\n' && AllSpace(t[..n])
    ensures FallbackCourtNumber(t) == FallbackCourtNumber(t[n + 1..])
  {
    var blank := t[..n + 1];
    assert AllSpace(blank) by {
      forall k | 0 <= k < n + 1 ensures IsSpace(blank[k]) {
        if k < n { assert blank[k] == t[..n][k]; }
      }
    }
    assert t == blank + t[n + 1..];
    StripSkipsBlank(blank, t[n + 1..]);
  }

  /** The fallback gives the first line of the cell text that holds anything besides
      whitespace, stripped: leading blank lines are skipped, because the text is
      stripped before it is split. */
  lemma {:induction false} FallbackIsFirstFilledLine(t: string)
    ensures FallbackCourtNumber(t) == FirstFilled(Split(t, '\n'))
    decreases |t|
  {
    var f := FindChar(t, '\n', 0);
    if f.None? {
      OneLine(t);
    } else {
      var n := f.value;
      var rest := t[n + 1..];
      var lines := Split(t, '\n');
      assert lines == [t[..n]] + Split(rest, '\n');
      if AllSpace(t[..n]) {
        BlankFirstLine(t, n);
        FallbackIsFirstFilledLine(rest);
        assert lines[1..] == Split(rest, '\n');
      } else {
        FirstLineWhenFilled(t, n);
      }
    }
  }

  // ---------------------------------------------------------------------------
  // The rows of the board

  /** The six columns a court row gives: Court No. (cell 0), Sr. No. (3), Case No. (4),
      Petitioner (5), Respondent (6) and Court Message (7, "" when the row stops at
      seven cells). Cells 1 and 2 are not read. */
  datatype Fields = Fields(courtNo: string, srNo: string, caseNo: string, petitioner: string,
                           respondent: string, message: string)

  /** The row test `"record" in row.get_attribute("class")`: a substring test, so
      classes such as "record odd" pass too. */
  predicate IsRecordRow(row: Row) {
    Contains(row.cls, "record")
  }

  /** A court row: a record row with at least seven cells. */
  predicate IsCourtRow(row: Row) {
    IsRecordRow(row) && |row.td| >= 7
  }

  /** What a row gives: its columns when it is a court row, nothing otherwise. */
  function RowFields(row: Row): (r: Option<Fields>)
    ensures r.Some? <==> IsCourtRow(row)
  {
    if !IsCourtRow(row) then None
    else
      var cells := row.td;
      Some(Fields(CourtNumber(cells[0]), CellText(cells[3]), CellText(cells[4]), CellText(cells[5]),
                  CellText(cells[6]), if |cells| > 7 then CellText(cells[7]) else ""))
  }

  /** The rows the loop visits: those after the header of the first `board_id` table;
      none when the page has no such table. */
  function BoardRows(tables: seq<Table>): (rows: seq<Row>)
    ensures tables != [] && tables[0].rows != [] ==> |rows| == |tables[0].rows| - 1
    ensures tables == [] || tables[0].rows == [] ==> rows == []
  {
    if tables == [] || tables[0].rows == [] then [] else tables[0].rows[1..]
  }

  /** The body of the row loop up to the record it builds. */
  method ReadRow(row: Row) returns (f: Option<Fields>)
    ensures f == RowFields(row)
  {
    if !Contains(row.cls, "record") {
      return None;
    }
    var cells := row.td;
    if |cells| >= 7 {
      var courtNo := CourtNumber(cells[0]);
      var srNo := CellText(cells[3]);
      var caseNo := CellText(cells[4]);
      var petitioner := CellText(cells[5]);
      var respondent := CellText(cells[6]);
      var message := if |cells| > 7 then CellText(cells[7]) else "";
      f := Some(Fields(courtNo, srNo, caseNo, petitioner, respondent, message));
    } else {
      f := None;
    }
  }

  /** A court row's columns come from cells 0, 3, 4, 5, 6 and 7; its other cells, and
      every cell past the eighth, are not read. */
  lemma FieldPlacement(row: Row)
    requires IsCourtRow(row)
    ensures var f := RowFields(row).value;
            f.courtNo == CourtNumber(row.td[0]) && f.srNo == CellText(row.td[3])
            && f.caseNo == CellText(row.td[4]) && f.petitioner == CellText(row.td[5])
            && f.respondent == CellText(row.td[6])
            && f.message == (if |row.td| > 7 then CellText(row.td[7]) else "")
    ensures |row.td| > 8 ==> RowFields(row) == RowFields(row.(td := row.td[..8]))
  {
  }
}
