/** The page as the scrapers see it once the browser has rendered it: tables of rows
    of cells, each cell reduced to the few things a scraper asks of it. Fetching and
    rendering the page is not modelled; the cells are the decoders' input. */
module Dom {
  import opened Text

  /** A `td`/`th` cell.
      text    - what the site's text accessor returns for it (Selenium's `.text`,
                BeautifulSoup's get_text, ...);
      html    - its inner HTML, which some sites search for a link;
      colspan, rowspan - the attribute values, "" when the attribute is absent;
      hasSpan - whether the cell has `span` children;
      input   - the value of an `input` button inside it, "" when there is none;
      strongFont - the text of the `font` inside its first `strong`, when it has both. */
  datatype Cell = Cell(text: string, html: string, colspan: string, rowspan: string, hasSpan: bool,
                       input: string, strongFont: Option<string>)

  /** A `tr`: its class attribute ("" when absent), its header cells (`th`), its data
      cells (`td`), and the `onclick` of an eye button inside it, if it has one. */
  datatype Row = Row(cls: string, th: seq<Cell>, td: seq<Cell>, onclick: Option<string>)

  /** A `table`: its border attribute ("" when absent) and its rows. */
  datatype Table = Table(border: string, rows: seq<Row>)

  /** The cells a header test reads: the `th` cells, or the `td` cells of a row that
      has none. */
  function HeaderCells(row: Row): seq<Cell> {
    if row.th != [] then row.th else row.td
  }

  /** A cell holding just this text. */
  function TextCell(t: string): (c: Cell)
    ensures c.text == t && c.html == t && c.colspan == "" && c.rowspan == "" && !c.hasSpan && c.input == ""
    ensures c.strongFont.None?
  {
    Cell(t, t, "", "", false, "", None)
  }

  /** The visible text of a cell as several scrapers' extract_cell_text reads it:
      whitespace runs collapsed to one blank and the ends trimmed. */
  function CellText(c: Cell): string {
    CleanText(c.text)
  }

  // ---------------------------------------------------------------------------
  // Row-by-row decoding: each row contributes its records, in row order

  /** The records of the rows of `xs`, the rows taken in order. */
  function FlatMap<A, B>(xs: seq<A>, f: A -> seq<B>): seq<B>
    decreases |xs|
  {
    if xs == [] then [] else FlatMap(xs[..|xs| - 1], f) + f(xs[|xs| - 1])
  }

  /** One more row: its records follow those of the rows before it. */
  lemma FlatMapSnoc<A, B>(xs: seq<A>, i: nat, f: A -> seq<B>)
    requires i < |xs|
    ensures FlatMap(xs[..i + 1], f) == FlatMap(xs[..i], f) + f(xs[i])
  {
    assert xs[..i + 1][..i] == xs[..i];
  }

  /** Decoding two runs of rows one after the other is decoding their concatenation. */
  lemma {:induction false} FlatMapAppend<A, B>(xs: seq<A>, ys: seq<A>, f: A -> seq<B>)
    ensures FlatMap(xs + ys, f) == FlatMap(xs, f) + FlatMap(ys, f)
    decreases |ys|
  {
    if ys != [] {
      var zs := xs + ys;
      assert zs[..|zs| - 1] == xs + ys[..|ys| - 1];
      FlatMapAppend(xs, ys[..|ys| - 1], f);
    } else {
      assert xs + ys == xs;
    }
  }

  /** A row that yields nothing can be taken out without changing the records. */
  lemma FlatMapSkip<A, B>(xs: seq<A>, x: A, ys: seq<A>, f: A -> seq<B>)
    requires f(x) == []
    ensures FlatMap(xs + [x] + ys, f) == FlatMap(xs + ys, f)
  {
    FlatMapAppend(xs + [x], ys, f);
    FlatMapAppend(xs, [x], f);
    FlatMapAppend(xs, ys, f);
    assert [x][..0] == [];
  }

  /** Rows that each yield at most k records yield at most k records apiece in all. */
  lemma {:induction false} FlatMapBound<A, B>(xs: seq<A>, f: A -> seq<B>, k: nat)
    requires forall i :: 0 <= i < |xs| ==> |f(xs[i])| <= k
    ensures |FlatMap(xs, f)| <= k * |xs|
    decreases |xs|
  {
    if xs != [] {
      var ys := xs[..|xs| - 1];
      assert forall i :: 0 <= i < |ys| ==> ys[i] == xs[i];
      FlatMapBound(ys, f, k);
      assert k * |xs| == k * |ys| + k;
    }
  }

  /** Rows that each yield exactly one record yield one record per row. */
  lemma {:induction false} FlatMapOnePerRow<A, B>(xs: seq<A>, f: A -> seq<B>)
    requires forall i :: 0 <= i < |xs| ==> |f(xs[i])| == 1
    ensures |FlatMap(xs, f)| == |xs|
    ensures forall i :: 0 <= i < |xs| ==> FlatMap(xs, f)[i] == f(xs[i])[0]
    decreases |xs|
  {
    if xs != [] {
      var ys := xs[..|xs| - 1];
      assert forall i :: 0 <= i < |ys| ==> ys[i] == xs[i];
      FlatMapOnePerRow(ys, f);
    }
  }

  /** Rows that yield nothing add nothing. */
  lemma {:induction false} FlatMapNone<A, B>(xs: seq<A>, f: A -> seq<B>)
    requires forall i :: 0 <= i < |xs| ==> f(xs[i]) == []
    ensures FlatMap(xs, f) == []
    decreases |xs|
  {
    if xs != [] {
      var ys := xs[..|xs| - 1];
      assert forall i :: 0 <= i < |ys| ==> ys[i] == xs[i];
      FlatMapNone(ys, f);
    }
  }

  /** Every record comes from some row. */
  lemma {:induction false} FlatMapOrigin<A, B>(xs: seq<A>, f: A -> seq<B>, k: nat)
    requires k < |FlatMap(xs, f)|
    ensures exists i :: 0 <= i < |xs| && FlatMap(xs, f)[k] in f(xs[i])
    decreases |xs|
  {
    var ys := xs[..|xs| - 1];
    var prev := FlatMap(ys, f);
    if k < |prev| {
      FlatMapOrigin(ys, f, k);
      var i :| 0 <= i < |ys| && prev[k] in f(ys[i]);
      assert ys[i] == xs[i];
    } else {
      assert FlatMap(xs, f)[k] == f(xs[|xs| - 1])[k - |prev|];
    }
  }

  /** When no row yields more than one record, every record is the one record of
      some row. */
  lemma FlatMapOriginSingle<A, B>(xs: seq<A>, f: A -> seq<B>, k: nat)
    requires forall i :: 0 <= i < |xs| ==> |f(xs[i])| <= 1
    requires k < |FlatMap(xs, f)|
    ensures exists i :: 0 <= i < |xs| && f(xs[i]) != [] && FlatMap(xs, f)[k] == f(xs[i])[0]
  {
    FlatMapOrigin(xs, f, k);
    var i :| 0 <= i < |xs| && FlatMap(xs, f)[k] in f(xs[i]);
    assert |f(xs[i])| == 1;
  }

  /** How many elements of xs satisfy p. */
  function CountWhere<A>(xs: seq<A>, p: A -> bool): (n: nat)
    ensures n <= |xs|
    decreases |xs|
  {
    if xs == [] then 0 else CountWhere(xs[..|xs| - 1], p) + (if p(xs[|xs| - 1]) then 1 else 0)
  }

  /** When no row gives more than one record, the records number the rows that give one. */
  lemma {:induction false} FlatMapCount<A, B>(xs: seq<A>, f: A -> seq<B>, p: A -> bool)
    requires forall i :: 0 <= i < |xs| ==> |f(xs[i])| <= 1 && (p(xs[i]) <==> f(xs[i]) != [])
    ensures |FlatMap(xs, f)| == CountWhere(xs, p)
    decreases |xs|
  {
    if xs != [] {
      var ys := xs[..|xs| - 1];
      assert forall i :: 0 <= i < |ys| ==> ys[i] == xs[i];
      FlatMapCount(ys, f, p);
    }
  }

  // ---------------------------------------------------------------------------
  // The elements of a kind

  /** The elements of xs that satisfy p, in order. */
  function Filter<A>(xs: seq<A>, p: A -> bool): (r: seq<A>)
    ensures |r| <= |xs|
    ensures forall k :: 0 <= k < |r| ==> p(r[k])
    decreases |xs|
  {
    if xs == [] then [] else Filter(xs[..|xs| - 1], p) + (if p(xs[|xs| - 1]) then [xs[|xs| - 1]] else [])
  }

  /** Filtering two runs one after the other is filtering their concatenation. */
  lemma {:induction false} FilterAppend<A>(xs: seq<A>, ys: seq<A>, p: A -> bool)
    ensures Filter(xs + ys, p) == Filter(xs, p) + Filter(ys, p)
    decreases |ys|
  {
    if ys == [] {
      assert xs + ys == xs;
    } else {
      var zs := xs + ys;
      assert zs[..|zs| - 1] == xs + ys[..|ys| - 1];
      FilterAppend(xs, ys[..|ys| - 1], p);
    }
  }

  /** One element is kept exactly when it satisfies p. */
  lemma FilterOne<A>(x: A, p: A -> bool)
    ensures Filter([x], p) == if p(x) then [x] else []
  {
    assert [x][..0] == [];
  }

  /** An element p rejects can be taken out without changing the filtered run. */
  lemma FilterSkip<A>(xs: seq<A>, x: A, ys: seq<A>, p: A -> bool)
    requires !p(x)
    ensures Filter(xs + [x] + ys, p) == Filter(xs + ys, p)
  {
    FilterOne(x, p);
    FilterAppend(xs, [x], p);
    FilterAppend(xs + [x], ys, p);
    FilterAppend(xs, ys, p);
  }

  /** An element p accepts stands between the kept elements before and after it. */
  lemma FilterKeep<A>(xs: seq<A>, x: A, ys: seq<A>, p: A -> bool)
    requires p(x)
    ensures Filter(xs + [x] + ys, p) == Filter(xs, p) + [x] + Filter(ys, p)
  {
    FilterOne(x, p);
    FilterAppend(xs, [x], p);
    FilterAppend(xs + [x], ys, p);
  }

  // ---------------------------------------------------------------------------
  // The first element of a kind

  /** Index of the first element of xs at or after i that satisfies p, if any. */
  function FirstWhere<A>(xs: seq<A>, p: A -> bool, i: nat): (r: Option<nat>)
    requires i <= |xs|
    ensures r.Some? ==> i <= r.value < |xs| && p(xs[r.value])
    ensures r.Some? ==> forall j :: i <= j < r.value ==> !p(xs[j])
    ensures r.None? ==> forall j :: i <= j < |xs| ==> !p(xs[j])
    decreases |xs| - i
  {
    if i == |xs| then None
    else if p(xs[i]) then Some(i)
    else FirstWhere(xs, p, i + 1)
  }

  // ---------------------------------------------------------------------------
  // The last row of a kind

  /** Index of the last element of xs satisfying p, if any. */
  function LastWhere<A>(xs: seq<A>, p: A -> bool): (r: Option<nat>)
    ensures r.Some? ==> r.value < |xs|
    decreases |xs|
  {
    if xs == [] then None
    else if p(xs[|xs| - 1]) then Some(|xs| - 1)
    else LastWhere(xs[..|xs| - 1], p)
  }

  /** It satisfies p, no later element does, and none does when it is absent. */
  lemma {:induction false} LastWhereIsLast<A>(xs: seq<A>, p: A -> bool)
    ensures LastWhere(xs, p).Some? ==> p(xs[LastWhere(xs, p).value])
    ensures LastWhere(xs, p).Some? ==> forall j :: LastWhere(xs, p).value < j < |xs| ==> !p(xs[j])
    ensures LastWhere(xs, p).None? ==> forall j :: 0 <= j < |xs| ==> !p(xs[j])
    decreases |xs|
  {
    if xs != [] && !p(xs[|xs| - 1]) {
      var init := xs[..|xs| - 1];
      LastWhereIsLast(init, p);
      assert forall j :: 0 <= j < |init| ==> init[j] == xs[j];
    }
  }
}
