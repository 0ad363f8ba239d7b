/** The Kerala High Court (Kochi) display board: a table whose rows each hold four
    courts side by side, every court as a pair of header cells, court then item. */
module Kerala {
  import opened Text
  import opened Dom
  import Ingest

  const BenchName := "Kochi"
  const CourtsPerRow := 4

  /** One spreadsheet row. */
  datatype Record = Record(courtNo: string, itemNumber: string, dateTime: string)

  // ---------------------------------------------------------------------------
  // The row loop

  /** The cleaned text of every cell of a row. */
  function Cleaned(cells: seq<Cell>): (t: seq<string>)
    ensures |t| == |cells|
  {
    seq(|cells|, i requires 0 <= i < |cells| => CellText(cells[i]))
  }

  lemma CleanedAt(cells: seq<Cell>, i: nat)
    requires i < |cells|
    ensures Cleaned(cells)[i] == CellText(cells[i])
  {
  }

  /** The record of the k-th court of a row (texts 2k and 2k+1), none when its court
      text is empty. */
  function PairRecords(texts: seq<string>, k: nat, time: string): (r: seq<Record>)
    requires 2 * k + 1 < |texts|
    ensures |r| <= 1
  {
    if texts[2 * k] == "" then [] else [Record(texts[2 * k], texts[2 * k + 1], time)]
  }

  /** The records of the first n courts of a row, left to right. */
  function Pairs(texts: seq<string>, n: nat, time: string): (r: seq<Record>)
    requires 2 * n <= |texts|
    ensures |r| <= n
  {
    if n == 0 then [] else Pairs(texts, n - 1, time) + PairRecords(texts, n - 1, time)
  }

  /** The records of a row: none when it has fewer than eight cells, else one for each
      of its four courts that has a court number. */
  function RowRecords(cells: seq<Cell>, time: string): (r: seq<Record>)
    ensures |r| <= CourtsPerRow
    ensures |cells| < 8 ==> r == []
  {
    if |cells| < 8 then [] else Pairs(Cleaned(cells), CourtsPerRow, time)
  }

  function Decoder(time: string): Row -> seq<Record> {
    (row: Row) => RowRecords(row.th, time)
  }

  /** The records of the table body, row by row. */
  function Scrape(rows: seq<Row>, time: string): seq<Record> {
    FlatMap(rows, Decoder(time))
  }

  /** The `for court_idx in range(4)` loop over one row; `count` is court_count. */
  method DecodeRow(cells: seq<Cell>, time: string, count0: nat) returns (recs: seq<Record>, count: nat)
    ensures recs == RowRecords(cells, time)
    ensures count == count0 + |recs|
  {
    recs := [];
    count := count0;
    if |cells| < 8 {
      return;
    }
    ghost var texts := Cleaned(cells);
    for courtIdx := 0 to CourtsPerRow
      invariant recs == Pairs(texts, courtIdx, time)
      invariant count == count0 + |recs|
    {
      var found := DecodeCourt(cells, courtIdx, time, texts);
      PairsStep(texts, courtIdx, time);
      recs := recs + found;
      count := count + |found|;
    }
  }

  /** One pass of the loop body: clean_text of the court's two cells, and its record
      unless the court text is empty (`continue`). */
  method DecodeCourt(cells: seq<Cell>, courtIdx: nat, time: string, ghost texts: seq<string>)
    returns (found: seq<Record>)
    requires 2 * courtIdx + 1 < |cells| && texts == Cleaned(cells)
    ensures found == PairRecords(texts, courtIdx, time)
  {
    var cellStart := courtIdx * 2;
    var courtNo := CellText(cells[cellStart]);
    var itemNo := CellText(cells[cellStart + 1]);
    CleanedAt(cells, cellStart);
    CleanedAt(cells, cellStart + 1);
    PairOfTexts(texts, courtIdx, courtNo, itemNo, time);
    if courtNo == "" {
      return [];
    }
    found := [Record(courtNo, itemNo, time)];
  }

  /** The court's record, read off its two texts. */
  lemma PairOfTexts(texts: seq<string>, k: nat, c: string, t: string, time: string)
    requires 2 * k + 1 < |texts| && texts[2 * k] == c && texts[2 * k + 1] == t
    ensures PairRecords(texts, k, time) == if c == "" then [] else [Record(c, t, time)]
  {
  }

  /** One more court of the row. */
  lemma PairsStep(texts: seq<string>, k: nat, time: string)
    requires 2 * k + 1 < |texts|
    ensures Pairs(texts, k + 1, time) ==
              Pairs(texts, k, time) + (if texts[2 * k] == "" then [] else [Record(texts[2 * k], texts[2 * k + 1], time)])
  {
  }

  /** The `for row in rows` loop: the records and the number of courts counted. */
  method ScrapeDisplayBoard(rows: seq<Row>, time: string) returns (recs: seq<Record>, courtCount: nat)
    ensures recs == Scrape(rows, time)
    ensures courtCount == |recs|
  {
    recs := [];
    courtCount := 0;
    for i := 0 to |rows|
      invariant recs == FlatMap(rows[..i], Decoder(time))
      invariant courtCount == |recs|
    {
      var r;
      r, courtCount := DecodeRow(rows[i].th, time, courtCount);
      FlatMapSnoc(rows, i, Decoder(time));
      recs := recs + r;
    }
    assert rows[..|rows|] == rows;
  }

  // ---------------------------------------------------------------------------
  // What the records say

  /** Every record of the first n courts comes from one of them, with a court number,
      and every one of them with a court number gives its record: an empty court does
      not stop the courts after it. */
  lemma {:induction false} PairsExactly(texts: seq<string>, n: nat, time: string)
    requires 2 * n <= |texts|
    ensures forall r :: r in Pairs(texts, n, time) <==>
              exists k :: 0 <= k < n && texts[2 * k] != "" && r == Record(texts[2 * k], texts[2 * k + 1], time)
    decreases n
  {
    if n > 0 {
      PairsExactly(texts, n - 1, time);
      var last := PairRecords(texts, n - 1, time);
      assert Pairs(texts, n, time) == Pairs(texts, n - 1, time) + last;
      forall r | r in Pairs(texts, n, time)
        ensures exists k :: 0 <= k < n && texts[2 * k] != "" && r == Record(texts[2 * k], texts[2 * k + 1], time)
      {
        if r in last {
          assert r == Record(texts[2 * (n - 1)], texts[2 * (n - 1) + 1], time);
        }
      }
    }
  }

  /** The records of a full row are exactly the courts among its first four pairs of
      cells whose cleaned court text is not empty; cells after the eighth are never
      read. */
  lemma RowExactly(cells: seq<Cell>, time: string)
    requires |cells| >= 8
    ensures var t := Cleaned(cells);
            forall r :: r in RowRecords(cells, time) <==>
              exists k :: 0 <= k < 4 && t[2 * k] != "" && r == Record(t[2 * k], t[2 * k + 1], time)
    ensures RowRecords(cells, time) == RowRecords(cells[..8], time)
  {
    var texts := Cleaned(cells);
    var first := Cleaned(cells[..8]);
    PairsExactly(texts, 4, time);
    assert texts[..8] == first[..8] by {
      forall i | 0 <= i < 8 ensures texts[i] == first[i] {
        CleanedAt(cells, i);
        CleanedAt(cells[..8], i);
      }
    }
    PairsPrefix(texts, first, 4, time);
  }

  /** Only the first 2n texts matter to the first n courts. */
  lemma {:induction false} PairsPrefix(texts: seq<string>, other: seq<string>, n: nat, time: string)
    requires 2 * n <= |texts| && 2 * n <= |other| && texts[..2 * n] == other[..2 * n]
    ensures Pairs(texts, n, time) == Pairs(other, n, time)
    decreases n
  {
    if n > 0 {
      assert texts[..2 * (n - 1)] == other[..2 * (n - 1)] by {
        assert texts[..2 * (n - 1)] == texts[..2 * n][..2 * (n - 1)];
        assert other[..2 * (n - 1)] == other[..2 * n][..2 * (n - 1)];
      }
      PairsPrefix(texts, other, n - 1, time);
      assert texts[2 * (n - 1)] == texts[..2 * n][2 * (n - 1)];
      assert other[2 * (n - 1)] == other[..2 * n][2 * (n - 1)];
      assert texts[2 * (n - 1) + 1] == texts[..2 * n][2 * (n - 1) + 1];
      assert other[2 * (n - 1) + 1] == other[..2 * n][2 * (n - 1) + 1];
    }
  }

  /** A row whose four court cells all have text gives four records, the k-th from
      cells 2k and 2k+1. */
  lemma FullRow(cells: seq<Cell>, time: string)
    requires |cells| >= 8
    requires forall k :: 0 <= k < 4 ==> Cleaned(cells)[2 * k] != ""
    ensures |RowRecords(cells, time)| == 4
    ensures var t := Cleaned(cells);
            forall k :: 0 <= k < 4 ==> RowRecords(cells, time)[k] == Record(t[2 * k], t[2 * k + 1], time)
  {
    FullPairs(Cleaned(cells), time);
  }

  /** Four non-empty court texts give four records, in order. */
  lemma FullPairs(t: seq<string>, time: string)
    requires |t| >= 8
    requires forall k :: 0 <= k < 4 ==> t[2 * k] != ""
    ensures |Pairs(t, 4, time)| == 4
    ensures forall k :: 0 <= k < 4 ==> Pairs(t, 4, time)[k] == Record(t[2 * k], t[2 * k + 1], time)
  {
    var p := FourPairs(t, time);
    assert t[2 * 0] != "" && t[2 * 1] != "" && t[2 * 2] != "" && t[2 * 3] != "";
    assert p == [Record(t[0], t[1], time), Record(t[2], t[3], time), Record(t[4], t[5], time), Record(t[6], t[7], time)];
  }

  /** The four courts of a row, one after the other. */
  lemma FourPairs(t: seq<string>, time: string) returns (p: seq<Record>)
    requires |t| >= 8
    ensures p == Pairs(t, 4, time)
    ensures p == PairRecords(t, 0, time) + PairRecords(t, 1, time) + PairRecords(t, 2, time) + PairRecords(t, 3, time)
  {
    p := Pairs(t, 4, time);
    assert Pairs(t, 1, time) == PairRecords(t, 0, time);
    assert Pairs(t, 2, time) == Pairs(t, 1, time) + PairRecords(t, 1, time);
    assert Pairs(t, 3, time) == Pairs(t, 2, time) + PairRecords(t, 2, time);
    assert p == Pairs(t, 3, time) + PairRecords(t, 3, time);
  }

  // ---------------------------------------------------------------------------
  // post_court_data_to_api

  /** serialNumber: int(item), or 0 for an empty item, "----", or text int() rejects. */
  function ItemSerial(item: string): (n: int)
    ensures item == "" || item == "----" ==> n == 0
  {
    if item != "" && item != "----" then
      match PyInt(item)
      case Some(v) => v
      case None => 0
    else 0
  }

  /** The "----" test changes nothing: int() rejects "----" anyway, so the serial is
      the usual int-or-zero reading of the item. */
  lemma ItemSerialIsIntOrZero(item: string)
    ensures ItemSerial(item) == IntOrZero(item)
  {
    if item == "----" {
      assert PyInt(item) == None by {
        var t := Strip(item);
        StripNoPadding(item);
        assert t[1..] == "---";
        assert !DigitsOrUnderscores(t[1..]) by { assert t[1..][0] == '-'; }
      }
    }
  }

  /** An item number such as "316" posts serial number 316. */
  lemma ItemSerialRoundTrip(n: nat)
    ensures ItemSerial(NatToString(n)) == n
  {
    assert NatToString(n) != "----" by { assert IsDigit(NatToString(n)[0]); }
    PyIntRoundTrip(n);
  }

  /** The body posted: no case number, no stage, listNumber 0. */
  function ToPayload(r: Record): (p: Ingest.Payload)
    ensures p.serialNumber == ItemSerial(r.itemNumber) && p.listNumber == Some(0)
    ensures p.benchName == BenchName && p.courtHallNumber == r.courtNo
    ensures p.caseNumber == "" && p.note == ""
  {
    Ingest.Payload(BenchName, r.courtNo, "", ItemSerial(r.itemNumber), "", Some(0))
  }

  /** What an error entry records: court and item. */
  function ErrorKey(r: Record): (k: (string, string))
    ensures k.0 == r.courtNo && k.1 == r.itemNumber
  {
    (r.courtNo, r.itemNumber)
  }
}
