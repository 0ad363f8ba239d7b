/** The counters main() keeps between scrape cycles and the files it writes.

    Three shapes occur. Most scrapers keep one day-file per date, append every
    non-empty scrape to it, and every BACKUP_CYCLE_INTERVAL cycles copy the whole
    day-file to a timestamped backup (DayDriver). Gwalior instead buffers the rows
    saved since its last backup and appends that buffer to one backup file per day
    (GwaliorDriver). The plain Jharkhand scraper and the Orissa scraper keep a single
    file and no backups (SingleFileDriver).

    Each shape is a pure step function on a state datatype, which the lemmas reason
    about, and a class whose RunCycle method performs the same steps in place and is
    proved to agree with the step function. Dates, paths and spreadsheet I/O are
    inputs: a cycle says whether the date folder changed and whether each write
    succeeded. A new day starts with an empty day-file. */
module Driver {

  /** BACKUP_CYCLE_INTERVAL of every scraper that has one, except Gwalior. */
  const StandardInterval: nat := 60

  /** BACKUP_CYCLE_INTERVAL of the Gwalior scraper. */
  const GwaliorInterval: nat := 100

  /** One pass of main()'s while-loop as seen from outside: whether the date folder
      changed, what scrape_display_board returned, and whether the Excel writes of
      this pass would succeed. */
  datatype Cycle<R> = Cycle(dateChanged: bool, scraped: seq<R>, saveOk: bool, backupOk: bool)

  /** save_to_excel succeeds only on a non-empty batch whose write goes through. */
  predicate Saves<R>(c: Cycle<R>) { |c.scraped| > 0 && c.saveOk }

  /** The test `cycle_count - last_backup_cycle >= BACKUP_CYCLE_INTERVAL`. */
  predicate BackupDue(cycleCount: nat, lastBackupCycle: nat, interval: nat) {
    cycleCount - lastBackupCycle >= interval
  }

  /** The rows of the cycles that saved, in order. */
  function SavedRows<R>(cs: seq<Cycle<R>>): seq<R>
    decreases |cs|
  {
    if cs == [] then [] else SavedRows(cs[..|cs| - 1]) + (if Saves(cs[|cs| - 1]) then cs[|cs| - 1].scraped else [])
  }

  predicate NoDateChange<R>(cs: seq<Cycle<R>>) { forall i :: 0 <= i < |cs| ==> !cs[i].dateChanged }

  // ===========================================================================
  // Day-file with timestamped full backups

  datatype Day<R> = Day(cycleCount: nat, lastBackupCycle: nat, firstCycle: bool, dayFile: seq<R>, backups: seq<seq<R>>)

  /** The state before the first cycle. */
  function Start<R>(): Day<R> { Day(0, 0, true, [], []) }

  /** One pass of the loop: count the cycle (restarting at 1 with a new day-file on a
      date change), save a non-empty scrape, and after a save that finds the interval
      elapsed try a backup of the whole day-file; only a backup that is written moves
      last_backup_cycle. */
  function Step<R>(d: Day<R>, c: Cycle<R>, interval: nat): Day<R>
  {
    var d1 := if c.dateChanged then Day(1, 0, true, [], d.backups)
              else d.(cycleCount := d.cycleCount + 1);
    if !Saves(c) then d1
    else
      var file := d1.dayFile + c.scraped;
      if !BackupDue(d1.cycleCount, d1.lastBackupCycle, interval) then
        d1.(firstCycle := false, dayFile := file)
      else if |file| > 0 && c.backupOk then
        d1.(firstCycle := false, dayFile := file, lastBackupCycle := d1.cycleCount, backups := d1.backups + [file])
      else
        d1.(firstCycle := false, dayFile := file)
  }

  function Run<R>(d: Day<R>, cs: seq<Cycle<R>>, interval: nat): Day<R>
    decreases |cs|
  {
    if cs == [] then d else Step(Run(d, cs[..|cs| - 1], interval), cs[|cs| - 1], interval)
  }

  /** The last backup is never ahead of the cycle counter. */
  predicate Ordered<R>(d: Day<R>) { d.lastBackupCycle <= d.cycleCount }

  lemma {:induction false} RunKeepsOrdered<R>(d: Day<R>, cs: seq<Cycle<R>>, interval: nat)
    requires Ordered(d)
    ensures Ordered(Run(d, cs, interval))
    decreases |cs|
  {
    if cs != [] {
      RunKeepsOrdered(d, cs[..|cs| - 1], interval);
    }
  }

  /** A backup is written exactly when the cycle saved, the interval had elapsed and
      the copy succeeded; the backup is the whole day-file, and only then does
      last_backup_cycle move, to the current cycle. */
  lemma StepBackup<R>(d: Day<R>, c: Cycle<R>, interval: nat)
    ensures var n := Step(d, c, interval);
            var cc := if c.dateChanged then 1 else d.cycleCount + 1;
            var last := if c.dateChanged then 0 else d.lastBackupCycle;
            (|n.backups| == |d.backups| + 1 <==> Saves(c) && BackupDue(cc, last, interval) && c.backupOk)
            && (|n.backups| == |d.backups| + 1 ==> n.backups[|d.backups|] == n.dayFile && n.lastBackupCycle == cc)
            && (|n.backups| == |d.backups| ==> n.backups == d.backups && n.lastBackupCycle == last)
            && (|n.backups| == |d.backups| || |n.backups| == |d.backups| + 1)
  {
  }

  /** A date change restarts the count at cycle 1 with last_backup_cycle 0 and a new
      day-file holding at most this cycle's rows; with an interval above 1 no backup
      is due yet. */
  lemma DateChangeResets<R>(d: Day<R>, c: Cycle<R>, interval: nat)
    requires c.dateChanged && interval > 1
    ensures var n := Step(d, c, interval);
            n.cycleCount == 1 && n.lastBackupCycle == 0 && n.backups == d.backups
            && n.firstCycle == !Saves(c)
            && n.dayFile == (if Saves(c) then c.scraped else [])
  {
  }

  /** Within a day, the day-file is what it held at the start followed by every batch
      saved since, in order. */
  lemma {:induction false} DayFileIsSavedRows<R>(d: Day<R>, cs: seq<Cycle<R>>, interval: nat)
    requires NoDateChange(cs)
    ensures Run(d, cs, interval).dayFile == d.dayFile + SavedRows(cs)
    ensures Run(d, cs, interval).cycleCount == d.cycleCount + |cs|
    decreases |cs|
  {
    if cs != [] {
      var init := cs[..|cs| - 1];
      assert NoDateChange(init) by {
        forall i | 0 <= i < |init| ensures !init[i].dateChanged { assert init[i] == cs[i]; }
      }
      DayFileIsSavedRows(d, init, interval);
    }
  }

  /** first_cycle stays True until the first successful save of the day. */
  lemma {:induction false} FirstCycleUntilSaved<R>(d: Day<R>, cs: seq<Cycle<R>>, interval: nat)
    requires NoDateChange(cs)
    ensures Run(d, cs, interval).firstCycle == (d.firstCycle && SavedRows(cs) == [])
    decreases |cs|
  {
    if cs != [] {
      var init := cs[..|cs| - 1];
      assert NoDateChange(init) by {
        forall i | 0 <= i < |init| ensures !init[i].dateChanged { assert init[i] == cs[i]; }
      }
      FirstCycleUntilSaved(d, init, interval);
    }
  }

  /** No backup is written while fewer than BACKUP_CYCLE_INTERVAL cycles have passed
      since the last one (or since the start of the day). */
  lemma {:induction false} NoBackupBeforeInterval<R>(d: Day<R>, cs: seq<Cycle<R>>, interval: nat)
    requires NoDateChange(cs) && Ordered(d)
    requires d.cycleCount + |cs| - d.lastBackupCycle < interval
    ensures Run(d, cs, interval).backups == d.backups
    ensures Run(d, cs, interval).lastBackupCycle == d.lastBackupCycle
    decreases |cs|
  {
    if cs != [] {
      var init := cs[..|cs| - 1];
      assert NoDateChange(init) by {
        forall i | 0 <= i < |init| ensures !init[i].dateChanged { assert init[i] == cs[i]; }
      }
      NoBackupBeforeInterval(d, init, interval);
      DayFileIsSavedRows(d, init, interval);
    }
  }

  /** Every backup written during a day is a copy of the day-file as it was then, so
      it is a prefix of the day-file at any later point of the same day. */
  lemma {:induction false} BackupsArePrefixes<R>(d: Day<R>, cs: seq<Cycle<R>>, interval: nat)
    requires NoDateChange(cs)
    requires forall k :: 0 <= k < |d.backups| ==> d.backups[k] <= d.dayFile
    ensures forall k :: 0 <= k < |Run(d, cs, interval).backups| ==>
              Run(d, cs, interval).backups[k] <= Run(d, cs, interval).dayFile
    decreases |cs|
  {
    if cs != [] {
      var init := cs[..|cs| - 1];
      assert NoDateChange(init) by {
        forall i | 0 <= i < |init| ensures !init[i].dateChanged { assert init[i] == cs[i]; }
      }
      BackupsArePrefixes(d, init, interval);
      var p := Run(d, init, interval);
      var n := Step(p, cs[|cs| - 1], interval);
      forall k | 0 <= k < |n.backups| ensures n.backups[k] <= n.dayFile {
        if k < |p.backups| {
          assert n.backups[k] == p.backups[k];
          assert p.dayFile <= n.dayFile;
        }
      }
    }
  }

  /** A cycle in which the scrape is saved and the backup copy succeeds. */
  predicate Smooth<R>(c: Cycle<R>) { !c.dateChanged && Saves(c) && c.backupOk }

  /** When every cycle saves and every backup copy succeeds, a day that starts fresh
      has, after n cycles, written exactly n / BACKUP_CYCLE_INTERVAL backups, the last
      one at the most recent multiple of the interval. */
  lemma {:induction false} BackupCadence<R>(cs: seq<Cycle<R>>, interval: nat)
    requires interval > 0
    requires forall i :: 0 <= i < |cs| ==> Smooth(cs[i])
    ensures var d := Run(Start(), cs, interval);
            d.cycleCount == |cs| && |d.backups| == |cs| / interval
            && d.lastBackupCycle == (|cs| / interval) * interval
    decreases |cs|
  {
    if cs != [] {
      var init := cs[..|cs| - 1];
      assert forall i :: 0 <= i < |init| ==> Smooth(init[i]) by {
        forall i | 0 <= i < |init| ensures Smooth(init[i]) { assert init[i] == cs[i]; }
      }
      BackupCadence(init, interval);
      SmoothStep(Run(Start(), init, interval), cs[|cs| - 1], interval);
      CadenceArith(|init|, interval);
    }
  }

  /** A smooth cycle counts itself and writes a backup exactly when one is due. */
  lemma SmoothStep<R>(d: Day<R>, c: Cycle<R>, interval: nat)
    requires Smooth(c)
    ensures var n := Step(d, c, interval);
            n.cycleCount == d.cycleCount + 1
            && (BackupDue(d.cycleCount + 1, d.lastBackupCycle, interval) ==>
                  |n.backups| == |d.backups| + 1 && n.lastBackupCycle == d.cycleCount + 1)
            && (!BackupDue(d.cycleCount + 1, d.lastBackupCycle, interval) ==>
                  |n.backups| == |d.backups| && n.lastBackupCycle == d.lastBackupCycle)
  {
  }

  /** With the last backup at the latest multiple of the interval up to n, the next
      cycle is due exactly when it reaches the next multiple. */
  lemma CadenceArith(n: nat, interval: nat)
    requires interval > 0
    ensures var q := n / interval;
            (BackupDue(n + 1, q * interval, interval) ==> (n + 1) / interval == q + 1 && n + 1 == (q + 1) * interval)
            && (!BackupDue(n + 1, q * interval, interval) ==> (n + 1) / interval == q)
  {
    var q, r := n / interval, n % interval;
    DivMod(n, interval, q, r);
    if r == interval - 1 {
      assert n + 1 == (q + 1) * interval + 0;
      DivUnique(n + 1, interval, q + 1, 0);
    } else {
      assert n + 1 == q * interval + (r + 1);
      DivUnique(n + 1, interval, q, r + 1);
      assert !BackupDue(n + 1, q * interval, interval);
    }
  }

  lemma DivMod(a: nat, b: nat, q: int, r: int)
    requires b > 0 && q == a / b && r == a % b
    ensures a == q * b + r && 0 <= r < b && q >= 0
  {
  }

  lemma MulLe(x: int, y: int, b: nat)
    requires x <= y
    ensures x * b <= y * b
  {
  }

  lemma DivUnique(a: nat, b: nat, q: int, r: int)
    requires b > 0 && a == q * b + r && 0 <= r < b
    ensures a / b == q
  {
    var q', r' := a / b, a % b;
    DivMod(a, b, q', r');
    if q' > q {
      MulLe(q + 1, q', b);
    } else if q' < q {
      MulLe(q' + 1, q, b);
    }
  }

  /** main()'s loop state for the day-file scrapers, updated in place. */
  class DayDriver<R> {
    const interval: nat
    var cycleCount: nat
    var lastBackupCycle: nat
    var firstCycle: bool
    var dayFile: seq<R>
    var backups: seq<seq<R>>

    function State(): Day<R>
      reads this
    {
      Day(cycleCount, lastBackupCycle, firstCycle, dayFile, backups)
    }

    constructor (interval: nat)
      ensures this.interval == interval && State() == Start()
    {
      this.interval := interval;
      cycleCount, lastBackupCycle, firstCycle := 0, 0, true;
      dayFile, backups := [], [];
    }

    /** save_to_excel: appends the batch to the day-file; an empty batch or a failed
        write returns False and changes nothing. */
    method SaveToExcel(data: seq<R>, ioOk: bool) returns (ok: bool)
      modifies this`dayFile
      ensures ok == (|data| > 0 && ioOk)
      ensures dayFile == if ok then old(dayFile) + data else old(dayFile)
    {
      if |data| == 0 {
        return false;
      }
      if !ioOk {
        return false;
      }
      dayFile := dayFile + data;
      return true;
    }

    /** create_backup_from_main_excel: writes a copy of the whole day-file to a new
        backup; a missing or empty day-file or a failed write returns False. */
    method CreateBackup(ioOk: bool) returns (ok: bool)
      modifies this`backups
      ensures ok == (|dayFile| > 0 && ioOk)
      ensures backups == if ok then old(backups) + [dayFile] else old(backups)
    {
      if |dayFile| == 0 {
        return false;
      }
      if !ioOk {
        return false;
      }
      backups := backups + [dayFile];
      return true;
    }

    /** One pass of main()'s while-loop. */
    method RunCycle(c: Cycle<R>)
      modifies this
      ensures State() == Step(old(State()), c, interval)
    {
      cycleCount := cycleCount + 1;
      if c.dateChanged {
        dayFile := [];
        firstCycle := true;
        lastBackupCycle := 0;
        cycleCount := 1;
      }
      if |c.scraped| > 0 {
        var saved := SaveToExcel(c.scraped, c.saveOk);
        if saved {
          firstCycle := false;
          if cycleCount - lastBackupCycle >= interval {
            var backedUp := CreateBackup(c.backupOk);
            if backedUp {
              lastBackupCycle := cycleCount;
            }
          }
        }
      }
    }
  }

  // ===========================================================================
  // Gwalior: a pending buffer appended to one backup file per day

  datatype GwaliorDay<R> = GwaliorDay(cycleCount: nat, lastBackupCycle: nat, firstCycle: bool,
                                      dayFile: seq<R>, backupFile: seq<R>, pending: seq<R>)

  function GwaliorStart<R>(): GwaliorDay<R> { GwaliorDay(0, 0, true, [], [], []) }

  /** One pass of Gwalior's loop. A date change resets first_cycle, last_backup_cycle
      and the pending buffer and opens new files, but cycle_count keeps counting.
      A saved batch is also added to the pending buffer; when the interval has
      elapsed the buffer is appended to the backup file and, if that succeeds,
      cleared. */
  function GwaliorStep<R>(d: GwaliorDay<R>, c: Cycle<R>, interval: nat): GwaliorDay<R>
  {
    var d1 := if c.dateChanged then GwaliorDay(d.cycleCount + 1, 0, true, [], [], [])
              else d.(cycleCount := d.cycleCount + 1);
    if !Saves(c) then d1
    else
      var d2 := d1.(firstCycle := false, dayFile := d1.dayFile + c.scraped, pending := d1.pending + c.scraped);
      if BackupDue(d2.cycleCount, d2.lastBackupCycle, interval) && |d2.pending| > 0 && c.backupOk then
        d2.(backupFile := d2.backupFile + d2.pending, lastBackupCycle := d2.cycleCount, pending := [])
      else d2
  }

  /** The day-file is the backup file followed by the rows still pending. */
  ghost predicate InStep<R>(d: GwaliorDay<R>) { d.dayFile == d.backupFile + d.pending }

  lemma GwaliorStepKeepsInStep<R>(d: GwaliorDay<R>, c: Cycle<R>, interval: nat)
    requires InStep(d)
    ensures InStep(GwaliorStep(d, c, interval))
  {
    var n := GwaliorStep(d, c, interval);
    if Saves(c) && !c.dateChanged {
      assert d.dayFile + c.scraped == d.backupFile + (d.pending + c.scraped);
    }
  }

  /** A save that finds the interval not yet elapsed (or whose backup write fails)
      keeps every saved row in the pending buffer; none is lost or written twice. */
  lemma GwaliorPendingGrows<R>(d: GwaliorDay<R>, c: Cycle<R>, interval: nat)
    requires !c.dateChanged && Saves(c)
    requires !BackupDue(d.cycleCount + 1, d.lastBackupCycle, interval) || !c.backupOk
    ensures var n := GwaliorStep(d, c, interval);
            n.pending == d.pending + c.scraped && n.backupFile == d.backupFile
            && n.lastBackupCycle == d.lastBackupCycle
  {
  }

  /** A successful backup appends exactly the pending rows to the backup file and
      empties the buffer. */
  lemma GwaliorBackupFlushes<R>(d: GwaliorDay<R>, c: Cycle<R>, interval: nat)
    requires !c.dateChanged && Saves(c) && c.backupOk
    requires BackupDue(d.cycleCount + 1, d.lastBackupCycle, interval)
    ensures var n := GwaliorStep(d, c, interval);
            n.backupFile == d.backupFile + d.pending + c.scraped && n.pending == []
            && n.lastBackupCycle == d.cycleCount + 1
  {
  }

  /** Because a date change leaves cycle_count running, once a run has reached the
      interval the first save of every new day is backed up at once. */
  lemma GwaliorBackupOnFirstSaveOfDay<R>(d: GwaliorDay<R>, c: Cycle<R>, interval: nat)
    requires c.dateChanged && Saves(c) && c.backupOk
    requires d.cycleCount + 1 >= interval
    ensures var n := GwaliorStep(d, c, interval);
            n.backupFile == c.scraped && n.pending == [] && n.cycleCount == d.cycleCount + 1
  {
  }

  /** Gwalior's loop state, updated in place. */
  class GwaliorDriver<R> {
    const interval: nat
    var cycleCount: nat
    var lastBackupCycle: nat
    var firstCycle: bool
    var dayFile: seq<R>
    var backupFile: seq<R>
    var pending: seq<R>

    function State(): GwaliorDay<R>
      reads this
    {
      GwaliorDay(cycleCount, lastBackupCycle, firstCycle, dayFile, backupFile, pending)
    }

    constructor (interval: nat)
      ensures this.interval == interval && State() == GwaliorStart()
    {
      this.interval := interval;
      cycleCount, lastBackupCycle, firstCycle := 0, 0, true;
      dayFile, backupFile, pending := [], [], [];
    }

    method SaveToExcel(data: seq<R>, ioOk: bool) returns (ok: bool)
      modifies this`dayFile
      ensures ok == (|data| > 0 && ioOk)
      ensures dayFile == if ok then old(dayFile) + data else old(dayFile)
    {
      ok := |data| > 0 && ioOk;
      if ok {
        dayFile := dayFile + data;
      }
    }

    /** save_to_backup: appends the rows to the backup file (creating it if needed);
        no rows or a failed write returns False. */
    method SaveToBackup(data: seq<R>, ioOk: bool) returns (ok: bool)
      modifies this`backupFile
      ensures ok == (|data| > 0 && ioOk)
      ensures backupFile == if ok then old(backupFile) + data else old(backupFile)
    {
      if |data| == 0 {
        return false;
      }
      ok := ioOk;
      if ok {
        backupFile := backupFile + data;
      }
    }

    method RunCycle(c: Cycle<R>)
      modifies this
      ensures State() == GwaliorStep(old(State()), c, interval)
    {
      cycleCount := cycleCount + 1;
      if c.dateChanged {
        dayFile, backupFile := [], [];
        firstCycle := true;
        lastBackupCycle := 0;
        pending := [];
      }
      if |c.scraped| > 0 {
        var saved := SaveToExcel(c.scraped, c.saveOk);
        if saved {
          firstCycle := false;
          pending := pending + c.scraped;
          if cycleCount - lastBackupCycle >= interval {
            var backedUp := SaveToBackup(pending, c.backupOk);
            if backedUp {
              lastBackupCycle := cycleCount;
              pending := [];
            }
          }
        }
      }
    }
  }

  // ===========================================================================
  // One fixed file, no backups, no date handling

  datatype SingleFile<R> = SingleFile(cycleCount: nat, firstCycle: bool, file: seq<R>)

  function SingleStart<R>(): SingleFile<R> { SingleFile(0, true, []) }

  function SingleStep<R>(d: SingleFile<R>, c: Cycle<R>): SingleFile<R>
  {
    if Saves(c) then SingleFile(d.cycleCount + 1, false, d.file + c.scraped)
    else d.(cycleCount := d.cycleCount + 1)
  }

  function SingleRun<R>(d: SingleFile<R>, cs: seq<Cycle<R>>): SingleFile<R>
    decreases |cs|
  {
    if cs == [] then d else SingleStep(SingleRun(d, cs[..|cs| - 1]), cs[|cs| - 1])
  }

  /** Every iteration counts, the file accumulates every saved batch in order, and
      first_cycle turns False at the first successful save and stays so. */
  lemma {:induction false} SingleRunSummary<R>(cs: seq<Cycle<R>>)
    ensures var d := SingleRun(SingleStart(), cs);
            d.cycleCount == |cs| && d.file == SavedRows(cs) && d.firstCycle == (SavedRows(cs) == [])
    decreases |cs|
  {
    if cs != [] {
      SingleRunSummary(cs[..|cs| - 1]);
    }
  }

  class SingleFileDriver<R> {
    var cycleCount: nat
    var firstCycle: bool
    var file: seq<R>

    function State(): SingleFile<R>
      reads this
    {
      SingleFile(cycleCount, firstCycle, file)
    }

    constructor ()
      ensures State() == SingleStart()
    {
      cycleCount, firstCycle, file := 0, true, [];
    }

    method SaveToExcel(data: seq<R>, ioOk: bool) returns (ok: bool)
      modifies this`file
      ensures ok == (|data| > 0 && ioOk)
      ensures file == if ok then old(file) + data else old(file)
    {
      ok := |data| > 0 && ioOk;
      if ok {
        file := file + data;
      }
    }

    /** One pass of the loop; the date plays no part. */
    method RunCycle(c: Cycle<R>)
      modifies this
      ensures State() == SingleStep(old(State()), c)
    {
      cycleCount := cycleCount + 1;
      if |c.scraped| > 0 {
        var saved := SaveToExcel(c.scraped, c.saveOk);
        if saved {
          firstCycle := false;
        }
      }
    }
  }
}
