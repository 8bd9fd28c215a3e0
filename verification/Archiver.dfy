/** Export, upload, verify and drop: the archival of a partition as steps between which the process may
    crash, beside the days that pass and the rows and partitions that appear meanwhile. */
module Archiver {
  import opened Wrappers
  import opened Calendar
  import opened PartitionNames

  datatype AuditRow = AuditRow(id: nat, createdAt: int)

  // Export: ordering rows, splitting them into batches and putting the converted batches together.

  /** A row among sorted ones, after those of the same time. */
  function Placed(sorted: seq<AuditRow>, row: AuditRow): seq<AuditRow> {
    if sorted == [] || sorted[|sorted| - 1].createdAt <= row.createdAt then sorted + [row]
    else Placed(sorted[..|sorted| - 1], row) + [sorted[|sorted| - 1]]
  }

  /** The rows of a table in the order of their creation times. */
  function ByTime(rows: seq<AuditRow>): seq<AuditRow> {
    if rows == [] then [] else Placed(ByTime(rows[..|rows| - 1]), rows[|rows| - 1])
  }

  ghost predicate Sorted(rows: seq<AuditRow>) {
    forall i, j :: 0 <= i < j < |rows| ==> rows[i].createdAt <= rows[j].createdAt
  }

  lemma {:induction false} PlacedKeepsRows(sorted: seq<AuditRow>, row: AuditRow)
    ensures multiset(Placed(sorted, row)) == multiset(sorted) + multiset{row}
  {
    if sorted != [] && row.createdAt < sorted[|sorted| - 1].createdAt {
      var n := |sorted| - 1;
      PlacedKeepsRows(sorted[..n], row);
      assert sorted == sorted[..n] + [sorted[n]];
    }
  }

  lemma {:induction false} PlacedSorts(sorted: seq<AuditRow>, row: AuditRow, latest: int)
    requires Sorted(sorted) && row.createdAt <= latest && forall i :: 0 <= i < |sorted| ==>
      sorted[i].createdAt <= latest
    ensures Sorted(Placed(sorted, row)) && forall i :: 0 <= i < |Placed(sorted, row)| ==>
      Placed(sorted, row)[i].createdAt <= latest
  {
    if sorted != [] && row.createdAt < sorted[|sorted| - 1].createdAt {
      PlacedSorts(sorted[..|sorted| - 1], row, sorted[|sorted| - 1].createdAt);
    }
  }

  /** Exporting puts the rows in order and neither adds nor loses any. */
  lemma {:induction false} ByTimeSorts(rows: seq<AuditRow>)
    ensures Sorted(ByTime(rows)) && multiset(ByTime(rows)) == multiset(rows) && |ByTime(rows)| == |rows|
  {
    if rows != [] {
      var n := |rows| - 1;
      ByTimeSorts(rows[..n]);
      var sorted := ByTime(rows[..n]);
      PlacedKeepsRows(sorted, rows[n]);
      var latest := if sorted == [] || sorted[|sorted| - 1].createdAt <= rows[n].createdAt then rows[n].createdAt
        else sorted[|sorted| - 1].createdAt;
      PlacedSorts(sorted, rows[n], latest);
      assert rows == rows[..n] + [rows[n]];
    }
    assert |multiset(ByTime(rows))| == |multiset(rows)|;
  }

  function Chunks(rows: seq<AuditRow>, size: nat): (r: seq<seq<AuditRow>>)
    requires size > 0
  {
    if |rows| == 0 then []
    else if |rows| <= size then [rows]
    else [rows[..size]] + Chunks(rows[size..], size)
  }

  /** The batches that convert, one after the other; a batch that does not is left out. */
  function Written(batches: seq<seq<AuditRow>>, converts: seq<bool>): seq<AuditRow>
    requires |batches| == |converts|
  {
    if batches == [] then [] else (if converts[0] then batches[0] else []) + Written(batches[1..], converts[1..])
  }

  function RowCount(batches: seq<seq<AuditRow>>): nat {
    if batches == [] then 0 else |batches[0]| + RowCount(batches[1..])
  }

  predicate All(converts: seq<bool>) {
    forall i :: 0 <= i < |converts| ==> converts[i]
  }

  lemma {:induction false} WrittenIsFaithfulIff(batches: seq<seq<AuditRow>>, converts: seq<bool>)
    requires |batches| == |converts| && forall i :: 0 <= i < |batches| ==> batches[i] != []
    ensures |Written(batches, converts)| <= RowCount(batches)
    ensures |Written(batches, converts)| == RowCount(batches) <==> All(converts)
  {
    if batches != [] {
      WrittenIsFaithfulIff(batches[1..], converts[1..]);
      assert All(converts) <==> converts[0] && All(converts[1..]) by {
        assert converts == [converts[0]] + converts[1..];
      }
      assert batches[0] != [];
    }
  }

  lemma {:induction false} ChunksRejoin(rows: seq<AuditRow>, size: nat, converts: seq<bool>)
    requires size > 0
    ensures RowCount(Chunks(rows, size)) == |rows|
    ensures forall i :: 0 <= i < |Chunks(rows, size)| ==> 0 < |Chunks(rows, size)[i]| <= size
    ensures |converts| == |Chunks(rows, size)| && All(converts) ==> Written(Chunks(rows, size), converts) == rows
  {
    if 0 < |rows| <= size {
      assert RowCount([rows]) == |rows| + RowCount([rows][1..]);
      if |converts| == 1 && All(converts) {
        assert Written([rows], converts) == rows + Written([rows][1..], converts[1..]);
      }
    } else if |rows| > size {
      var rest := if |converts| > 0 then converts[1..] else [];
      ChunksRejoin(rows[size..], size, rest);
      assert Chunks(rows, size)[1..] == Chunks(rows[size..], size);
      if |converts| == |Chunks(rows, size)| && All(converts) {
        assert rows == rows[..size] + rows[size..];
      }
    }
  }

  /** Only the last batch may be short. */
  lemma {:induction false} ChunksAreFull(rows: seq<AuditRow>, size: nat, i: nat)
    requires size > 0 && i + 1 < |Chunks(rows, size)|
    ensures |Chunks(rows, size)[i]| == size
  {
    if i > 0 {
      ChunksAreFull(rows[size..], size, i - 1);
    }
  }

  /** An upload holds exactly the partition's rows, in order, exactly when every batch converted. */
  lemma UploadFaithfulIff(rows: seq<AuditRow>, size: nat, converts: seq<bool>)
    requires size > 0 && |converts| == |Chunks(rows, size)|
    ensures Written(Chunks(rows, size), converts) == rows <==> All(converts)
    ensures !All(converts) ==> |Written(Chunks(rows, size), converts)| < |rows|
  {
    ChunksRejoin(rows, size, converts);
    WrittenIsFaithfulIff(Chunks(rows, size), converts);
  }

  // The pipeline.

  const BATCH_SIZE: nat := 1000

  datatype Config = Config(prefix: string, hotRetentionDays: nat, advanceDays: nat)

  datatype Table = Table(rows: seq<AuditRow>, attached: bool)

  /** Where the archiver is with the month it works on. */
  datatype Stage =
    | Idle
    | Checking(month: int)
    | Exporting(month: int)
    | Exported(month: int, batches: seq<seq<AuditRow>>)
    | Verifying(month: int)
    | Detaching(month: int)
    | Dropping(month: int)

  /** Partitions by month number, archives by storage key, and every row ever stored, by month. */
  datatype State = State(
    today: Date,
    tables: map<int, Table>,
    storage: map<string, seq<AuditRow>>,
    history: map<int, seq<AuditRow>>,
    stage: Stage)

  /** The months whose names the archiver accepts. */
  predicate Named(m: int) {
    0 <= m < 120000
  }

  type Month = m: int | Named(m) witness 0

  function Key(cfg: Config, m: int): string
    requires Named(m)
  {
    NameLength(m);
    StorageKey(cfg.prefix, MonthName(m))
  }

  lemma NameLength(m: int)
    requires Named(m)
    ensures |MonthName(m)| == 20
  {
    MonthNameValid(m);
  }

  datatype Step =
    | NextDay
    | Insert(row: AuditRow)
    | Create(month: int)
    | Select(month: int)
    | Check(answered: bool)
    | Export(answered: bool)
    | Upload(converts: seq<bool>, fate: Fate)
    | Verify(answered: bool)
    | Detach(fate: Fate)
    | DropTable(fate: Fate)
    | Crash

  predicate Eligible(cfg: Config, today: Date, m: int) {
    AtMost(MonthStart(m + 1), SubDays(today, cfg.hotRetentionDays))
  }

  /** The state after a step, or none when it cannot be taken. Only one archiver runs at a time. */
  function Next(cfg: Config, s: State, step: Step): Option<State> {
    match step
    case NextDay => Some(s.(today := Succ(s.today)))
    case Insert(row) =>
      var m := MonthOf(s.today);
      if m in s.tables && m in s.history && s.tables[m].attached
      then Some(s.(tables := s.tables[m := Table(s.tables[m].rows + [row], true)],
                   history := s.history[m := s.history[m] + [row]]))
      else None
    case Create(m) =>
      if m in s.tables || !Named(m) || !(MonthOf(s.today) <= m <= MonthOf(AddDays(s.today, cfg.advanceDays))) then None
      else Some(s.(tables := s.tables[m := Table([], true)], history := s.history[m := []]))
    case Crash => Some(s.(stage := Idle))
    case Select(m) =>
      if s.stage.Idle? && Named(m) && m in s.tables && s.tables[m].attached && Eligible(cfg, s.today, m)
      then Some(s.(stage := Checking(m))) else None
    case _ => if s.stage.Idle? || !Named(s.stage.month) then None else Proceed(cfg, s, step, s.stage)
  }

  /** One step of the archival of the month at hand. */
  function Proceed(cfg: Config, s: State, step: Step, stage: Stage): Option<State>
    requires !stage.Idle? && Named(stage.month)
  {
    match (stage, step)
    case (Checking(m), Check(answered)) =>
      Some(s.(stage := if !answered then Idle else if Key(cfg, m) in s.storage then Detaching(m) else Exporting(m)))
    case (Exporting(m), Export(answered)) =>
      if !answered || m !in s.tables then Some(s.(stage := Idle))
      else
        var batches := Chunks(ByTime(s.tables[m].rows), BATCH_SIZE);
        Some(s.(stage := if RowCount(batches) == 0 then Detaching(m) else Exported(m, batches)))
    case (Exported(m, batches), Upload(converts, fate)) =>
      if |converts| != |batches| then None
      else
        Some(s.(storage := if fate.Failed? then s.storage else s.storage[Key(cfg, m) := Written(batches, converts)],
                stage := if fate.Done? then Verifying(m) else Idle))
    case (Verifying(m), Verify(answered)) =>
      Some(s.(stage := if answered && Key(cfg, m) in s.storage then Detaching(m) else Idle))
    case (Detaching(m), Detach(fate)) =>
      Some(s.(tables :=
                if fate.Failed? || m !in s.tables then s.tables else s.tables[m := s.tables[m].(attached := false)],
              stage := if fate.Done? then Dropping(m) else Idle))
    case (Dropping(m), DropTable(fate)) =>
      Some(s.(tables := if fate.Failed? then s.tables else s.tables - {m}, stage := Idle))
    case _ => None
  }

  function Run(cfg: Config, s: State, steps: seq<Step>): Option<State>
    decreases |steps|
  {
    if |steps| == 0 then Some(s)
    else
      var s' := Next(cfg, s, steps[0]);
      if s'.None? then None else Run(cfg, s'.value, steps[1..])
  }

  // Conservation.

  /** No day of the month is still to come. */
  predicate Closed(s: State, m: int) {
    MonthOf(s.today) > m
  }

  /** The month's archive, or none. */
  function ArchiveOf(cfg: Config, s: State, m: Month): Option<seq<AuditRow>> {
    if Key(cfg, m) in s.storage then Some(s.storage[Key(cfg, m)]) else None
  }

  /** The month's archive, if there is one, is all that was ever stored for it, in order. */
  predicate Exact(cfg: Config, s: State, m: Month) {
    ArchiveOf(cfg, s, m).Some? ==> m in s.history && ArchiveOf(cfg, s, m).value == ByTime(s.history[m])
  }

  /** An archive is of a month that is over and had rows; what it lacks of them makes it shorter. */
  predicate ArchiveSound(cfg: Config, s: State, m: Month) {
    ArchiveOf(cfg, s, m).Some? ==>
      && m in s.history && s.history[m] != [] && Closed(s, m)
      && (Exact(cfg, s, m) || |ArchiveOf(cfg, s, m).value| < |s.history[m]|)
  }

  /** If the month's table goes away, there is an archive unless there was nothing to archive. */
  predicate Droppable(cfg: Config, s: State, m: Month) {
    m in s.history && Closed(s, m) && (s.history[m] == [] || ArchiveOf(cfg, s, m).Some?)
  }

  predicate StageSound(cfg: Config, s: State) {
    match s.stage
    case Idle => true
    case Checking(m) => Named(m) && Closed(s, m)
    case Exporting(m) => Named(m) && Closed(s, m) && ArchiveOf(cfg, s, m).None?
    case Exported(m, batches) =>
      && Named(m) && Closed(s, m) && ArchiveOf(cfg, s, m).None?
      && m in s.history && s.history[m] != [] && batches == Chunks(ByTime(s.history[m]), BATCH_SIZE)
    case Verifying(m) => Named(m) && Closed(s, m) && m in s.history
    case Detaching(m) => Named(m) && Droppable(cfg, s, m)
    case Dropping(m) => Named(m) && Droppable(cfg, s, m)
  }

  ghost predicate Inv(cfg: Config, s: State) {
    && Real(s.today)
    && (forall m :: m in s.tables ==> m in s.history && s.tables[m].rows == s.history[m])
    && (forall m: Month :: ArchiveSound(cfg, s, m))
    && (forall m :: m in s.history && m !in s.tables ==> Named(m) && Droppable(cfg, s, m))
    && StageSound(cfg, s)
  }

  lemma KeysDistinct(cfg: Config, m: Month, n: Month)
    requires Key(cfg, m) == Key(cfg, n)
    ensures m == n
  {
    NameLength(m);
    NameLength(n);
    StorageKeysDistinct(cfg.prefix, MonthName(m), MonthName(n));
    NamesDistinct(m, n);
  }

  lemma EligibleIsClosed(cfg: Config, s: State, m: int)
    requires Real(s.today) && Eligible(cfg, s.today, m)
    ensures Closed(s, m)
  {
    AddUndoesSub(s.today, cfg.hotRetentionDays);
    MonthsFollowDates(MonthStart(m + 1), s.today);
  }

  predicate OfTheWorld(step: Step) {
    step.NextDay? || step.Insert? || step.Create? || step.Crash? || step.Select?
  }

  /** Rows arrive in the month of the day, which is not over, so no archive of it exists yet. */
  lemma RowKeepsInv(cfg: Config, s: State, step: Step, s': State)
    requires Inv(cfg, s) && Next(cfg, s, step) == Some(s') && (step.Insert? || step.Create?)
    ensures Inv(cfg, s')
    ensures forall m: Month :: Exact(cfg, s', m) <==> Exact(cfg, s, m)
  {
    forall m: Month
      ensures ArchiveSound(cfg, s', m) && (Exact(cfg, s', m) <==> Exact(cfg, s, m))
    {
      assert ArchiveSound(cfg, s, m) && ArchiveOf(cfg, s', m) == ArchiveOf(cfg, s, m);
    }
  }

  lemma WorldKeepsInv(cfg: Config, s: State, step: Step, s': State)
    requires Inv(cfg, s) && Next(cfg, s, step) == Some(s') && OfTheWorld(step)
    ensures Inv(cfg, s')
    ensures forall m: Month :: Exact(cfg, s', m) <==> Exact(cfg, s, m)
  {
    if step.Insert? || step.Create? {
      RowKeepsInv(cfg, s, step, s');
      return;
    }
    if step.NextDay? {
      SuccIsNext(s.today, s.today);
      MonthsFollowDates(s.today, s'.today);
    } else if step.Select? {
      EligibleIsClosed(cfg, s, step.month);
    }
    forall m: Month
      ensures ArchiveSound(cfg, s', m) && (Exact(cfg, s', m) <==> Exact(cfg, s, m))
    {
      assert ArchiveSound(cfg, s, m) && ArchiveOf(cfg, s', m) == ArchiveOf(cfg, s, m);
    }
  }

  /** An upload of the month that takes effect. */
  predicate Uploads(s: State, step: Step, m: int) {
    step.Upload? && !step.fate.Failed? && s.stage.Exported? && s.stage.month == m
  }

  /** The month that is uploaded: what its archive lacks of its rows makes it shorter. */
  lemma UploadedExactIff(cfg: Config, s: State, step: Step, s': State, m: Month)
    requires Inv(cfg, s) && Next(cfg, s, step) == Some(s') && Uploads(s, step, m)
    ensures ArchiveOf(cfg, s', m).Some? && ArchiveSound(cfg, s', m) && (Exact(cfg, s', m) <==> All(step.converts))
    ensures s'.storage == s.storage[Key(cfg, m) := ArchiveOf(cfg, s', m).value]
    ensures s'.history == s.history && s'.today == s.today && s'.tables == s.tables
  {
    ByTimeSorts(s.history[m]);
    UploadFaithfulIff(ByTime(s.history[m]), BATCH_SIZE, step.converts);
  }

  lemma UploadKeepsInv(cfg: Config, s: State, step: Step, s': State, m: Month)
    requires Inv(cfg, s) && Next(cfg, s, step) == Some(s') && Uploads(s, step, m)
    ensures Inv(cfg, s') && (Exact(cfg, s', m) <==> All(step.converts))
    ensures forall n: Month :: n != m ==> ArchiveOf(cfg, s', n) == ArchiveOf(cfg, s, n)
  {
    UploadedExactIff(cfg, s, step, s', m);
    forall n: Month | n != m
      ensures ArchiveOf(cfg, s', n) == ArchiveOf(cfg, s, n) && ArchiveSound(cfg, s', n)
    {
      OtherStaysSound(cfg, s, s', m, ArchiveOf(cfg, s', m).value, n);
    }
  }

  lemma OtherStaysSound(cfg: Config, s: State, s': State, m: Month, content: seq<AuditRow>, n: Month)
    requires ArchiveSound(cfg, s, n) && s'.history == s.history && s'.today == s.today
    requires s'.storage == s.storage[Key(cfg, m) := content] && n != m
    ensures ArchiveOf(cfg, s', n) == ArchiveOf(cfg, s, n) && ArchiveSound(cfg, s', n)
  {
    OtherArchiveKept(cfg, s, s', m, content, n);
  }

  lemma OtherArchiveKept(cfg: Config, s: State, s': State, m: Month, content: seq<AuditRow>, n: Month)
    requires s'.storage == s.storage[Key(cfg, m) := content] && n != m
    ensures ArchiveOf(cfg, s', n) == ArchiveOf(cfg, s, n)
  {
    if Key(cfg, n) == Key(cfg, m) {
      KeysDistinct(cfg, n, m);
    }
  }

  lemma BatchesCount(rows: seq<AuditRow>)
    ensures RowCount(Chunks(ByTime(rows), BATCH_SIZE)) == |rows|
  {
    ByTimeSorts(rows);
    ChunksRejoin(ByTime(rows), BATCH_SIZE, []);
  }

  lemma ExportKeepsInv(cfg: Config, s: State, step: Step, s': State)
    requires Inv(cfg, s) && Next(cfg, s, step) == Some(s') && step.Export?
    ensures Inv(cfg, s') && s'.storage == s.storage && s'.history == s.history
  {
    if s.stage.month in s.tables {
      BatchesCount(s.tables[s.stage.month].rows);
    }
    forall n: Month
      ensures ArchiveSound(cfg, s', n)
    {
      assert ArchiveSound(cfg, s, n) && ArchiveOf(cfg, s', n) == ArchiveOf(cfg, s, n);
    }
  }

  lemma DropKeepsInv(cfg: Config, s: State, step: Step, s': State)
    requires Inv(cfg, s) && Next(cfg, s, step) == Some(s') && (step.Detach? || step.DropTable?)
    ensures Inv(cfg, s') && s'.storage == s.storage && s'.history == s.history
  {
    forall n: Month
      ensures ArchiveSound(cfg, s', n)
    {
      assert ArchiveSound(cfg, s, n) && ArchiveOf(cfg, s', n) == ArchiveOf(cfg, s, n);
    }
  }

  lemma ProceedKeepsInv(cfg: Config, s: State, step: Step, s': State)
    requires Inv(cfg, s) && Next(cfg, s, step) == Some(s')
    requires step.Check? || step.Verify? || (step.Upload? && step.fate.Failed?)
    ensures Inv(cfg, s') && s'.storage == s.storage && s'.history == s.history
  {
    var stage: Month := s.stage.month;
    assert ArchiveSound(cfg, s, stage);
    forall n: Month
      ensures ArchiveSound(cfg, s', n)
    {
      assert ArchiveSound(cfg, s, n) && ArchiveOf(cfg, s', n) == ArchiveOf(cfg, s, n);
    }
  }

  /** An upload of the month that takes effect converts all its batches. */
  predicate StepConverts(s: State, step: Step, m: int) {
    Uploads(s, step, m) ==> All(step.converts)
  }

  /** Every upload of the month that takes effect in the run converts all its batches. */
  predicate Converted(cfg: Config, s: State, steps: seq<Step>, m: int)
    decreases |steps|
  {
    |steps| == 0 ||
    (StepConverts(s, steps[0], m)
     && (Next(cfg, s, steps[0]).Some? ==> Converted(cfg, Next(cfg, s, steps[0]).value, steps[1..], m)))
  }

  /** Every step keeps the invariant, and only an upload of the month makes its archive wrong; then it
      stays wrong. */
  lemma StepKeepsInv(cfg: Config, s: State, step: Step, s': State, m: Month)
    requires Inv(cfg, s) && Next(cfg, s, step) == Some(s')
    ensures Inv(cfg, s') && (Exact(cfg, s', m) <==> Exact(cfg, s, m) && StepConverts(s, step, m))
  {
    if OfTheWorld(step) {
      WorldKeepsInv(cfg, s, step, s');
    } else if step.Upload? && !step.fate.Failed? {
      UploadKeepsInv(cfg, s, step, s', s.stage.month);
    } else if step.Export? {
      ExportKeepsInv(cfg, s, step, s');
    } else if step.Detach? || step.DropTable? {
      DropKeepsInv(cfg, s, step, s');
    } else {
      ProceedKeepsInv(cfg, s, step, s');
    }
  }

  /** Over every run, whatever fails, is lost, crashes or is run again, the archive of a month is exact at
      the end exactly when every upload of that month that took effect converted all its batches. */
  lemma {:induction false} ArchiveExactIff(cfg: Config, s: State, steps: seq<Step>, s': State, m: Month)
    requires Inv(cfg, s) && Exact(cfg, s, m) && Run(cfg, s, steps) == Some(s')
    ensures Inv(cfg, s') && (Exact(cfg, s', m) <==> Converted(cfg, s, steps, m))
    decreases |steps|
  {
    if |steps| != 0 {
      var mid := Next(cfg, s, steps[0]).value;
      StepKeepsInv(cfg, s, steps[0], mid, m);
      if StepConverts(s, steps[0], m) {
        ArchiveExactIff(cfg, mid, steps[1..], s', m);
      } else {
        InexactStays(cfg, mid, steps[1..], s', m);
      }
    }
  }

  lemma {:induction false} InexactStays(cfg: Config, s: State, steps: seq<Step>, s': State, m: Month)
    requires Inv(cfg, s) && !Exact(cfg, s, m) && Run(cfg, s, steps) == Some(s')
    ensures Inv(cfg, s') && !Exact(cfg, s', m)
    decreases |steps|
  {
    if |steps| != 0 {
      StepKeepsInv(cfg, s, steps[0], Next(cfg, s, steps[0]).value, m);
      InexactStays(cfg, Next(cfg, s, steps[0]).value, steps[1..], s', m);
    }
  }

  /** A start with nothing archived yet. */
  ghost predicate Fresh(cfg: Config, s: State) {
    && Real(s.today) && s.stage.Idle? && s.history.Keys == s.tables.Keys
    && (forall m :: m in s.tables ==> s.tables[m].rows == s.history[m])
    && (forall m: Month :: ArchiveOf(cfg, s, m).None?)
  }

  lemma StepGrowsHistory(cfg: Config, s: State, step: Step, s': State, m: int)
    requires Inv(cfg, s) && Next(cfg, s, step) == Some(s') && m in s.history
    ensures m in s'.history && s.history[m] <= s'.history[m]
  {
    if step.Create? && step.month == m {
      // A month that can be created has not ended, so it was never dropped.
      MonthsFollowDates(s.today, s.today);
    }
  }

  lemma {:induction false} HistoryGrows(cfg: Config, s: State, steps: seq<Step>, s': State, m: int)
    requires Inv(cfg, s) && Run(cfg, s, steps) == Some(s') && m in s.history
    ensures Inv(cfg, s') && m in s'.history && s.history[m] <= s'.history[m]
    decreases |steps|
  {
    if |steps| != 0 {
      var mid := Next(cfg, s, steps[0]).value;
      StepGrowsHistory(cfg, s, steps[0], mid, m);
      StepKeepsInv(cfg, s, steps[0], mid, 0);
      HistoryGrows(cfg, mid, steps[1..], s', m);
    }
  }

  /** Conservation. Over any sequence of archiver runs, with calls failing, replies lost and crashes
      between any two steps, nothing once stored for a month is forgotten; its table holds all of it, and
      once the table is gone there is an archive under the partition's key unless there was nothing to
      archive. The archive holds exactly the partition's rows, in order, exactly when every upload of this
      month that took effect converted all its batches. */
  lemma RowsAreConserved(cfg: Config, s0: State, before: seq<Step>, s: State, after: seq<Step>, s': State, m: Month)
    requires Fresh(cfg, s0) && Run(cfg, s0, before) == Some(s) && Run(cfg, s, after) == Some(s') && m in s.history
    ensures m in s'.history && s.history[m] <= s'.history[m]
    ensures m in s'.tables ==> s'.tables[m].rows == s'.history[m]
    ensures m !in s'.tables && s'.history[m] != [] ==> ArchiveOf(cfg, s', m).Some?
    ensures ArchiveOf(cfg, s', m).Some? ==>
      (ArchiveOf(cfg, s', m).value == ByTime(s'.history[m]) <==>
         Converted(cfg, s0, before, m) && Converted(cfg, s, after, m))
  {
    ArchiveExactIff(cfg, s0, before, s, m);
    HistoryGrows(cfg, s, after, s', m);
    if Exact(cfg, s, m) {
      ArchiveExactIff(cfg, s, after, s', m);
    } else {
      InexactStays(cfg, s, after, s', m);
    }
  }

  /** Once a month's table is gone, every row ever stored for it is in its archive exactly when every upload
      of the month that took effect converted all its batches. */
  lemma DroppedRowsKeptIff(cfg: Config, s0: State, steps: seq<Step>, s: State, m: Month)
    requires Fresh(cfg, s0) && Run(cfg, s0, steps) == Some(s) && m in s.history && m !in s.tables
    ensures
      var archived := if ArchiveOf(cfg, s, m).Some? then ArchiveOf(cfg, s, m).value else [];
      multiset(s.history[m]) <= multiset(archived) <==> Converted(cfg, s0, steps, m)
  {
    ArchiveExactIff(cfg, s0, steps, s, m);
    ByTimeSorts(s.history[m]);
    var rows, archive := s.history[m], ArchiveOf(cfg, s, m);
    assert ArchiveSound(cfg, s, m) && Droppable(cfg, s, m);
    if archive.Some? && multiset(rows) <= multiset(archive.value) {
      assert multiset(archive.value) == multiset(rows) + (multiset(archive.value) - multiset(rows));
      assert |multiset(archive.value)| >= |multiset(rows)|;
    }
  }

  /** A run that finds the month's archive drops the table without another export. */
  lemma RerunDrops(cfg: Config, s: State, m: Month)
    requires s.stage.Idle? && m in s.tables && s.tables[m].attached && Eligible(cfg, s.today, m)
    requires ArchiveOf(cfg, s, m).Some?
    ensures Run(cfg, s, [Select(m), Check(true), Detach(Done), DropTable(Done)]) == Some(s.(tables := s.tables - {m}))
  {
    var s1 := s.(stage := Checking(m));
    var s2 := s.(stage := Detaching(m));
    var s3 := Next(cfg, s2, Detach(Done)).value;
    var s4 := Next(cfg, s3, DropTable(Done)).value;
    assert s4.tables == s.tables - {m};
    assert Run(cfg, s3, [DropTable(Done)]) == Some(s4);
    assert Run(cfg, s2, [Detach(Done), DropTable(Done)]) == Some(s4);
    assert Run(cfg, s1, [Check(true), Detach(Done), DropTable(Done)]) == Some(s4);
  }

  /** An upload whose reply is lost is not repeated: the next run finds the key and drops the table. The
      archive then holds all of the rows exactly when every batch had converted. */
  lemma RerunKeepsRowsIff(cfg: Config, s: State, m: Month, converts: seq<bool>)
    requires Inv(cfg, s) && m in s.tables && s.tables[m].attached && Eligible(cfg, s.today, m)
    requires s.stage == Exported(m, Chunks(ByTime(s.history[m]), BATCH_SIZE))
    requires |converts| == |Chunks(ByTime(s.history[m]), BATCH_SIZE)|
    ensures
      var done := Run(cfg, s, [Upload(converts, Lost)] + [Select(m), Check(true), Detach(Done), DropTable(Done)]);
      done.Some? && m !in done.value.tables && ArchiveOf(cfg, done.value, m).Some?
      && (ArchiveOf(cfg, done.value, m).value == ByTime(s.history[m]) <==> All(converts))
  {
    UploadFaithfulIff(ByTime(s.history[m]), BATCH_SIZE, converts);
    var uploaded := Next(cfg, s, Upload(converts, Lost)).value;
    RerunDrops(cfg, uploaded, m);
    RunCons(cfg, s, Upload(converts, Lost), uploaded, [Select(m), Check(true), Detach(Done), DropTable(Done)]);
  }

  lemma RunCons(cfg: Config, s: State, step: Step, s': State, rest: seq<Step>)
    requires Next(cfg, s, step) == Some(s')
    ensures Run(cfg, s, [step] + rest) == Run(cfg, s', rest)
  {
    assert ([step] + rest)[0] == step && ([step] + rest)[1..] == rest;
  }
}
