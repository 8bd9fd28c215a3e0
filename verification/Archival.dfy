/** The archiver itself: listing and selecting partitions and archiving them one after the other, each
    archival shown to be a run of the pipeline. */
module Archival {
  import opened Wrappers
  import opened Calendar
  import opened PartitionNames
  import opened Partitions
  import opened Archiver
  import Collections

  // Listing and selecting.

  /** A partition is listed under its name, which reads back as its month. */
  function Info(m: Month): PartitionInfo {
    PartitionInfo(MonthName(m), MonthStart(m), MonthStart(m + 1))
  }

  function Infos(months: seq<Month>): seq<PartitionInfo> {
    Collections.Map(Info, months)
  }

  /** Every day of the month is more than so many days old. */
  ghost predicate AllOlder(m: Month, days: nat, today: Date) {
    forall d :: Real(d) && InMonth(d, m) ==> OlderThan(d, days, today)
  }

  predicate Ascending(months: seq<Month>) {
    forall i, j :: 0 <= i < j < |months| ==> months[i] < months[j]
  }

  /** Partitions still attached to the table of audit events. */
  predicate Listed(tables: map<int, Table>, m: int) {
    Named(m) && m in tables && tables[m].attached
  }

  function Selected(cfg: Config, today: Date, months: seq<Month>): (r: seq<Month>)
    ensures forall m: Month :: m in r <==> m in months && Eligible(cfg, today, m)
  {
    if months == [] then []
    else (if Eligible(cfg, today, months[0]) then [months[0]] else []) + Selected(cfg, today, months[1..])
  }

  lemma {:induction false} SelectedAscends(cfg: Config, today: Date, months: seq<Month>)
    requires Ascending(months)
    ensures Ascending(Selected(cfg, today, months))
  {
    if months != [] {
      SelectedAscends(cfg, today, months[1..]);
      var rest := Selected(cfg, today, months[1..]);
      forall i | 0 <= i < |rest|
        ensures months[0] < rest[i]
      {
        assert rest[i] in rest;
      }
    }
  }

  lemma InfosAppend(a: seq<Month>, b: seq<Month>)
    ensures Infos(a + b) == Infos(a) + Infos(b)
  {
    Collections.MapAppends(Info, a, b);
  }

  lemma {:induction false} SelectedIsArchived(cfg: Config, today: Date, months: seq<Month>)
    ensures PartitionsToArchive(Infos(months), today, cfg.hotRetentionDays) == Infos(Selected(cfg, today, months))
  {
    if months != [] {
      var rest := months[1..];
      SelectedIsArchived(cfg, today, rest);
      assert months == [months[0]] + rest;
      InfosAppend([months[0]], rest);
      InfosAppend([months[0]], Selected(cfg, today, rest));
      assert Infos([months[0]]) == [Info(months[0])];
      SelectionStep(Info(months[0]), Infos(rest), Infos(months), today, cfg.hotRetentionDays);
    }
  }

  /** The listed partitions are those of `months`, in ascending order, and then those of `rest`. */
  ghost predicate SplitsList(tables: map<int, Table>, months: seq<Month>, rest: set<nat>) {
    && Ascending(months)
    && (forall m :: m in rest ==> Listed(tables, m))
    && (forall i :: 0 <= i < |months| ==> Listed(tables, months[i]))
    && (forall i, n :: 0 <= i < |months| && n in rest ==> months[i] < n)
    && (forall m: Month :: Listed(tables, m) ==> m in months || m in rest)
  }

  lemma SplitsSnoc(tables: map<int, Table>, months: seq<Month>, rest: set<nat>, m: Month)
    requires SplitsList(tables, months, rest) && m in rest && forall n :: n in rest ==> m <= n
    ensures SplitsList(tables, months + [m], rest - {m})
  {
    assert (months + [m])[|months|] == m;
    forall n: Month | Listed(tables, n)
      ensures n in months + [m] || n in rest - {m}
    {
      assert n in months || n in rest;
    }
  }

  lemma InfosSnoc(months: seq<Month>, m: Month)
    ensures Infos(months + [m]) == Infos(months) + [Info(m)]
  {
    InfosAppend(months, [m]);
    assert Infos([m]) == [Info(m)];
  }

  // Runs of the pipeline.

  /** How the calls of one archival fare, and which batches do not convert. */
  datatype ArchivalRun = ArchivalRun(
    checkOk: bool, exportOk: bool, broken: set<nat>, upload: Fate, verifyOk: bool, detach: Fate, drop: Fate)

  /** Which of so many batches convert. */
  function Converts(batches: nat, broken: set<nat>): seq<bool> {
    seq(batches, i requires 0 <= i => i !in broken)
  }

  lemma {:induction false} WrittenAppends(batches: seq<seq<AuditRow>>, converts: seq<bool>, batch: seq<AuditRow>,
                                          ok: bool)
    requires |batches| == |converts|
    ensures Written(batches + [batch], converts + [ok]) == Written(batches, converts) + if ok then batch else []
    ensures RowCount(batches + [batch]) == RowCount(batches) + |batch|
  {
    var all, flags := batches + [batch], converts + [ok];
    if batches == [] {
      assert all[1..] == [] && flags[1..] == [] && all[0] == batch && flags[0] == ok;
    } else {
      WrittenAppends(batches[1..], converts[1..], batch, ok);
      assert all[0] == batches[0] && flags[0] == converts[0];
      assert all[1..] == batches[1..] + [batch] && flags[1..] == converts[1..] + [ok];
    }
  }

  lemma {:induction false} RunAppend(cfg: Config, s: State, first: seq<Step>, mid: State, rest: seq<Step>)
    requires Run(cfg, s, first) == Some(mid)
    ensures Run(cfg, s, first + rest) == Run(cfg, mid, rest)
    decreases |first|
  {
    if |first| == 0 {
      assert first + rest == rest;
    } else {
      RunAppend(cfg, Next(cfg, s, first[0]).value, first[1..], mid, rest);
      assert (first + rest)[1..] == first[1..] + rest;
    }
  }

  lemma RunOne(cfg: Config, s: State, first: seq<Step>, mid: State, step: Step)
    requires Run(cfg, s, first) == Some(mid)
    ensures Run(cfg, s, first + [step]) == Next(cfg, mid, step)
  {
    RunAppend(cfg, s, first, mid, [step]);
    assert [step][1..] == [];
  }

  lemma SelectAndCheck(cfg: Config, s: State, m: int, ok: bool)
    requires s.stage.Idle? && Named(m) && m in s.tables && s.tables[m].attached && Eligible(cfg, s.today, m)
    ensures Run(cfg, s, [Select(m), Check(ok)]) ==
      Some(s.(stage := if !ok then Idle else if Key(cfg, m) in s.storage then Detaching(m) else Exporting(m)))
  {
    RunOne(cfg, s, [], s, Select(m));
    assert [] + [Select(m)] == [Select(m)];
    RunOne(cfg, s, [Select(m)], s.(stage := Checking(m)), Check(ok));
    assert [Select(m)] + [Check(ok)] == [Select(m), Check(ok)];
  }

  /** The state once the upload has been sent. */
  function Uploaded(cfg: Config, s: State, m: int, content: seq<AuditRow>, fate: Fate): State
    requires Named(m)
  {
    s.(storage := if fate.Failed? then s.storage else s.storage[Key(cfg, m) := content],
       stage := if fate.Done? then Verifying(m) else Idle)
  }

  lemma UploadRuns(cfg: Config, s: State, m: int, batches: seq<seq<AuditRow>>, converts: seq<bool>, fate: Fate)
    requires s.stage == Exported(m, batches) && Named(m) && |converts| == |batches|
    ensures Run(cfg, s, [Upload(converts, fate)]) == Some(Uploaded(cfg, s, m, Written(batches, converts), fate))
  {
    assert Next(cfg, s, Upload(converts, fate)) == Some(Uploaded(cfg, s, m, Written(batches, converts), fate));
  }

  lemma VerifyRuns(cfg: Config, s: State, before: seq<Step>, mid: State, m: int, ok: bool)
    requires Run(cfg, s, before) == Some(mid) && Named(m) && mid.stage == Verifying(m) && Key(cfg, m) in mid.storage
    ensures Run(cfg, s, before + [Verify(ok)]) == Some(mid.(stage := if ok then Detaching(m) else Idle))
  {
    RunOne(cfg, s, before, mid, Verify(ok));
  }

  /** Exporting these rows goes as far as the drop. */
  predicate ExportGoesThrough(rows: seq<AuditRow>, run: ArchivalRun) {
    run.exportOk && (rows == [] || (run.upload.Done? && run.verifyOk))
  }

  /** What is written for these rows. */
  function Content(rows: seq<AuditRow>, broken: set<nat>): seq<AuditRow> {
    var batches := Chunks(ByTime(rows), BATCH_SIZE);
    Written(batches, Converts(|batches|, broken))
  }

  /** What an archival comes to before the drop: it gives up, finds the archive, or makes it. */
  datatype Treatment = GivesUp | Skips | Exports

  function Treats(cfg: Config, s: State, m: Month, run: ArchivalRun): Treatment {
    if m !in s.tables || !run.checkOk then GivesUp
    else if ArchiveOf(cfg, s, m).Some? then Skips
    else if ExportGoesThrough(s.tables[m].rows, run) then Exports
    else GivesUp
  }

  predicate Removes(cfg: Config, s: State, m: Month, run: ArchivalRun) {
    !Treats(cfg, s, m, run).GivesUp? && run.detach.Done? && !run.drop.Failed?
  }

  /** The month's archive after one archival: an upload that takes effect makes one, even if its reply is lost. */
  function ArchiveAfter(cfg: Config, s: State, m: Month, run: ArchivalRun): Option<seq<AuditRow>> {
    if m !in s.tables || !run.checkOk || ArchiveOf(cfg, s, m).Some? || !run.exportOk then ArchiveOf(cfg, s, m)
    else if s.tables[m].rows == [] || run.upload.Failed? then None
    else Some(Content(s.tables[m].rows, run.broken))
  }

  /** What an archival writes is exact exactly when no batch is broken. */
  lemma ContentExactIff(rows: seq<AuditRow>, broken: set<nat>)
    ensures Content(rows, broken) == ByTime(rows) <==>
      forall i: nat :: i < |Chunks(ByTime(rows), BATCH_SIZE)| ==> i !in broken
  {
    var n := |Chunks(ByTime(rows), BATCH_SIZE)|;
    UploadFaithfulIff(ByTime(rows), BATCH_SIZE, Converts(n, broken));
    assert forall i: nat :: i < n ==> (Converts(n, broken)[i] <==> i !in broken);
  }

  datatype Counts = Counts(archived: nat, skipped: nat, rowsExported: nat)

  function Plus(c: Counts, d: Counts): Counts {
    Counts(c.archived + d.archived, c.skipped + d.skipped, c.rowsExported + d.rowsExported)
  }

  lemma PlusAssociates(c: Counts, d: Counts, e: Counts)
    ensures Plus(Plus(c, d), e) == Plus(c, Plus(d, e))
  {
  }

  /** What one archival adds to the counters. */
  function Gain(cfg: Config, s: State, m: Month, run: ArchivalRun): Counts {
    match Treats(cfg, s, m, run)
    case GivesUp => Counts(0, 0, 0)
    case Skips => Counts(0, 1, 0)
    case Exports => Counts(1, 0, |s.tables[m].rows|)
  }

  /** How the archivals of the months fare. */
  type Plan = int -> ArchivalRun

  /** What the archivals of distinct months add, each of them judged in the state before all of them. */
  function Tally(cfg: Config, s: State, months: seq<Month>, plan: Plan): Counts {
    if months == [] then Counts(0, 0, 0)
    else
      var n := |months| - 1;
      Plus(Tally(cfg, s, months[..n], plan), Gain(cfg, s, months[n], plan(months[n])))
  }

  predicate SameTable(was: map<int, Table>, now: map<int, Table>, m: int) {
    (m in now <==> m in was) && (m in now ==> now[m] == was[m])
  }

  /** The tables and archives of all other months are as they were. */
  ghost predicate OthersKept(cfg: Config, s: State, s': State, months: set<int>) {
    && (forall n :: n !in months ==> SameTable(s.tables, s'.tables, n))
    && (forall n: Month :: n !in months ==> ArchiveOf(cfg, s', n) == ArchiveOf(cfg, s, n))
  }

  /** Only this month's table and archive differ. */
  ghost predicate OnlyMonth(cfg: Config, s: State, s': State, m: Month) {
    s'.tables - {m} == s.tables - {m} && s'.storage - {Key(cfg, m)} == s.storage - {Key(cfg, m)}
  }

  lemma OnlyMonthKeepsOthers(cfg: Config, s: State, s': State, m: Month)
    requires OnlyMonth(cfg, s, s', m)
    ensures OthersKept(cfg, s, s', {m})
  {
    forall n | n != m
      ensures SameTable(s.tables, s'.tables, n)
    {
      assert n in s'.tables - {m} <==> n in s.tables - {m};
      if n in s.tables {
        assert (s'.tables - {m})[n] == (s.tables - {m})[n];
      }
    }
    forall n: Month | n != m
      ensures ArchiveOf(cfg, s', n) == ArchiveOf(cfg, s, n)
    {
      if Key(cfg, n) == Key(cfg, m) {
        KeysDistinct(cfg, n, m);
      }
      assert Key(cfg, n) in s'.storage - {Key(cfg, m)} <==> Key(cfg, n) in s.storage - {Key(cfg, m)};
      if Key(cfg, n) in s.storage {
        assert (s'.storage - {Key(cfg, m)})[Key(cfg, n)] == (s.storage - {Key(cfg, m)})[Key(cfg, n)];
      }
    }
  }

  lemma UntouchedAlike(cfg: Config, s: State, s': State, months: set<int>, m: Month, run: ArchivalRun)
    requires OthersKept(cfg, s, s', months) && m !in months
    ensures SameTable(s.tables, s'.tables, m) && ArchiveAfter(cfg, s', m, run) == ArchiveAfter(cfg, s, m, run)
    ensures Removes(cfg, s', m, run) == Removes(cfg, s, m, run) && Gain(cfg, s', m, run) == Gain(cfg, s, m, run)
  {
    assert SameTable(s.tables, s'.tables, m);
    assert Treats(cfg, s', m, run) == Treats(cfg, s, m, run);
  }

  /** The table of the month is gone just if its archival got through, and its archive is what that left. */
  predicate Outcome(cfg: Config, s0: State, s: State, m: Month, run: ArchivalRun) {
    (m !in s.tables <==> Removes(cfg, s0, m, run)) && ArchiveOf(cfg, s, m) == ArchiveAfter(cfg, s0, m, run)
  }

  /** What an outcome is, call by call: the table goes only after the archive was found, or the export was
      uploaded and seen in storage unless there was nothing to upload, and then detaching and dropping. */
  lemma OutcomeMeans(cfg: Config, s0: State, s: State, m: Month, run: ArchivalRun)
    requires m in s0.tables && Outcome(cfg, s0, s, m, run)
    ensures
      var rows, key := s0.tables[m].rows, Key(cfg, m);
      var found := run.checkOk && key in s0.storage;
      var exported := run.checkOk && key !in s0.storage && run.exportOk &&
        (rows == [] || (run.upload.Done? && run.verifyOk));
      && (m !in s.tables <==> (found || exported) && run.detach.Done? && !run.drop.Failed?)
      && Gain(cfg, s0, m, run).skipped == (if found then 1 else 0)
      && Gain(cfg, s0, m, run).archived == (if exported then 1 else 0)
      && Gain(cfg, s0, m, run).rowsExported == (if exported then |rows| else 0)
    ensures
      var rows, key := s0.tables[m].rows, Key(cfg, m);
      if run.checkOk && key !in s0.storage && run.exportOk && rows != [] && !run.upload.Failed?
      then key in s.storage && s.storage[key] == Content(rows, run.broken)
      else (key in s.storage <==> key in s0.storage) && (key in s.storage ==> s.storage[key] == s0.storage[key])
  {
  }

  ghost predicate Outcomes(cfg: Config, s0: State, s: State, months: seq<Month>, plan: Plan) {
    forall i :: 0 <= i < |months| ==> Outcome(cfg, s0, s, months[i], plan(months[i]))
  }

  lemma OutcomesSnoc(cfg: Config, s0: State, s: State, s': State, months: seq<Month>, plan: Plan, m: Month)
    requires m !in months && Outcomes(cfg, s0, s, months, plan)
    requires OthersKept(cfg, s, s', {m}) && Outcome(cfg, s0, s', m, plan(m))
    ensures Outcomes(cfg, s0, s', months + [m], plan)
  {
    forall i | 0 <= i < |months|
      ensures Outcome(cfg, s0, s', months[i], plan(months[i]))
    {
      assert months[i] != m && Outcome(cfg, s0, s, months[i], plan(months[i]));
      assert SameTable(s.tables, s'.tables, months[i]);
    }
  }

  lemma TallySnoc(cfg: Config, s: State, months: seq<Month>, plan: Plan, m: Month)
    ensures Tally(cfg, s, months + [m], plan) == Plus(Tally(cfg, s, months, plan), Gain(cfg, s, m, plan(m)))
  {
    assert (months + [m])[..|months|] == months;
  }

  function Of(months: seq<Month>): set<int> {
    set m: int | m in months
  }

  lemma OfSnoc(months: seq<Month>, m: Month)
    ensures Of(months + [m]) == Of(months) + {m}
  {
  }

  lemma OthersSnoc(cfg: Config, s0: State, s: State, s': State, months: seq<Month>, m: Month)
    requires OthersKept(cfg, s0, s, Of(months)) && OthersKept(cfg, s, s', {m})
    ensures OthersKept(cfg, s0, s', Of(months + [m]))
  {
    OfSnoc(months, m);
  }

  /** The trace from `s0` to `s` is these archivals, one after the other, and nothing else; the counters
      gain `gain`. */
  ghost predicate Archivals(cfg: Config, s0: State, trace: seq<Step>, s: State, gain: Counts, months: seq<Month>,
                            plan: Plan) {
    match Run(cfg, s0, trace)
    case None => false
    case Some(end) =>
      && end == s && gain == Tally(cfg, s0, months, plan)
      && OthersKept(cfg, s0, s, Of(months)) && Outcomes(cfg, s0, s, months, plan)
  }

  /** One more archival after others comes out as it would have on its own. */
  lemma ArchivalsSnoc(cfg: Config, s0: State, trace: seq<Step>, s: State, gain: Counts, months: seq<Month>, plan: Plan,
                      steps: seq<Step>, s': State, m: Month)
    requires Archivals(cfg, s0, trace, s, gain, months, plan) && m !in months
    requires Run(cfg, s, steps) == Some(s') && OnlyMonth(cfg, s, s', m) && Outcome(cfg, s, s', m, plan(m))
    ensures Archivals(cfg, s0, trace + steps, s', Plus(gain, Gain(cfg, s, m, plan(m))), months + [m], plan)
  {
    UntouchedAlike(cfg, s0, s, Of(months), m, plan(m));
    RunAppend(cfg, s0, trace, s, steps);
    OnlyMonthKeepsOthers(cfg, s, s', m);
    OthersSnoc(cfg, s0, s, s', months, m);
    OutcomesSnoc(cfg, s0, s, s', months, plan, m);
    TallySnoc(cfg, s0, months, plan, m);
  }

  lemma SliceGrows<T>(s: seq<T>, i: nat)
    requires i < |s|
    ensures s[..i + 1] == s[..i] + [s[i]]
  {
  }

  lemma ListedUnderMonth(months: seq<Month>, i: nat)
    requires i < |months|
    ensures MonthOf(Infos(months)[i].start) == months[i]
  {
  }

  /** After the archivals of the months before it, the next month is still listed. */
  lemma NextStillListed(cfg: Config, s0: State, trace: seq<Step>, s: State, gain: Counts, selected: seq<Month>,
                        plan: Plan, i: nat)
    requires i < |selected| && Ascending(selected) && Archivals(cfg, s0, trace, s, gain, selected[..i], plan)
    requires Listed(s0.tables, selected[i])
    ensures selected[i] !in selected[..i] && Listed(s.tables, selected[i])
  {
    var m := selected[i];
    assert m !in Of(selected[..i]);
    assert SameTable(s0.tables, s.tables, m);
  }

  lemma NextArchived(cfg: Config, s0: State, trace: seq<Step>, s: State, gain: Counts, selected: seq<Month>,
                     plan: Plan, i: nat, steps: seq<Step>, s': State)
    requires i < |selected| && selected[i] !in selected[..i]
    requires Archivals(cfg, s0, trace, s, gain, selected[..i], plan) && Run(cfg, s, steps) == Some(s')
    requires OnlyMonth(cfg, s, s', selected[i]) && Outcome(cfg, s, s', selected[i], plan(selected[i]))
    ensures Archivals(cfg, s0, trace + steps, s', Plus(gain, Gain(cfg, s, selected[i], plan(selected[i]))),
              selected[..i + 1], plan)
  {
    ArchivalsSnoc(cfg, s0, trace, s, gain, selected[..i], plan, steps, s', selected[i]);
    SliceGrows(selected, i);
  }

  class ArchiverService {
    const cfg: Config
    var tables: map<int, Table>
    var storage: map<string, seq<AuditRow>>
    var today: Date
    ghost var history: map<int, seq<AuditRow>>
    var archived: nat
    var skipped: nat
    var rowsExported: nat

    constructor (cfg: Config, today: Date)
      requires Real(today)
      ensures this.cfg == cfg && Fresh(cfg, At(Idle)) && archived == skipped == rowsExported == 0
    {
      this.cfg, this.today := cfg, today;
      tables, storage, history := map[], map[], map[];
      archived, skipped, rowsExported := 0, 0, 0;
    }

    ghost function At(stage: Stage): State
      reads this
    {
      State(today, tables, storage, history, stage)
    }

    ghost function Counters(): Counts
      reads this
    {
      Counts(archived, skipped, rowsExported)
    }

    /** Counting the rows and writing the batches that convert. */
    method WriteBatches(batches: seq<seq<AuditRow>>, broken: set<nat>) returns (written: seq<AuditRow>, rowCount: nat)
      ensures written == Written(batches, Converts(|batches|, broken))
      ensures rowCount == RowCount(batches)
    {
      written, rowCount := [], 0;
      ghost var converts: seq<bool> := [];
      for i := 0 to |batches|
        invariant converts == Converts(i, broken)
        invariant written == Written(batches[..i], converts) && rowCount == RowCount(batches[..i])
      {
        WrittenAppends(batches[..i], converts, batches[i], i !in broken);
        assert batches[..i + 1] == batches[..i] + [batches[i]];
        if i !in broken {
          written := written + batches[i];
        }
        rowCount := rowCount + |batches[i]|;
        converts := converts + [i !in broken];
      }
      assert batches[..|batches|] == batches;
    }

    /** Detach, then drop only if detaching was acknowledged; failures are only warned about. */
    method DropPartitionWithWarning(m: int, run: ArchivalRun) returns (ghost steps: seq<Step>)
      requires Named(m) && m in tables
      modifies this`tables
      ensures Run(cfg, old(At(Detaching(m))), steps) == Some(At(Idle))
      ensures tables ==
        if run.detach.Done? && !run.drop.Failed? then old(tables) - {m}
        else if run.detach.Failed? then old(tables)
        else old(tables)[m := old(tables)[m].(attached := false)]
    {
      ghost var s0 := At(Detaching(m));
      steps := [Detach(run.detach)];
      RunOne(cfg, s0, [], s0, Detach(run.detach));
      assert [] + [Detach(run.detach)] == steps;
      if !run.detach.Failed? {
        tables := tables[m := tables[m].(attached := false)];
      }
      if !run.detach.Done? {
        return;
      }
      RunOne(cfg, s0, steps, At(Dropping(m)), DropTable(run.drop));
      steps := steps + [DropTable(run.drop)];
      if !run.drop.Failed? {
        tables := tables - {m};
      }
    }

    /** Upload what converted and check that it is there. */
    method UploadAndVerify(m: Month, batches: seq<seq<AuditRow>>, run: ArchivalRun)
      returns (ok: bool, rowCount: nat, ghost steps: seq<Step>)
      modifies this`storage
      ensures Run(cfg, old(At(Exported(m, batches))), steps) == Some(At(if ok then Detaching(m) else Idle))
      ensures ok <==> run.upload.Done? && run.verifyOk
      ensures rowCount == RowCount(batches)
      ensures storage ==
        if run.upload.Failed? then old(storage)
        else old(storage)[Key(cfg, m) := Written(batches, Converts(|batches|, run.broken))]
    {
      ghost var s0 := At(Exported(m, batches));
      ghost var converts := Converts(|batches|, run.broken);
      var written;
      written, rowCount := WriteBatches(batches, run.broken);
      UploadRuns(cfg, s0, m, batches, converts, run.upload);
      steps := [Upload(converts, run.upload)];
      if !run.upload.Failed? {
        storage := storage[Key(cfg, m) := written];
      }
      if !run.upload.Done? {
        return false, rowCount, steps;
      }
      VerifyRuns(cfg, s0, steps, At(Verifying(m)), m, run.verifyOk);
      steps := steps + [Verify(run.verifyOk)];
      ok := run.verifyOk;
    }

    /** Export the rows, and upload them unless there are none. */
    method ExportAndUpload(m: Month, run: ArchivalRun) returns (ok: bool, rowCount: nat, ghost steps: seq<Step>)
      requires m in tables
      modifies this`storage
      ensures Run(cfg, old(At(Exporting(m))), steps) == Some(At(if ok then Detaching(m) else Idle))
      ensures ok <==> ExportGoesThrough(tables[m].rows, run)
      ensures ok ==> rowCount == |tables[m].rows|
      ensures storage ==
        if !run.exportOk || tables[m].rows == [] || run.upload.Failed? then old(storage)
        else old(storage)[Key(cfg, m) := Content(tables[m].rows, run.broken)]
    {
      ghost var s0 := At(Exporting(m));
      RunOne(cfg, s0, [], s0, Export(run.exportOk));
      steps := [] + [Export(run.exportOk)];
      if !run.exportOk {
        return false, 0, steps;
      }
      var batches := Chunks(ByTime(tables[m].rows), BATCH_SIZE);
      ByTimeSorts(tables[m].rows);
      ChunksRejoin(ByTime(tables[m].rows), BATCH_SIZE, []);
      if tables[m].rows == [] {
        return true, 0, steps;
      }
      ghost var exported := At(Exported(m, batches));
      ghost var uploads;
      ok, rowCount, uploads := UploadAndVerify(m, batches, run);
      RunAppend(cfg, s0, steps, exported, uploads);
      steps := steps + uploads;
    }

    /** As far as the drop: find the archive or make it, or give up. */
    method ArchiveUnlessThere(m: Month, run: ArchivalRun) returns (goOn: bool, ghost trace: seq<Step>)
      requires m in tables && tables[m].attached && Eligible(cfg, today, m)
      modifies this`storage, this`archived, this`skipped, this`rowsExported
      ensures Run(cfg, old(At(Idle)), trace) == Some(At(if goOn then Detaching(m) else Idle))
      ensures goOn <==> !Treats(cfg, old(At(Idle)), m, run).GivesUp?
      ensures storage - {Key(cfg, m)} == old(storage) - {Key(cfg, m)}
      ensures ArchiveOf(cfg, At(Idle), m) == ArchiveAfter(cfg, old(At(Idle)), m, run)
      ensures Counters() == Plus(old(Counters()), Gain(cfg, old(At(Idle)), m, run))
    {
      ghost var s0 := At(Idle);
      SelectAndCheck(cfg, s0, m, run.checkOk);
      trace := [Select(m), Check(run.checkOk)];
      if !run.checkOk {
        return false, trace;
      }
      if Key(cfg, m) in storage {
        // Already archived.
        skipped := skipped + 1;
        return true, trace;
      }
      ghost var before := At(Exporting(m));
      ghost var exports;
      var rowCount;
      goOn, rowCount, exports := ExportAndUpload(m, run);
      RunAppend(cfg, s0, trace, before, exports);
      trace := trace + exports;
      if goOn {
        archived := archived + 1;
        rowsExported := rowsExported + rowCount;
      }
    }

    /** One archival is a run of the pipeline that ends as `Outcome` says, touches no other month, and
        counts what it did. */
    method ArchiveSinglePartition(m: Month, run: ArchivalRun) returns (ghost trace: seq<Step>)
      requires m in tables && tables[m].attached && Eligible(cfg, today, m)
      modifies this`tables, this`storage, this`archived, this`skipped, this`rowsExported
      ensures Run(cfg, old(At(Idle)), trace) == Some(At(Idle))
      ensures OnlyMonth(cfg, old(At(Idle)), At(Idle), m) && Outcome(cfg, old(At(Idle)), At(Idle), m, run)
      ensures Counters() == Plus(old(Counters()), Gain(cfg, old(At(Idle)), m, run))
    {
      ghost var s0 := At(Idle);
      var goOn;
      goOn, trace := ArchiveUnlessThere(m, run);
      if goOn {
        ghost var before := At(Detaching(m));
        ghost var drops := DropPartitionWithWarning(m, run);
        RunAppend(cfg, s0, trace, before, drops);
        trace := trace + drops;
      }
    }

    /** The attached partitions, ordered by name. */
    method ListPartitions() returns (partitions: seq<PartitionInfo>, ghost months: seq<Month>)
      ensures partitions == Infos(months) && Ascending(months)
      ensures forall m: Month :: m in months <==> Listed(tables, m)
    {
      partitions, months := [], [];
      var rest: set<nat> := set m: nat | m in tables.Keys && Listed(tables, m);
      while rest != {}
        invariant SplitsList(tables, months, rest)
        invariant partitions == Infos(months)
        decreases |rest|
      {
        ghost var least := Collections.LeastExists(rest);
        var m :| m in rest && forall n :: n in rest ==> m <= n;
        SplitsSnoc(tables, months, rest, m);
        InfosSnoc(months, m);
        MonthNameReadsBack(m);
        var info := ParsePartitionName(MonthName(m));
        if info.Some? {
          partitions := partitions + [info.value];
        }
        months, rest := months + [m], rest - {m};
      }
    }

    /** The listed partitions that are past retention. */
    method SelectPartitions() returns (toArchive: seq<PartitionInfo>, ghost selected: seq<Month>)
      ensures toArchive == Infos(selected) && Ascending(selected)
      ensures forall m: Month :: m in selected <==> Listed(tables, m) && Eligible(cfg, today, m)
      ensures Real(today) ==>
        forall m: Month :: m in selected <==>
          m in tables && tables[m].attached && AllOlder(m, cfg.hotRetentionDays, today)
    {
      forall m: Month | Real(today)
        ensures Eligible(cfg, today, m) <==> AllOlder(m, cfg.hotRetentionDays, today)
      {
        EndsByCutoffIff(m, cfg.hotRetentionDays, today);
      }
      var partitions;
      ghost var months;
      partitions, months := ListPartitions();
      toArchive := PartitionsToArchive(partitions, today, cfg.hotRetentionDays);
      SelectedIsArchived(cfg, today, months);
      SelectedAscends(cfg, today, months);
      selected := Selected(cfg, today, months);
    }

    /** The loop over the selected partitions, which stops when a shutdown is requested before the one at
        `shutdownAt`. */
    method ArchiveEach(toArchive: seq<PartitionInfo>, plan: Plan, shutdownAt: nat, ghost selected: seq<Month>)
      returns (ghost trace: seq<Step>, ghost gain: Counts)
      requires toArchive == Infos(selected) && Ascending(selected)
      requires forall m: Month :: m in selected ==> Listed(tables, m) && Eligible(cfg, today, m)
      modifies this`tables, this`storage, this`archived, this`skipped, this`rowsExported
      ensures
        var n := if shutdownAt < |selected| then shutdownAt else |selected|;
        Archivals(cfg, old(At(Idle)), trace, At(Idle), gain, selected[..n], plan)
      ensures Counters() == Plus(old(Counters()), gain)
    {
      ghost var s0 := At(Idle);
      trace, gain := [], Counts(0, 0, 0);
      var i := 0;
      while i < |toArchive| && i < shutdownAt
        invariant 0 <= i <= |selected| && i <= shutdownAt
        invariant Archivals(cfg, s0, trace, At(Idle), gain, selected[..i], plan)
        invariant Counters() == Plus(old(Counters()), gain)
      {
        ghost var s := At(Idle);
        ListedUnderMonth(selected, i);
        var m: Month := MonthOf(toArchive[i].start);
        NextStillListed(cfg, s0, trace, s, gain, selected, plan, i);
        ghost var steps := ArchiveSinglePartition(m, plan(m));
        NextArchived(cfg, s0, trace, s, gain, selected, plan, i, steps, At(Idle));
        PlusAssociates(old(Counters()), gain, Gain(cfg, s, m, plan(m)));
        trace, gain := trace + steps, Plus(gain, Gain(cfg, s, m, plan(m)));
        i := i + 1;
      }
      assert i == if shutdownAt < |selected| then shutdownAt else |selected|;
    }

    /** Listing, selecting and archiving: a run of the pipeline that performs just these archivals, in
        ascending order of their months. */
    method ArchiveExpired(listOk: bool, storageOk: bool, plan: Plan, shutdownAt: nat)
      returns (ok: bool, ghost trace: seq<Step>, ghost gain: Counts, ghost selected: seq<Month>)
      modifies this`tables, this`storage, this`archived, this`skipped, this`rowsExported
      ensures Ascending(selected)
      ensures forall m: Month :: m in selected <==> Listed(old(tables), m) && Eligible(cfg, today, m)
      ensures ok <==> listOk && (selected == [] || storageOk)
      ensures !ok ==> At(Idle) == old(At(Idle)) && Counters() == old(Counters())
      ensures ok ==>
        var n := if shutdownAt < |selected| then shutdownAt else |selected|;
        && Archivals(cfg, old(At(Idle)), trace, At(Idle), gain, selected[..n], plan)
        && Counters() == Plus(old(Counters()), gain)
    {
      var toArchive;
      toArchive, selected := SelectPartitions();
      trace, gain := [], Counts(0, 0, 0);
      if !listOk || (toArchive != [] && !storageOk) {
        return false, trace, gain, selected;
      }
      trace, gain := ArchiveEach(toArchive, plan, shutdownAt, selected);
      ok := true;
    }
  }
}
