/** jsapp.js: the special-task reduction rule, the task list of an account
    (upsert from a worker row, delete from the upcoming view), the worker rows
    generated from a worker count, and the input handlers that store counts,
    levels and special tasks into `appData`. */
module SchedulerApp {
  import opened Wrappers
  import opened Text
  import opened Sequences
  import opened SchedulerData
  import opened Durations
  import opened SchedulerUtils

  // ---------------------------------------------------------------------
  // The reduction rule
  // ---------------------------------------------------------------------

  const MinutesPerDay: int := 24 * 60

  /** `Math.ceil(m / (24 * 60))` for a positive number of minutes: the number
      of started days. */
  function CeilDays(m: int): (r: int)
    requires m > 0
    ensures (r - 1) * MinutesPerDay < m <= r * MinutesPerDay
    ensures r >= 1
  {
    (m + MinutesPerDay - 1) / MinutesPerDay
  }

  /** The level a special task contributes: `parseInt(level, 10)` when it is
      a number above 0, and 0 otherwise (NaN, an absent level or a level
      `<= 0` fail the `> 0` test). An absent level is `parseInt(undefined)`,
      which is NaN. */
  function PositiveLevel(level: Option<string>): (r: nat)
    ensures r > 0 <==> level.Some? && ParseInt(level.value).Some? && ParseInt(level.value).value > 0
    ensures r > 0 ==> r == ParseInt(level.value).value
  {
    if level.Some? then
      match ParseInt(level.value)
      case Some(v) => if v > 0 then v else 0
      case None => 0
    else 0
  }

  /** `baseDays * level * 60`: `level` hours off each started day. */
  function Reduction(baseDays: nat, level: nat): (r: nat)
    ensures baseDays > 0 && level > 0 ==> r >= 60
  {
    baseDays * level * 60
  }

  /** `applySpecialReductions(originalMinutes, accountName, sectionId,
      workerId)` with the account's `specialTasks` as `special`. `None` stands
      for the TypeError thrown when a positive duration meets an account
      without `specialTasks`. */
  function ApplySpecialReductions(m: int, special: Option<SpecialTasks>, sectionId: string, workerId: string)
    : (r: Option<int>)
    ensures m <= 0 ==> r == Some(m)
    ensures m > 0 ==> (r.None? <==> special.None?)
    ensures m > 0 && r.Some? ==> 0 <= r.value <= m
  {
    if m <= 0 then Some(m)
    else if special.None? then None
    else
      var s := special.value;
      var baseDays := CeilDays(m);
      var lab := PositiveLevel(s.labAssistant.level);
      var apprentice := PositiveLevel(s.workerApprentice.level);
      var labReduction := if sectionId == Laboratory && lab > 0 then Reduction(baseDays, lab) else 0;
      var apprenticeReduction :=
        if sectionId == HomeVillage && Some(workerId) == s.workerApprentice.targetWorker && apprentice > 0
        then Reduction(baseDays, apprentice) else 0;
      var reduced := m - (labReduction + apprenticeReduction);
      Some(if reduced > 0 then reduced else 0)
  }

  /** Outside the laboratory and the home village nothing is reduced. */
  lemma OtherSectionsUnreduced(m: int, s: SpecialTasks, sectionId: string, workerId: string)
    requires sectionId != Laboratory && sectionId != HomeVillage
    ensures ApplySpecialReductions(m, Some(s), sectionId, workerId) == Some(m)
  {
  }

  /** In the laboratory the lab assistant takes `level` hours off every
      started day, down to 0; a level that is not a positive number takes
      nothing off, and the apprentice never applies there. */
  lemma LaboratoryReduction(m: int, s: SpecialTasks, workerId: string)
    requires m > 0
    ensures var level := PositiveLevel(s.labAssistant.level);
      ApplySpecialReductions(m, Some(s), Laboratory, workerId)
      == Some(if m - Reduction(CeilDays(m), level) > 0 then m - Reduction(CeilDays(m), level) else 0)
    ensures ParseInt(s.labAssistant.level.GetOr("undefined")).None? ==>
      ApplySpecialReductions(m, Some(s), Laboratory, workerId) == Some(m)
  {
  }

  /** In the home village only the apprentice's target worker is reduced, by
      the apprentice level in hours per started day. */
  lemma HomeVillageReduction(m: int, s: SpecialTasks, workerId: string)
    requires m > 0
    ensures Some(workerId) != s.workerApprentice.targetWorker ==>
      ApplySpecialReductions(m, Some(s), HomeVillage, workerId) == Some(m)
    ensures var level := PositiveLevel(s.workerApprentice.level);
      Some(workerId) == s.workerApprentice.targetWorker ==>
      ApplySpecialReductions(m, Some(s), HomeVillage, workerId)
      == Some(if m - Reduction(CeilDays(m), level) > 0 then m - Reduction(CeilDays(m), level) else 0)
  {
  }

  lemma CeilDaysOfWholeDays(k: int)
    requires k > 0
    ensures CeilDays(k * MinutesPerDay) == k
  {
  }

  lemma ReductionMonotone(d: nat, a: nat, b: nat)
    requires a <= b
    ensures Reduction(d, a) <= Reduction(d, b)
  {
    var e: nat := b - a;
    assert d * b * 60 == d * a * 60 + d * e * 60;
  }

  lemma WholeDaysArithmetic(k: nat, level: nat)
    requires k > 0 && level < 24
    ensures k * MinutesPerDay - Reduction(k, level) > 0
  {
    assert k * MinutesPerDay - k * level * 60 == k * (MinutesPerDay - level * 60);
  }

  /** A laboratory task of exactly `k` whole days, with a lab assistant below
      level 24, loses exactly `k * level` hours. */
  lemma WholeDaysReduction(k: int, s: SpecialTasks, workerId: string)
    requires k > 0
    requires PositiveLevel(s.labAssistant.level) < 24
    ensures ApplySpecialReductions(k * MinutesPerDay, Some(s), Laboratory, workerId)
      == Some(k * MinutesPerDay - Reduction(k, PositiveLevel(s.labAssistant.level)))
  {
    LaboratoryReduction(k * MinutesPerDay, s, workerId);
    CeilDaysOfWholeDays(k);
    WholeDaysArithmetic(k, PositiveLevel(s.labAssistant.level));
  }

  /** A higher lab-assistant level never gives a longer task. */
  lemma ReductionMonotoneInLevel(m: int, s: SpecialTasks, t: SpecialTasks, sectionId: string, workerId: string)
    requires m > 0
    requires s.workerApprentice == t.workerApprentice
    requires PositiveLevel(s.labAssistant.level) <= PositiveLevel(t.labAssistant.level)
    ensures ApplySpecialReductions(m, Some(t), sectionId, workerId).value
         <= ApplySpecialReductions(m, Some(s), sectionId, workerId).value
  {
    if sectionId == Laboratory {
      LaboratoryReduction(m, s, workerId);
      LaboratoryReduction(m, t, workerId);
      ReductionMonotone(CeilDays(m), PositiveLevel(s.labAssistant.level), PositiveLevel(t.labAssistant.level));
    } else if sectionId == HomeVillage {
      HomeVillageReduction(m, s, workerId);
      HomeVillageReduction(m, t, workerId);
    } else {
      OtherSectionsUnreduced(m, s, sectionId, workerId);
      OtherSectionsUnreduced(m, t, sectionId, workerId);
    }
  }

  // ---------------------------------------------------------------------
  // Reading a worker row
  // ---------------------------------------------------------------------

  /** What a worker row's inputs give: the parsed duration, and the
      completion text (`None` for `null`). */
  datatype Evaluation = Evaluation(duration: Duration, completion: Option<string>)

  /** The part of `handleTaskInputChange` that reads the row: parse the
      duration box, reduce its total minutes, and compute the completion for
      a positive result. `None` when the reduction throws. */
  function Evaluate(special: Option<SpecialTasks>, sectionId: string, workerId: string, durationText: string,
                    now: int, local: int -> LocalFields): (r: Option<Evaluation>)
    ensures r.None? <==> TotalMinutes(ParseDuration(durationText)) > 0 && special.None?
    ensures r.Some? ==> r.value.duration == ParseDuration(durationText)
    ensures r.Some? ==>
      var f := ApplySpecialReductions(TotalMinutes(ParseDuration(durationText)), special, sectionId, workerId).value;
      r.value.completion == CompletionAfter(f, now, local)
  {
    var d := ParseDuration(durationText);
    match ApplySpecialReductions(TotalMinutes(d), special, sectionId, workerId)
    case None => None
    case Some(f) => Some(Evaluation(d, CompletionAfter(f, now, local)))
  }

  /** `(f > 0) ? calculateCompletionTime(f, '分鐘') : null`. */
  function CompletionAfter(f: int, now: int, local: int -> LocalFields): (c: Option<string>)
    ensures c.None? <==> f <= 0
  {
    if f > 0 then CalculateCompletionTime(Some(f), MinutesUnit, now, local) else None
  }

  /** `completionTime || 'N/A'`: the text of the row's completion cell. */
  function Shown(completion: Option<string>): (r: string)
    ensures completion.None? ==> r == "N/A"
    ensures completion == Some("") ==> r == "N/A"
    ensures completion.Some? && completion.value != "" ==> r == completion.value
  {
    if completion.Some? && completion.value != "" then completion.value else "N/A"
  }

  /** The cell shows `N/A` exactly when the reduced duration is not
      positive; otherwise it shows the `MM/DD HH:MM` completion, or the NaN
      text when the completion is past the range of `Date`. */
  lemma ShownCompletionAfter(f: int, now: int, local: int -> LocalFields)
    ensures Shown(CompletionAfter(f, now, local)) == "N/A" <==> f <= 0
    ensures f > 0 && InDateRange(now) && InDateRange(now + f * 60000) ==>
      ReadStamp(Shown(CompletionAfter(f, now, local))) == Some(local(now + f * 60000))
    ensures f > 0 && !(InDateRange(now) && InDateRange(now + f * 60000)) ==>
      Shown(CompletionAfter(f, now, local)) == InvalidStamp
  {
    if f > 0 {
      CalculateCompletionTimeReads(f, MinutesUnit, now, local);
      var c := CompletionAfter(f, now, local);
      assert c.value != "" && c.value != "N/A" by {
        if ReadStamp(c.value).None? {
          assert c.value == InvalidStamp;
        }
      }
    }
  }

  /** The completion cell after reading a row, or `None` when reading it
      throws. */
  function Display(e: Option<Evaluation>): (r: Option<string>)
    ensures r.None? <==> e.None?
    ensures r.Some? ==> r.value == Shown(e.value.completion)
  {
    if e.Some? then Some(Shown(e.value.completion)) else None
  }

  // ---------------------------------------------------------------------
  // The task list of an account
  // ---------------------------------------------------------------------

  function IdIs(id: string): Task -> bool {
    (t: Task) => t.id == id
  }

  function IdIsNot(id: string): Task -> bool {
    (t: Task) => t.id != id
  }

  /** The index `tasks.find(t => t.id === id)` stops at, or `|tasks|` when no
      task has that id. */
  function FindById(tasks: seq<Task>, id: string): (r: nat)
    ensures r <= |tasks|
    ensures r < |tasks| ==> tasks[r].id == id
    ensures forall k :: 0 <= k < r ==> tasks[k].id != id
  {
    FirstIndex(tasks, (t: Task) => t.id == id)
  }

  /** What saving a worker row does to the task list: the first task with
      `id` gets the row's taskName, duration and completion; when there is none,
      a task with `id`, `section` and `worker` is appended first. */
  function Upsert(tasks: seq<Task>, id: string, section: string, worker: string,
                  taskName: string, duration: Duration, completion: Option<string>): seq<Task>
  {
    var k := FindById(tasks, id);
    if k < |tasks| then
      tasks[k := tasks[k].(task := taskName, duration := Some(duration), completion := completion)]
    else
      tasks + [Task(id, section, worker, taskName, Some(duration), completion, None, None)]
  }

  /** Saving changes only the task `find` returns, and only its name,
      duration and completion; when `find` returns nothing, the list grows by
      one task carrying the row's section and worker and no timestamps. */
  lemma UpsertSpec(tasks: seq<Task>, id: string, section: string, worker: string,
                   taskName: string, duration: Duration, completion: Option<string>)
    ensures var r := Upsert(tasks, id, section, worker, taskName, duration, completion);
      var k := FindById(tasks, id);
      && |r| == (if k == |tasks| then |tasks| + 1 else |tasks|)
      && r[k].id == id && r[k].task == taskName && r[k].duration == Some(duration) && r[k].completion == completion
      && (forall i :: 0 <= i < |tasks| && i != k ==> r[i] == tasks[i])
      && (k < |tasks| ==>
            r[k].(task := tasks[k].task, duration := tasks[k].duration, completion := tasks[k].completion) == tasks[k])
      && (k == |tasks| ==>
            r[k] == Task(id, section, worker, taskName, Some(duration), completion, None, None))
  {
  }

  /** After saving, the saved task is the one `find` returns next time. */
  lemma UpsertFindsSameIndex(tasks: seq<Task>, id: string, section: string, worker: string,
                             taskName: string, duration: Duration, completion: Option<string>)
    ensures FindById(Upsert(tasks, id, section, worker, taskName, duration, completion), id) == FindById(tasks, id)
  {
    UpsertSpec(tasks, id, section, worker, taskName, duration, completion);
  }

  /** Saving the same row twice is saving it once. */
  lemma UpsertIdempotent(tasks: seq<Task>, id: string, section: string, worker: string,
                         taskName: string, duration: Duration, completion: Option<string>)
    ensures var once := Upsert(tasks, id, section, worker, taskName, duration, completion);
      Upsert(once, id, section, worker, taskName, duration, completion) == once
  {
    var once := Upsert(tasks, id, section, worker, taskName, duration, completion);
    UpsertSpec(tasks, id, section, worker, taskName, duration, completion);
    UpsertFindsSameIndex(tasks, id, section, worker, taskName, duration, completion);
    UpsertSpec(once, id, section, worker, taskName, duration, completion);
    var twice := Upsert(once, id, section, worker, taskName, duration, completion);
    assert |twice| == |once|;
    forall i | 0 <= i < |once| ensures twice[i] == once[i] {
    }
  }

  /** After saving there is at least one task with `id`: exactly one if there
      was none or one before, and the count never changes otherwise. */
  lemma {:induction false} UpsertCount(tasks: seq<Task>, id: string, section: string, worker: string,
                                       taskName: string, duration: Duration, completion: Option<string>)
    ensures var before := |Filter(tasks, IdIs(id))|;
      |Filter(Upsert(tasks, id, section, worker, taskName, duration, completion), IdIs(id))|
      == if before == 0 then 1 else before
  {
    var p := IdIs(id);
    var r := Upsert(tasks, id, section, worker, taskName, duration, completion);
    var k := FindById(tasks, id);
    UpsertSpec(tasks, id, section, worker, taskName, duration, completion);
    FilterNone(tasks[..k], p);
    FilterSingleton(r[k], p);
    if k == |tasks| {
      assert r == tasks + [r[k]];
      assert tasks[..k] == tasks;
      FilterAppend(tasks, [r[k]], p);
    } else {
      var before, after := tasks[..k], tasks[k + 1..];
      assert tasks == (before + [tasks[k]]) + after;
      assert r == (before + [r[k]]) + after;
      FilterSingleton(tasks[k], p);
      FilterAppend(before + [tasks[k]], after, p);
      FilterAppend(before, [tasks[k]], p);
      FilterAppend(before + [r[k]], after, p);
      FilterAppend(before, [r[k]], p);
    }
  }

  /** The delete button: the tasks whose id differs from `id`, in order. */
  function DeleteTasks(tasks: seq<Task>, id: string): (r: seq<Task>)
    ensures forall i :: 0 <= i < |r| ==> r[i].id != id
  {
    Filter(tasks, IdIsNot(id))
  }

  /** Deleting keeps every other task exactly as often as it was there. */
  lemma DeleteKeepsOthers(tasks: seq<Task>, id: string, t: Task)
    ensures multiset(DeleteTasks(tasks, id))[t] == if t.id == id then 0 else multiset(tasks)[t]
  {
    FilterMultiset(tasks, IdIsNot(id), t);
  }

  /** Deleting a task that a worker row just created restores the list. */
  lemma {:induction false} DeleteUndoesCreate(tasks: seq<Task>, id: string, section: string, worker: string,
                                              taskName: string, duration: Duration, completion: Option<string>)
    requires FindById(tasks, id) == |tasks|
    ensures DeleteTasks(Upsert(tasks, id, section, worker, taskName, duration, completion), id) == tasks
  {
    var p := IdIsNot(id);
    var created := Task(id, section, worker, taskName, Some(duration), completion, None, None);
    assert Upsert(tasks, id, section, worker, taskName, duration, completion) == tasks + [created];
    FilterAppend(tasks, [created], p);
    FilterAll(tasks, p);
    assert [created][..0] == [];
  }

  // ---------------------------------------------------------------------
  // Worker rows
  // ---------------------------------------------------------------------

  /** One generated worker row: the worker id, the task id its inputs save
      under, and the initial texts of its task and duration boxes. */
  datatype Row = Row(worker: string, taskId: string, taskName: string, durationText: string)

  /** The index of the task `accountTasks.find(t => t.worker === worker)`
      returns, where `accountTasks` is the account's tasks of `sectionId`:
      the first task of that section and worker, or `|tasks|` when there is
      none. */
  function FindWorker(tasks: seq<Task>, sectionId: string, worker: string): (r: nat)
    ensures r <= |tasks|
    ensures r < |tasks| ==> tasks[r].section == sectionId && tasks[r].worker == worker
    ensures forall k :: 0 <= k < r ==> !(tasks[k].section == sectionId && tasks[k].worker == worker)
  {
    FirstIndex(tasks, (t: Task) => t.section == sectionId && t.worker == worker)
  }

  /** The id a new row saves under: `${accountName}-${sectionId}-${workerId}-${Date.now()}`.
      The rows of one generation share the clock reading `clock` here,
      where the source reads the clock once per row (rows built within the
      same millisecond read the same value). */
  function FreshTaskId(accountName: string, sectionId: string, worker: string, clock: nat): string {
    accountName + "-" + sectionId + "-" + worker + "-" + NatToString(clock)
  }

  /** The row of worker `n` (1-based) of `sectionId`: it reuses the id of the
      first task of that section and worker, or makes a fresh one from the
      clock reading `clock`; its boxes show the stored task name and the
      stored duration. */
  function WorkerRow(tasks: seq<Task>, accountName: string, sectionId: string, n: nat, clock: nat): Row {
    var worker := NatToString(n);
    var k := FindWorker(tasks, sectionId, worker);
    if k < |tasks| then
      Row(worker, tasks[k].id, tasks[k].task,
          if tasks[k].duration.Some? then FormatDuration(tasks[k].duration.value) else "")
    else Row(worker, FreshTaskId(accountName, sectionId, worker, clock), "", "")
  }

  /** A row of a worker with a stored task saves into that task: saving the
      row finds a stored task, so the list does not grow. The row shows the
      task's name, and its duration box reads back as the stored duration. */
  lemma RowReusesStoredTask(tasks: seq<Task>, accountName: string, sectionId: string, n: nat, clock: nat)
    requires exists i :: 0 <= i < |tasks| && tasks[i].section == sectionId && tasks[i].worker == NatToString(n)
    ensures var row := WorkerRow(tasks, accountName, sectionId, n, clock);
      var k := FindWorker(tasks, sectionId, NatToString(n));
      && k < |tasks|
      && row.taskId == tasks[k].id
      && FindById(tasks, row.taskId) < |tasks|
      && row.taskName == tasks[k].task
      && (tasks[k].duration.Some? && NonNegative(tasks[k].duration.value) ==>
            ParseDuration(row.durationText) == tasks[k].duration.value)
  {
    var k := FindWorker(tasks, sectionId, NatToString(n));
    var i :| 0 <= i < |tasks| && tasks[i].section == sectionId && tasks[i].worker == NatToString(n);
    assert k <= i;
    assert FindById(tasks, tasks[k].id) <= k;
    if tasks[k].duration.Some? && NonNegative(tasks[k].duration.value) {
      ParseFormatDuration(tasks[k].duration.value);
    }
  }

  /** A worker with no task of this section gets a fresh id made from the
      account, section, worker and clock, and empty boxes; reading those
      boxes shows `N/A` and never throws. */
  lemma RowOfNewWorker(tasks: seq<Task>, accountName: string, sectionId: string, n: nat, clock: nat,
                       special: Option<SpecialTasks>, now: int, local: int -> LocalFields)
    requires forall i :: 0 <= i < |tasks| && tasks[i].section == sectionId ==> tasks[i].worker != NatToString(n)
    ensures var row := WorkerRow(tasks, accountName, sectionId, n, clock);
      && row == Row(NatToString(n), FreshTaskId(accountName, sectionId, NatToString(n), clock), "", "")
      && Display(Evaluate(special, sectionId, row.worker, row.durationText, now, local)) == Some("N/A")
  {
    var k := FindWorker(tasks, sectionId, NatToString(n));
    assert k == |tasks|;
    ParseEmpty();
    NoTimeShowsNA(special, sectionId, NatToString(n), "", now, local);
  }

  /** A duration box whose text totals no time never throws, and its cell
      shows `N/A`, whatever the special tasks. */
  lemma NoTimeShowsNA(special: Option<SpecialTasks>, sectionId: string, workerId: string, durationText: string,
                      now: int, local: int -> LocalFields)
    requires TotalMinutes(ParseDuration(durationText)) <= 0
    ensures Display(Evaluate(special, sectionId, workerId, durationText, now, local)) == Some("N/A")
  {
  }

  /** The worker of row `n` is `"n"`, so the rows of distinct workers have
      distinct worker ids. */
  lemma WorkerRowWorker(tasks: seq<Task>, accountName: string, sectionId: string, m: nat, n: nat, clock: nat)
    ensures WorkerRow(tasks, accountName, sectionId, n, clock).worker == NatToString(n)
    ensures m != n ==>
      WorkerRow(tasks, accountName, sectionId, m, clock).worker != WorkerRow(tasks, accountName, sectionId, n, clock).worker
  {
    ParseIntNatToString(m);
    ParseIntNatToString(n);
  }

  /** `WorkerRow` of one section, as a function of the worker number. */
  function RowOf(tasks: seq<Task>, accountName: string, sectionId: string, clock: nat): nat -> Row {
    (n: nat) => WorkerRow(tasks, accountName, sectionId, n, clock)
  }

  /** The text a row's completion cell receives, computed the way the input
      handler computes it from the row's worker and stored duration text;
      `None` where that computation throws. */
  function RowCell(special: Option<SpecialTasks>, sectionId: string, row: Row, now: int,
                   local: int -> LocalFields): Option<string>
  {
    Display(Evaluate(special, sectionId, row.worker, row.durationText, now, local))
  }

  /** `RowCell` of one section, as a function of the row. */
  function CellOf(special: Option<SpecialTasks>, sectionId: string, now: int, local: int -> LocalFields): Row -> Option<string> {
    (row: Row) => RowCell(special, sectionId, row, now, local)
  }

  /** What generating the rows of a section leaves behind: the rows appended
      to the container, the texts written into their completion cells, and
      whether a cell's computation threw, ending the generation. */
  datatype Generated = Generated(rows: seq<Row>, cells: seq<string>, failed: bool)

  /** The rows `rowOf(1)` to `rowOf(n)` in order, each with its cell
      `cellOf(row)` filled in; the first row whose cell throws is appended
      with its cell left empty, and nothing after it is generated. */
  function Generate(rowOf: nat -> Row, cellOf: Row -> Option<string>, n: nat): Generated
    decreases n
  {
    if n == 0 then Generated([], [], false)
    else
      var g := Generate(rowOf, cellOf, n - 1);
      if g.failed then g
      else
        var row := rowOf(n);
        match cellOf(row)
        case Some(c) => Generated(g.rows + [row], g.cells + [c], false)
        case None => Generated(g.rows + [row], g.cells, true)
  }

  /** Once a cell has thrown, asking for more workers generates nothing more. */
  lemma {:induction false} GenerateAfterFailure(rowOf: nat -> Row, cellOf: Row -> Option<string>, m: nat, n: nat)
    requires m <= n
    requires Generate(rowOf, cellOf, m).failed
    ensures Generate(rowOf, cellOf, n) == Generate(rowOf, cellOf, m)
    decreases n
  {
    if m < n {
      GenerateAfterFailure(rowOf, cellOf, m, n - 1);
    }
  }

  /** The generated rows are those of workers 1, 2, ... in order: all `n`
      of them unless a cell threw, and then one cell fewer than rows, the
      last row's cell being the one that threw. */
  lemma {:induction false} GenerateRows(rowOf: nat -> Row, cellOf: Row -> Option<string>, n: nat)
    ensures var g := Generate(rowOf, cellOf, n);
      && |g.rows| <= n
      && (forall k :: 0 <= k < |g.rows| ==> g.rows[k] == rowOf(k + 1))
      && (!g.failed ==> |g.rows| == n && |g.cells| == n)
      && (g.failed ==> |g.rows| > 0 && |g.cells| == |g.rows| - 1 && cellOf(g.rows[|g.rows| - 1]).None?)
    decreases n
  {
    if n > 0 {
      GenerateRows(rowOf, cellOf, n - 1);
    }
  }

  /** Every filled cell holds what its row's computation gives, and every
      row before the last one generated was filled. */
  lemma {:induction false} GenerateCells(rowOf: nat -> Row, cellOf: Row -> Option<string>, n: nat)
    ensures var g := Generate(rowOf, cellOf, n);
      forall k :: 0 <= k < |g.cells| ==> k < |g.rows| && cellOf(g.rows[k]) == Some(g.cells[k])
    decreases n
  {
    if n > 0 {
      GenerateCells(rowOf, cellOf, n - 1);
      GenerateRows(rowOf, cellOf, n - 1);
    }
  }

  /** The account's tasks after a row's input: the row is saved under its
      task id with the trimmed task name only when saving was asked for and
      reading the row did not throw. */
  function SavedTasks(tasks: seq<Task>, sectionId: string, workerId: string, taskId: string, taskText: string,
                      e: Option<Evaluation>, shouldSave: bool): seq<Task>
  {
    if shouldSave && e.Some? then
      Upsert(tasks, taskId, sectionId, workerId, Trim(taskText), e.value.duration, e.value.completion)
    else tasks
  }

  /** The loop of `generateWorkerRows`: for workers 1 to `total`, append
      the worker's row, then fill its completion cell, stopping at the first
      cell whose computation throws. */
  method FillRows(rowOf: nat -> Row, cellOf: Row -> Option<string>, total: nat)
    returns (rows: seq<Row>, cells: seq<string>, failed: bool)
    ensures Generated(rows, cells, failed) == Generate(rowOf, cellOf, total)
  {
    rows, cells, failed := [], [], false;
    var i: nat := 1;
    while i <= total && !failed
      invariant 1 <= i <= total + 1
      invariant Generated(rows, cells, failed) == Generate(rowOf, cellOf, i - 1)
    {
      var row := rowOf(i);
      rows := rows + [row];
      var shown := cellOf(row);
      if shown.Some? {
        cells := cells + [shown.value];
      } else {
        failed := true;
      }
      i := i + 1;
    }
    if failed {
      GenerateAfterFailure(rowOf, cellOf, i - 1, total);
    }
  }

  // ---------------------------------------------------------------------
  // The scheduler's state and its handlers
  // ---------------------------------------------------------------------

  /** `appData`, the state the account pages edit in place. */
  class Scheduler {
    var accounts: map<string, Account>

    constructor(data: AppData)
      ensures accounts == data.accounts
    {
      accounts := data.accounts;
    }

    /** `handleTaskInputChange(row, accountName, sectionId, workerId, taskId,
        shouldSave)` (the later of its two declarations) with the row's two
        boxes as `taskText` and `durationText`. Returns the completion cell's
        text, or `None` when the reduction throws; in that case nothing is
        saved. */
    method HandleTaskInputChange(accountName: string, sectionId: string, workerId: string, taskId: string,
                                 taskText: string, durationText: string, shouldSave: bool,
                                 now: int, local: int -> LocalFields) returns (shown: Option<string>)
      requires accountName in accounts
      modifies this
      ensures var account := old(accounts)[accountName];
        var e := Evaluate(account.specialTasks, sectionId, workerId, durationText, now, local);
        && shown == Display(e)
        && accounts == old(accounts)[accountName := account.(tasks :=
             SavedTasks(account.tasks, sectionId, workerId, taskId, taskText, e, shouldSave))]
    {
      var account := accounts[accountName];
      var e := Evaluate(account.specialTasks, sectionId, workerId, durationText, now, local);
      shown := Display(e);
      accounts := accounts[accountName := account.(tasks :=
        SavedTasks(account.tasks, sectionId, workerId, taskId, taskText, e, shouldSave))];
    }

    /** `generateWorkerRows(container, count, accountName, sectionId)`: the
        rows of workers 1 to `count`; each row's completion cell is filled the
        way `handleTaskInputChange(..., false)` fills it, saving nothing. When
        that throws, the row is already in place (its cell empty) and the
        remaining rows are not generated. */
    method GenerateWorkerRows(accountName: string, sectionId: string, count: int, clock: nat,
                              now: int, local: int -> LocalFields)
      returns (rows: seq<Row>, cells: seq<string>, failed: bool)
      requires accountName in accounts
      ensures Generated(rows, cells, failed)
           == Generate(RowOf(accounts[accountName].tasks, accountName, sectionId, clock),
                       CellOf(accounts[accountName].specialTasks, sectionId, now, local),
                       if count > 0 then count else 0)
    {
      var account := accounts[accountName];
      rows, cells, failed := FillRows(RowOf(account.tasks, accountName, sectionId, clock),
                                      CellOf(account.specialTasks, sectionId, now, local),
                                      if count > 0 then count else 0);
    }

    /** The delete button of an upcoming task: only an account that exists is
        touched. */
    method DeleteTask(accountName: string, taskId: string)
      modifies this
      ensures accountName in old(accounts) ==>
        accounts == old(accounts)[accountName := old(accounts)[accountName].(tasks :=
          DeleteTasks(old(accounts)[accountName].tasks, taskId))]
      ensures accountName !in old(accounts) ==> accounts == old(accounts)
    {
      if accountName in accounts {
        var account := accounts[accountName];
        accounts := accounts[accountName := account.(tasks := DeleteTasks(account.tasks, taskId))];
      }
    }

    /** A worker-count box: store `parseInt(value, 10) || 0` under the
        section, creating `workerCounts` if absent, then generate the rows.
        An input without an account (`""`) is ignored. */
    method OnWorkerCountInput(accountName: string, sectionId: string, value: string, clock: nat,
                              now: int, local: int -> LocalFields)
      returns (rows: seq<Row>, cells: seq<string>, failed: bool)
      requires accountName != "" ==> accountName in accounts
      modifies this
      ensures accountName == "" ==> accounts == old(accounts) && rows == [] && !failed
      ensures accountName != "" ==>
        var account := old(accounts)[accountName];
        accounts == old(accounts)[accountName := account.(workerCounts :=
          Some(account.workerCounts.GetOr(map[])[sectionId := IntOrZero(value)]))]
      ensures accountName != "" ==>
        var account := old(accounts)[accountName];
        Generated(rows, cells, failed)
          == Generate(RowOf(account.tasks, accountName, sectionId, clock),
                      CellOf(account.specialTasks, sectionId, now, local),
                      if IntOrZero(value) > 0 then IntOrZero(value) else 0)
    {
      if accountName == "" {
        return [], [], false;
      }
      var count := IntOrZero(value);
      var account := accounts[accountName];
      account := account.(workerCounts := Some(account.workerCounts.GetOr(map[])[sectionId := count]));
      accounts := accounts[accountName := account];
      rows, cells, failed := GenerateWorkerRows(accountName, sectionId, count, clock, now, local);
    }

    /** A level box: store its text under the section, creating `levels` if
        absent. */
    method OnLevelInput(accountName: string, sectionId: string, value: string)
      requires accountName != "" ==> accountName in accounts
      modifies this
      ensures accountName == "" ==> accounts == old(accounts)
      ensures accountName != "" ==>
        var account := old(accounts)[accountName];
        accounts == old(accounts)[accountName := account.(levels :=
          Some(account.levels.GetOr(map[])[sectionId := value]))]
    {
      if accountName != "" {
        var account := accounts[accountName];
        accounts := accounts[accountName := account.(levels := Some(account.levels.GetOr(map[])[sectionId := value]))];
      }
    }

    /** A special-task level box of kind `labAssistant` or `workerApprentice`:
        store the text as that task's level. Returns false for the TypeError
        of an account without `specialTasks`, which changes nothing; another
        kind changes nothing either. The source then calls
        `recalculateDependentTasks` (jsapp.js:409), which is not modelled. */
    method OnSpecialTaskInput(accountName: string, kind: string, value: string) returns (ok: bool)
      requires accountName != "" ==> accountName in accounts
      modifies this
      ensures accountName == "" ==> ok && accounts == old(accounts)
      ensures accountName != "" ==>
        var account := old(accounts)[accountName];
        var known := kind == "labAssistant" || kind == "workerApprentice";
        && (ok <==> !known || account.specialTasks.Some?)
        && (if known && ok then
              var s := account.specialTasks.value;
              accounts == old(accounts)[accountName := account.(specialTasks := Some(
                if kind == "labAssistant" then s.(labAssistant := s.labAssistant.(level := Some(value)))
                else s.(workerApprentice := s.workerApprentice.(level := Some(value)))))]
            else accounts == old(accounts))
    {
      if accountName == "" {
        return true;
      }
      var account := accounts[accountName];
      if kind != "labAssistant" && kind != "workerApprentice" {
        return true;
      }
      if account.specialTasks.None? {
        return false;
      }
      var s := account.specialTasks.value;
      if kind == "labAssistant" {
        s := s.(labAssistant := s.labAssistant.(level := Some(value)));
      } else {
        s := s.(workerApprentice := s.workerApprentice.(level := Some(value)));
      }
      accounts := accounts[accountName := account.(specialTasks := Some(s))];
      ok := true;
    }

    /** The apprentice's target-worker select: store the chosen worker.
        Returns false for the TypeError of an account without `specialTasks`,
        which changes nothing. The source then calls
        `recalculateDependentTasks` (jsapp.js:414), which is not modelled. */
    method OnSpecialTaskSelect(accountName: string, value: string) returns (ok: bool)
      requires accountName != "" ==> accountName in accounts
      modifies this
      ensures accountName == "" ==> ok && accounts == old(accounts)
      ensures accountName != "" ==>
        var account := old(accounts)[accountName];
        && (ok <==> account.specialTasks.Some?)
        && (if ok then
              var s := account.specialTasks.value;
              accounts == old(accounts)[accountName := account.(specialTasks := Some(
                s.(workerApprentice := s.workerApprentice.(targetWorker := Some(value)))))]
            else accounts == old(accounts))
    {
      if accountName == "" {
        return true;
      }
      var account := accounts[accountName];
      if account.specialTasks.None? {
        return false;
      }
      var s := account.specialTasks.value;
      s := s.(workerApprentice := s.workerApprentice.(targetWorker := Some(value)));
      accounts := accounts[accountName := account.(specialTasks := Some(s))];
      ok := true;
    }
  }
}
