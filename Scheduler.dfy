/**
 * The dashboard's scheduler: the task records, the due rule, the task list
 * the dashboard registers, and one pass of its loop, which runs every due
 * task once, records its outcome on the task and logs one row for it.
 *
 * Time is a whole number of seconds. The external command is an oracle
 * `world`: `world(i)` is what running the task at position `i` yields during
 * this pass (its outcome, the clock when it finished, and the duration and
 * timestamp texts the loop writes into the log).
 */
module Scheduler {
  import opened Wrappers
  import opened Text
  import opened Summary
  import opened Log

  datatype Kind = Run | Watch {
    function Name(): (s: string)
      ensures s == "run" || s == "watch"
    {
      match this
      case Run => "run"
      case Watch => "watch"
    }
  }

  /** A scheduled command with its cadence and the outcome of its last run. */
  datatype Task = Task(name: string, kind: Kind, intervalS: int, cmd: seq<string>,
                       lastRunTs: Option<int>, lastExit: Option<int>, lastSummary: string)

  /** How a command ended: with an exit code and its combined output, or by timing out. */
  datatype Outcome = Exited(code: int, output: string) | TimedOut

  /** Exit code 124 and output "timeout" stand for a timed-out command. */
  const TimeoutCode: int := 124

  function Code(o: Outcome): int
  {
    match o
    case Exited(code, _) => code
    case TimedOut => TimeoutCode
  }

  function Output(o: Outcome): string
  {
    match o
    case Exited(_, output) => output
    case TimedOut => "timeout"
  }

  /** One execution as the loop sees it. */
  datatype Completion = Completion(outcome: Outcome, finishedAt: int, duration: string, stamp: string)

  // ---------------------------------------------------------------------------
  // The due rule

  /** `_task_next_run`: a task that never ran is due now, any other one interval after its last run. */
  function NextRun(t: Task, now: int): (r: int)
    ensures t.lastRunTs.None? ==> r == now
    ensures t.lastRunTs.Some? ==> r - t.lastRunTs.value == t.intervalS
  {
    match t.lastRunTs
    case None => now
    case Some(last) => last + t.intervalS
  }

  /** The test the loop applies to each task. */
  predicate IsDue(t: Task, now: int)
  {
    now >= NextRun(t, now)
  }

  /** A task that never ran is due whatever the time; a task that ran is due exactly from one interval on. */
  lemma DueRule(t: Task, now: int)
    ensures t.lastRunTs.None? ==> IsDue(t, now)
    ensures t.lastRunTs.Some? ==> (IsDue(t, now) <==> now - t.lastRunTs.value >= t.intervalS)
  {
  }

  // ---------------------------------------------------------------------------
  // One execution

  /** The task after it ran: only its three `last_*` fields change. */
  function Executed(t: Task, c: Completion): (r: Task)
    ensures r.name == t.name && r.kind == t.kind && r.intervalS == t.intervalS && r.cmd == t.cmd
    ensures r.lastRunTs == Some(c.finishedAt)
    ensures r.lastExit == Some(Code(c.outcome))
    ensures r.lastSummary == ParseSummary(Output(c.outcome))
  {
    t.(lastRunTs := Some(c.finishedAt), lastExit := Some(Code(c.outcome)),
       lastSummary := ParseSummary(Output(c.outcome)))
  }

  /**
   * The log row for one execution, written from the task as the execution
   * left it (`ran`): timestamp, name, kind, exit code, duration and summary.
   */
  function LogRow(ran: Task, c: Completion): (row: Row)
    ensures |row| == |Header| == 6
    ensures row[0] == c.stamp && row[4] == c.duration
    ensures row[1] == ran.name && row[2] == ran.kind.Name()
    ensures ParseInt(row[3]) == Some(Code(c.outcome))
    ensures row[5] == ran.lastSummary
  {
    var code := Code(c.outcome);
    IntToStringRoundTrip(code);
    [c.stamp, ran.name, ran.kind.Name(), IntToString(code), c.duration, ran.lastSummary]
  }

  /** A timeout is recorded as exit code 124 with summary "timeout". */
  lemma TimeoutRecorded(t: Task, finishedAt: int, duration: string, stamp: string)
    ensures Executed(t, Completion(TimedOut, finishedAt, duration, stamp)).lastExit == Some(124)
    ensures Executed(t, Completion(TimedOut, finishedAt, duration, stamp)).lastSummary == "timeout"
    ensures var c := Completion(TimedOut, finishedAt, duration, stamp);
            LogRow(Executed(t, c), c)[3] == "124"
  {
    TimeoutSummary();
    TimeoutCodeText();
  }

  lemma TimeoutCodeText()
    ensures IntToString(TimeoutCode) == "124"
  {
    assert NatToString(1) == "1";
    assert NatToString(12) == NatToString(1) + ['2'];
    assert NatToString(124) == NatToString(12) + ['4'];
  }

  // ---------------------------------------------------------------------------
  // One pass of the loop, as a specification

  /** Positions below `n` of the tasks that are due at `now`, in increasing order. */
  function DueIndices(ts: seq<Task>, now: int, n: nat): (d: seq<nat>)
    requires n <= |ts|
    ensures forall k | 0 <= k < |d| :: d[k] < n && IsDue(ts[d[k]], now)
  {
    if n == 0 then []
    else DueIndices(ts, now, n - 1) + (if IsDue(ts[n - 1], now) then [n - 1] else [])
  }

  /** Every due task below `n` is listed, each once, in increasing position. */
  lemma {:induction false} DueIndicesOrdered(ts: seq<Task>, now: int, n: nat)
    requires n <= |ts|
    ensures forall k, m | 0 <= k < m < |DueIndices(ts, now, n)| :: DueIndices(ts, now, n)[k] < DueIndices(ts, now, n)[m]
    ensures forall i | 0 <= i < n && IsDue(ts[i], now) :: i in DueIndices(ts, now, n)
  {
    if n > 0 {
      DueIndicesOrdered(ts, now, n - 1);
    }
  }

  /** What each task becomes if it runs during the pass, position by position. */
  function RanTasks(ts: seq<Task>, world: nat -> Completion): (r: seq<Task>)
    ensures |r| == |ts|
  {
    seq(|ts|, k requires 0 <= k < |ts| => Executed(ts[k], world(k)))
  }

  /** The row each task logs if it runs during the pass, position by position. */
  function RanRows(ts: seq<Task>, world: nat -> Completion): (r: seq<Row>)
    ensures |r| == |ts|
  {
    seq(|ts|, k requires 0 <= k < |ts| => LogRow(Executed(ts[k], world(k)), world(k)))
  }

  /** The task list once the tasks below `n` have had their turn; `ran[k]` is task `k` after running. */
  function Updated(ts: seq<Task>, now: int, ran: seq<Task>, n: nat): (r: seq<Task>)
    requires n <= |ts| == |ran|
    ensures |r| == |ts|
  {
    if n == 0 then ts
    else
      var r := Updated(ts, now, ran, n - 1);
      if IsDue(ts[n - 1], now) then r[n - 1 := ran[n - 1]] else r
  }

  lemma {:induction false} UpdatedOne(ts: seq<Task>, now: int, ran: seq<Task>, n: nat, k: nat)
    requires n <= |ts| == |ran| && k < |ts|
    ensures Updated(ts, now, ran, n)[k] == if k < n && IsDue(ts[k], now) then ran[k] else ts[k]
  {
    if n > 0 {
      UpdatedOne(ts, now, ran, n - 1, k);
    }
  }

  /** After the tasks below `n` had their turn, those that were due have run and all others are untouched. */
  lemma UpdatedAt(ts: seq<Task>, now: int, ran: seq<Task>, n: nat)
    requires n <= |ts| == |ran|
    ensures forall k | 0 <= k < |ts| :: Updated(ts, now, ran, n)[k] == if k < n && IsDue(ts[k], now) then ran[k] else ts[k]
  {
    forall k | 0 <= k < |ts| {
      UpdatedOne(ts, now, ran, n, k);
    }
  }

  /** The task list after the pass: due tasks executed, the others as they were. */
  function TickTasks(ts: seq<Task>, now: int, world: nat -> Completion): (r: seq<Task>)
    ensures |r| == |ts|
    ensures forall i | 0 <= i < |ts| && !IsDue(ts[i], now) :: r[i] == ts[i]
    ensures forall i | 0 <= i < |ts| && IsDue(ts[i], now) :: r[i] == Executed(ts[i], world(i))
  {
    UpdatedAt(ts, now, RanTasks(ts, world), |ts|);
    Updated(ts, now, RanTasks(ts, world), |ts|)
  }

  lemma DueStep(ts: seq<Task>, now: int, n: nat)
    requires n < |ts|
    ensures DueIndices(ts, now, n + 1) != [] <==> DueIndices(ts, now, n) != [] || IsDue(ts[n], now)
  {
  }

  /** The rows logged once the tasks below `n` have had their turn; `rows[k]` is the row of task `k`. */
  function Logged(ts: seq<Task>, now: int, rows: seq<Row>, n: nat): seq<Row>
    requires n <= |ts| == |rows|
  {
    if n == 0 then []
    else Logged(ts, now, rows, n - 1) + (if IsDue(ts[n - 1], now) then [rows[n - 1]] else [])
  }

  lemma {:induction false} LoggedOfDue(ts: seq<Task>, now: int, rows: seq<Row>, n: nat)
    requires n <= |ts| == |rows|
    ensures |Logged(ts, now, rows, n)| == |DueIndices(ts, now, n)|
    ensures forall k | 0 <= k < |DueIndices(ts, now, n)| :: Logged(ts, now, rows, n)[k] == rows[DueIndices(ts, now, n)[k]]
  {
    if n > 0 {
      LoggedOfDue(ts, now, rows, n - 1);
    }
  }

  lemma PassComplete(ts: seq<Task>, now: int, world: nat -> Completion)
    ensures TickTasks(ts, now, world) == Updated(ts, now, RanTasks(ts, world), |ts|)
    ensures TickRows(ts, now, world) == Logged(ts, now, RanRows(ts, world), |ts|)
  {
  }

  /** The rows the pass logs, in execution order. */
  function TickRows(ts: seq<Task>, now: int, world: nat -> Completion): seq<Row>
  {
    Logged(ts, now, RanRows(ts, world), |ts|)
  }

  /** One row per due task: the k-th row logged is the row of the k-th due task. */
  lemma TickRowsOfDue(ts: seq<Task>, now: int, world: nat -> Completion)
    ensures |TickRows(ts, now, world)| == |DueIndices(ts, now, |ts|)|
    ensures forall k | 0 <= k < |DueIndices(ts, now, |ts|)| ::
              var i := DueIndices(ts, now, |ts|)[k];
              TickRows(ts, now, world)[k] == LogRow(Executed(ts[i], world(i)), world(i))
  {
    LoggedOfDue(ts, now, RanRows(ts, world), |ts|);
  }

  lemma {:induction false} SomeDue(ts: seq<Task>, now: int, n: nat)
    requires n <= |ts|
    ensures DueIndices(ts, now, n) != [] <==> exists i | 0 <= i < n :: IsDue(ts[i], now)
  {
    if n > 0 {
      SomeDue(ts, now, n - 1);
    }
  }

  /**
   * Each logged row belongs to one executed task, carries its name, kind
   * and exit code, and has as summary the task's new `last_summary`.
   */
  lemma TickRowsMatchTasks(ts: seq<Task>, now: int, world: nat -> Completion)
    ensures var d := DueIndices(ts, now, |ts|);
            var rows := TickRows(ts, now, world);
            var after := TickTasks(ts, now, world);
            |rows| == |d| &&
            forall k | 0 <= k < |d| ::
              |rows[k]| == 6 && rows[k][1] == after[d[k]].name && rows[k][2] == after[d[k]].kind.Name() &&
              ParseInt(rows[k][3]) == after[d[k]].lastExit &&
              rows[k][5] == after[d[k]].lastSummary
  {
    TickRowsOfDue(ts, now, world);
  }

  /** A list in which no task has run yet runs every task, in list order. */
  lemma {:induction false} FirstTickRunsAll(ts: seq<Task>, now: int, n: nat)
    requires n <= |ts|
    requires forall i | 0 <= i < |ts| :: ts[i].lastRunTs.None?
    ensures |DueIndices(ts, now, n)| == n
    ensures forall k | 0 <= k < n :: DueIndices(ts, now, n)[k] == k
  {
    if n > 0 {
      FirstTickRunsAll(ts, now, n - 1);
    }
  }

  // ---------------------------------------------------------------------------
  // The dashboard

  const Tier1: seq<string> := ["keejob", "welcometothejungle", "weworkremotely", "remoteok", "remotive"]
  const Tier2: seq<string> := ["tanitjobs", "aneti"]

  /** Exit status of the dashboard when it is started without a sheet id. */
  const MissingSheetId: int := 2

  /** The command of a Tier-1 scraper run; `python` is the interpreter path. */
  function RunCommand(python: string, source: string, sheetId: string): seq<string>
  {
    [python, "-m", "jobscraper.run", "--source", source, "--once", "--notify", "--sheet-id", sheetId]
  }

  /** The command of a Tier-2 watcher; `cdp` is the browser endpoint. */
  function WatchCommand(python: string, source: string, cdp: string): seq<string>
  {
    [python, "-m", "jobscraper." + source + "_watch", "--cdp", cdp]
  }

  class Dashboard {
    var tasks: seq<Task>

    /**
     * The start of `dashboard`: refuse an empty sheet id with exit code 2,
     * otherwise register the five Tier-1 scrapers, then the two Tier-2
     * watchers, none of them run yet.
     */
    static method BuildTasks(sheetId: string, tier1Min: int, tier2Min: int, python: string, cdp: string)
      returns (r: Result<seq<Task>, int>)
      ensures sheetId == [] <==> r.Failure?
      ensures r.Failure? ==> r.error == MissingSheetId
      ensures r.Success? ==> |r.value| == |Tier1| + |Tier2|
      ensures r.Success? ==> forall i | 0 <= i < |r.value| ::
                r.value[i].name == (Tier1 + Tier2)[i] &&
                r.value[i].lastRunTs.None? && r.value[i].lastExit.None? && r.value[i].lastSummary == ""
      ensures r.Success? ==> forall i | 0 <= i < |Tier1| ::
                r.value[i].kind == Run && r.value[i].intervalS == tier1Min * 60 &&
                r.value[i].cmd == RunCommand(python, Tier1[i], sheetId)
      ensures r.Success? ==> forall i | |Tier1| <= i < |r.value| ::
                r.value[i].kind == Watch && r.value[i].intervalS == tier2Min * 60 &&
                r.value[i].cmd == WatchCommand(python, r.value[i].name, cdp)
    {
      if sheetId == [] {
        return Failure(MissingSheetId);
      }
      var ts: seq<Task> := [];
      for i := 0 to |Tier1|
        invariant |ts| == i
        invariant forall k | 0 <= k < i ::
          ts[k] == Task(Tier1[k], Run, tier1Min * 60, RunCommand(python, Tier1[k], sheetId), None, None, "")
      {
        var s := Tier1[i];
        ts := ts + [Task(s, Run, tier1Min * 60, RunCommand(python, s, sheetId), None, None, "")];
      }
      ts := ts + [Task("tanitjobs", Watch, tier2Min * 60, WatchCommand(python, "tanitjobs", cdp), None, None, "")];
      ts := ts + [Task("aneti", Watch, tier2Min * 60, WatchCommand(python, "aneti", cdp), None, None, "")];
      return Success(ts);
    }

    constructor(tasks: seq<Task>)
      ensures this.tasks == tasks
    {
      this.tasks := tasks;
    }

    /**
     * One pass of the dashboard loop at time `now`: visit the tasks in
     * order, run each one that is due at `now` (the time read at the start
     * of the pass), record the outcome on the task and append its log row.
     */
    method Tick(now: int, world: nat -> Completion, log: RunLog) returns (ranAny: bool)
      modifies this, log
      ensures tasks == TickTasks(old(tasks), now, world)
      ensures log.file == AppendedAll(old(log.file), TickRows(old(tasks), now, world))
      ensures ranAny <==> DueIndices(old(tasks), now, |old(tasks)|) != []
    {
      ranAny := false;
      ghost var ts, file := tasks, log.file;
      for i := 0 to |tasks|
        invariant tasks == Updated(ts, now, RanTasks(ts, world), i)
        invariant log.file == AppendedAll(file, Logged(ts, now, RanRows(ts, world), i))
        invariant ranAny <==> DueIndices(ts, now, i) != []
      {
        ranAny := Visit(i, now, world, log, ts, RanTasks(ts, world), RanRows(ts, world), file, ranAny);
      }
      PassComplete(ts, now, world);
    }

    /** The body of the loop: run the task at position `i` if it is due, and log its row. */
    method Visit(i: nat, now: int, world: nat -> Completion, log: RunLog, ghost ts: seq<Task>,
                 ghost ran: seq<Task>, ghost rows: seq<Row>, ghost file: Option<seq<Row>>, ranBefore: bool)
      returns (ranAny: bool)
      requires i < |ts| && ran == RanTasks(ts, world) && rows == RanRows(ts, world)
      requires tasks == Updated(ts, now, ran, i)
      requires log.file == AppendedAll(file, Logged(ts, now, rows, i))
      requires ranBefore <==> DueIndices(ts, now, i) != []
      modifies this, log
      ensures tasks == Updated(ts, now, ran, i + 1)
      ensures log.file == AppendedAll(file, Logged(ts, now, rows, i + 1))
      ensures ranAny <==> DueIndices(ts, now, i + 1) != []
    {
      UpdatedOne(ts, now, ran, i, i);
      DueStep(ts, now, i);
      ranAny := ranBefore;
      var t := tasks[i];
      if IsDue(t, now) {
        var c := world(i);
        var after := Executed(t, c);
        var row := LogRow(after, c);
        assert Logged(ts, now, rows, i + 1) == Logged(ts, now, rows, i) + [row];
        AppendedAllSnoc(file, Logged(ts, now, rows, i), row);
        tasks := tasks[i := after];
        log.Append(row);
        ranAny := true;
      } else {
        assert Logged(ts, now, rows, i + 1) == Logged(ts, now, rows, i);
      }
    }
  }

  /**
   * What one pass does to the task list and the log together: the log gains
   * the header if it was absent and then exactly one row per task that ran.
   */
  lemma TickLogShape(ts: seq<Task>, now: int, world: nat -> Completion, file: Option<seq<Row>>)
    ensures var rows := TickRows(ts, now, world);
            |rows| == |DueIndices(ts, now, |ts|)| &&
            (rows != [] ==> AppendedAll(file, rows) == Some(Ensured(file) + rows)) &&
            (rows == [] ==> AppendedAll(file, rows) == file)
  {
    TickRowsOfDue(ts, now, world);
    AppendedAllShape(file, TickRows(ts, now, world));
  }

  /**
   * Three fresh tasks with intervals 0, 60 and 120 seconds: a pass at time 0
   * runs all three in registration order; if each finished by time 30, a
   * pass at time 30 runs only the one with interval 0.
   */
  lemma ScheduleExample(ts: seq<Task>, world: nat -> Completion)
    requires |ts| == 3
    requires ts[0].intervalS == 0 && ts[1].intervalS == 60 && ts[2].intervalS == 120
    requires forall i | 0 <= i < 3 :: ts[i].lastRunTs.None?
    requires forall i | 0 <= i < 3 :: 0 <= world(i).finishedAt <= 30
    ensures DueIndices(ts, 0, 3) == [0, 1, 2]
    ensures DueIndices(TickTasks(ts, 0, world), 30, 3) == [0]
  {
    FirstPass(ts);
    FirstPassRecorded(ts, world);
    SecondPass(TickTasks(ts, 0, world));
  }

  lemma FirstPass(ts: seq<Task>)
    requires |ts| == 3 && forall i | 0 <= i < 3 :: ts[i].lastRunTs.None?
    ensures DueIndices(ts, 0, 3) == [0, 1, 2]
  {
    assert IsDue(ts[0], 0) && IsDue(ts[1], 0) && IsDue(ts[2], 0);
    assert DueIndices(ts, 0, 1) == [0];
    assert DueIndices(ts, 0, 2) == [0] + [1] == [0, 1];
    assert DueIndices(ts, 0, 3) == [0, 1] + [2];
  }

  lemma FirstPassRecorded(ts: seq<Task>, world: nat -> Completion)
    requires forall i | 0 <= i < |ts| :: ts[i].lastRunTs.None?
    ensures forall i | 0 <= i < |ts| ::
              TickTasks(ts, 0, world)[i].lastRunTs == Some(world(i).finishedAt) &&
              TickTasks(ts, 0, world)[i].intervalS == ts[i].intervalS
  {
  }

  lemma SecondPass(ts: seq<Task>)
    requires |ts| == 3
    requires ts[0].intervalS == 0 && ts[1].intervalS == 60 && ts[2].intervalS == 120
    requires forall i | 0 <= i < 3 :: ts[i].lastRunTs.Some? && 0 <= ts[i].lastRunTs.value <= 30
    ensures DueIndices(ts, 30, 3) == [0]
  {
    assert IsDue(ts[0], 30) && !IsDue(ts[1], 30) && !IsDue(ts[2], 30);
    assert DueIndices(ts, 30, 1) == [0];
    assert DueIndices(ts, 30, 2) == [0];
  }
}
