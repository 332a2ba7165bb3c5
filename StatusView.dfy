/**
 * The status table the dashboard redraws (`_build_table`): one row per task
 * with its interval, the time until it is next due, how far its interval
 * has elapsed, its last exit code and its last summary. The table is a
 * function of the task list and the clock; it changes no task.
 */
module StatusView {
  import opened Wrappers
  import opened Text
  import opened Scheduler

  // ---------------------------------------------------------------------------
  // Remaining time and progress

  /** Whole seconds until the task is next due, never negative. */
  function Remaining(t: Task, now: int): (r: nat)
    ensures r == 0 <==> IsDue(t, now)
    ensures r > 0 ==> r == NextRun(t, now) - now
  {
    if NextRun(t, now) - now > 0 then NextRun(t, now) - now else 0
  }

  /**
   * `int(prog * 100)`: the elapsed share of the interval as a whole percent,
   * full when the interval is not positive and empty when the task never ran.
   */
  function ProgressPercent(t: Task, now: int): (p: int)
    ensures 0 <= p <= 100
    ensures t.intervalS <= 0 ==> p == 100
    ensures t.intervalS > 0 && t.lastRunTs.None? ==> p == 0
  {
    if t.intervalS <= 0 then 100
    else
      match t.lastRunTs
      case None => 0
      case Some(last) =>
        var elapsed := now - last;
        if elapsed <= 0 then 0
        else if elapsed >= t.intervalS then 100
        else ElapsedPercent(elapsed, t.intervalS)
  }

  /** The share `elapsed / interval` of a part of an interval, as a whole percent below 100. */
  function ElapsedPercent(elapsed: int, interval: int): (p: int)
    requires 0 < elapsed < interval
    ensures 0 <= p < 100
    ensures p * interval <= elapsed * 100 < (p + 1) * interval
  {
    var p := elapsed * 100 / interval;
    assert elapsed * 100 == p * interval + elapsed * 100 % interval;
    assert p * interval < 100 * interval;
    p
  }

  lemma MulCancel(x: int, y: int, d: int)
    requires d > 0 && x * d < y * d
    ensures x < y
  {
  }

  lemma DivMonotone(a: int, b: int, d: int)
    requires 0 <= a <= b && d > 0
    ensures a / d <= b / d
  {
    var qa, qb := a / d, b / d;
    assert qa * d <= a;
    assert b < (qb + 1) * d;
    MulCancel(qa, qb + 1, d);
  }

  /** For a task that ran, progress is 100% exactly when the task is due. */
  lemma FullProgressIffDue(t: Task, now: int)
    requires t.intervalS > 0 && t.lastRunTs.Some?
    ensures ProgressPercent(t, now) == 100 <==> IsDue(t, now)
  {
  }

  /** Progress never goes down while the clock moves forward. */
  lemma ProgressMonotone(t: Task, now1: int, now2: int)
    requires now1 <= now2
    ensures ProgressPercent(t, now1) <= ProgressPercent(t, now2)
  {
    if t.intervalS > 0 && t.lastRunTs.Some? {
      var last := t.lastRunTs.value;
      var e1, e2 := now1 - last, now2 - last;
      if 0 < e1 && e2 < t.intervalS {
        DivMonotone(e1 * 100, e2 * 100, t.intervalS);
      }
    }
  }

  // ---------------------------------------------------------------------------
  // Durations as text

  /** `fmt_secs`: hours and two-digit minutes, minutes and two-digit seconds, or seconds. */
  function FmtSecs(s: int): (r: string)
    ensures |r| > 0 && (r[|r| - 1] == 's' || IsDigit(r[|r| - 1]))
  {
    if s >= 3600 then
      var m := Pad2(s % 3600 / 60);
      IntToString(s / 3600) + "h" + m
    else if s >= 60 then
      var m := Pad2(s % 60);
      IntToString(s / 60) + "m" + m
    else
      IntToString(s) + "s"
  }

  /** The number of seconds a `fmt_secs` text stands for. */
  function SecondsShown(r: string): Option<int>
  {
    if |r| > 0 && r[|r| - 1] == 's' then
      ParseInt(r[..|r| - 1])
    else if |r| >= 4 && AllDigits(r[..|r| - 3]) && AllDigits(r[|r| - 2..]) then
      var high, low := ParseNat(r[..|r| - 3]), ParseNat(r[|r| - 2..]);
      if r[|r| - 3] == 'h' then Some(high * 3600 + low * 60)
      else if r[|r| - 3] == 'm' then Some(high * 60 + low)
      else None
    else
      None
  }

  lemma SplitTime(s: int, unit: int, sub: int)
    requires s >= 0 && sub > 0 && unit == sub * 60
    ensures s / unit * unit + s % unit / sub * sub == s - s % unit % sub
  {
  }

  lemma SubSeconds(s: int)
    requires s >= 0
    ensures s % 3600 % 60 == s % 60
  {
    assert s == s / 3600 * 3600 + s % 3600;
    assert s / 3600 * 3600 == (s / 3600 * 60) * 60;
  }

  lemma {:induction false} FmtParts(prefix: string, unit: char, m: string)
    requires |prefix| > 0 && AllDigits(prefix) && |m| == 2 && AllDigits(m) && !IsDigit(unit)
    ensures var r := prefix + [unit] + m;
            |r| >= 4 && r[..|r| - 3] == prefix && r[|r| - 3] == unit && r[|r| - 2..] == m
  {
  }

  /**
   * Reading a `fmt_secs` text back gives the seconds it was made from,
   * cut to whole minutes from one hour on.
   */
  lemma FmtSecsRoundTrip(s: int)
    ensures SecondsShown(FmtSecs(s)) == Some(if s >= 3600 then s - s % 60 else s)
  {
    if s >= 3600 {
      HoursRoundTrip(s);
    } else if s >= 60 {
      MinutesRoundTrip(s);
    } else {
      var r := FmtSecs(s);
      assert r[..|r| - 1] == IntToString(s);
      IntToStringRoundTrip(s);
    }
  }

  lemma HoursRoundTrip(s: int)
    requires s >= 3600
    ensures SecondsShown(FmtSecs(s)) == Some(s - s % 60)
  {
    var h, m := IntToString(s / 3600), Pad2(s % 3600 / 60);
    FmtParts(h, 'h', m);
    assert FmtSecs(s) == h + ['h'] + m;
    ParseNatToString(s / 3600);
    SplitTime(s, 3600, 60);
    SubSeconds(s);
  }

  lemma MinutesRoundTrip(s: int)
    requires 60 <= s < 3600
    ensures SecondsShown(FmtSecs(s)) == Some(s)
  {
    var h, m := IntToString(s / 60), Pad2(s % 60);
    FmtParts(h, 'm', m);
    assert FmtSecs(s) == h + ['m'] + m;
    ParseNatToString(s / 60);
  }

  // ---------------------------------------------------------------------------
  // The cells of one row

  /** `f"{n:3d}"`: right-aligned in a field of at least three characters. */
  function PadLeft(s: string, width: nat): (r: string)
    ensures |r| == if |s| >= width then |s| else width
    ensures AllSpace(r[..|r| - |s|]) && r[|r| - |s|..] == s
  {
    if |s| >= width then s else seq(width - |s|, _ => ' ') + s
  }

  /** The "Next" cell: "now" when the task is due, else the remaining time. */
  function NextCell(t: Task, now: int): string
  {
    if Remaining(t, now) == 0 then "now" else FmtSecs(Remaining(t, now))
  }

  /** The "Progress" cell, such as " 42%". */
  function ProgressCell(t: Task, now: int): (cell: string)
    ensures |cell| == 4 && cell[3] == '%'
  {
    var p := ProgressPercent(t, now);
    NatDigitsBelow1000(p);
    PadLeft(IntToString(p), 3) + "%"
  }

  lemma NatDigitsBelow1000(n: nat)
    requires n < 1000
    ensures |NatToString(n)| <= 3
  {
    if n >= 10 {
      assert |NatToString(n)| == |NatToString(n / 10)| + 1;
      if n / 10 >= 10 {
        assert |NatToString(n / 10)| == |NatToString(n / 100)| + 1;
      }
    }
  }

  /** The "Last exit" cell: empty before the first run. */
  function ExitCell(t: Task): string
  {
    match t.lastExit
    case None => ""
    case Some(code) => IntToString(code)
  }

  /** The seven cells of a task's row: task, kind, interval, next, progress, last exit, last summary. */
  function StatusRow(t: Task, now: int): (row: seq<string>)
    ensures |row| == 7
  {
    [t.name, t.kind.Name(), FmtSecs(t.intervalS), NextCell(t, now), ProgressCell(t, now), ExitCell(t),
     t.lastSummary]
  }

  /** The table: one row per task, in list order. */
  function StatusTable(ts: seq<Task>, now: int): (rows: seq<seq<string>>)
    ensures |rows| == |ts|
    ensures forall i | 0 <= i < |ts| :: rows[i] == StatusRow(ts[i], now)
  {
    seq(|ts|, i requires 0 <= i < |ts| => StatusRow(ts[i], now))
  }

  /** The "Next" cell reads "now" exactly when the task is due. */
  lemma NextCellNow(t: Task, now: int)
    ensures NextCell(t, now) == "now" <==> IsDue(t, now)
  {
    if Remaining(t, now) > 0 {
      var r := FmtSecs(Remaining(t, now));
      assert r[|r| - 1] != 'w';
    }
  }

  /** The progress cell shows the percent, right-aligned in three characters. */
  lemma ProgressCellShows(t: Task, now: int)
    ensures var cell := ProgressCell(t, now);
            exists k | 0 <= k < 3 :: AllSpace(cell[..k]) && ParseInt(cell[k..3]) == Some(ProgressPercent(t, now))
  {
    var p := ProgressPercent(t, now);
    var digits := IntToString(p);
    NatDigitsBelow1000(p);
    var cell := ProgressCell(t, now);
    var k := 3 - |digits|;
    assert cell[..3] == PadLeft(digits, 3);
    assert cell[k..3] == digits;
    assert AllSpace(cell[..k]);
    IntToStringRoundTrip(p);
  }

  /** A task that never ran shows "now" and 0% (for a positive interval) and no exit code. */
  lemma NeverRunRow(t: Task, now: int)
    requires t.lastRunTs.None? && t.lastExit.None? && t.intervalS > 0
    ensures NextCell(t, now) == "now"
    ensures ProgressPercent(t, now) == 0
    ensures ExitCell(t) == ""
  {
  }
}
