/**
 * The spreadsheet as the command-line tool `gog` sees it, and the
 * `_run_gog` contract both sheet modules rely on: a call whose exit status
 * is not zero raises an error carrying the command line and the tool's
 * error and standard output. `_run_gog` only reports the failure; that a
 * failed call left the sheet as it was is an assumption about the tool,
 * which this model makes.
 *
 * The workbook maps tab names to their rows. The process itself and the
 * JSON it prints are not modelled: how the tool answers its n-th call is
 * the oracle `reply(n)`, and the effect of a successful call is the `Op`
 * its arguments ask for.
 */
module Gog {
  import opened Wrappers
  import opened Text

  type Row = seq<string>

  /** Number of columns from A to I. */
  const Width: nat := 9

  /** What a tool call does to the workbook. */
  datatype Op =
    | Get(tab: string, firstRows: Option<nat>)  // `get`: all rows, or only the first few
    | Append(tab: string, rows: seq<Row>)       // `append --insert INSERT_ROWS`
    | Clear(tab: string)                        // `clear <tab>!A2:Z`: every row but the first
    | Update(tab: string, cells: Row)           // `update <tab>!A1:I1`: the first row

  /** The tool's exit: success, or a non-zero status with what it printed. */
  datatype Reply = Ok | Fail(status: int, stderr: string, stdout: string)

  /** The error `_run_gog` raises. */
  datatype GogError = GogError(message: string)

  /** The message of the error: the command line, then the tool's error output, then its standard output. */
  function FailureMessage(args: seq<string>, stderr: string, stdout: string): (m: string)
    ensures m == "gog failed: " + Join(args, " ") + "\n" + stderr + "\n" + stdout
    ensures "gog failed: " + Join(args, " ") + "\n" <= m
    ensures m[|m| - |stdout|..] == stdout
  {
    var m := "gog failed: " + Join(args, " ") + "\n" + stderr + "\n" + stdout;
    assert m == ("gog failed: " + Join(args, " ") + "\n") + (stderr + "\n" + stdout);
    m
  }

  function Min(a: int, b: int): int { if a <= b then a else b }

  /** A row as a read of columns A to I returns it. */
  function Columns(r: Row): (c: Row)
    ensures |c| == Min(|r|, Width) && c <= r
  {
    if |r| <= Width then r else r[..Width]
  }

  /** The rows a `get` of columns A to I returns: all of them, or the first few. */
  function ReadOf(rows: seq<Row>, firstRows: Option<nat>): (r: seq<Row>)
    ensures firstRows.None? ==> |r| == |rows|
    ensures firstRows.Some? ==> |r| == Min(firstRows.value, |rows|)
    ensures forall i | 0 <= i < |r| :: r[i] == Columns(rows[i])
  {
    var n := if firstRows.None? then |rows| else Min(firstRows.value, |rows|);
    seq(n, i requires 0 <= i < n => Columns(rows[i]))
  }

  /** A tab's rows after a successful call; a read leaves them as they were. */
  function Applied(rows: seq<Row>, op: Op): (r: seq<Row>)
    ensures op.Get? ==> r == rows
    ensures op.Append? ==> r == rows + op.rows
    ensures op.Clear? ==> r == rows[..Min(1, |rows|)]
    ensures op.Update? ==>
              |r| == (if rows == [] then 1 else |rows|) && Columns(op.cells) <= r[0] &&
              (rows != [] ==> r[1..] == rows[1..] && r[0][|Columns(op.cells)|..] == rows[0][Min(|rows[0]|, |Columns(op.cells)|)..])
  {
    match op
    case Get(_, _) => rows
    case Append(_, added) => rows + added
    case Clear(_) => rows[..Min(1, |rows|)]
    case Update(_, cells) =>
      var head := Columns(cells);
      var old0 := if rows == [] then [] else rows[0];
      var first := head + old0[Min(|old0|, |head|)..];
      assert first[|head|..] == old0[Min(|old0|, |head|)..];
      if rows == [] then [first] else [first] + rows[1..]
  }

  /** The rows of a tab; a tab that was never written is empty. */
  function RowsOf(tabs: map<string, seq<Row>>, tab: string): seq<Row>
  {
    if tab in tabs then tabs[tab] else []
  }

  /** The workbook after a successful call: only the tab the call names changes. */
  function Effect(tabs: map<string, seq<Row>>, op: Op): (r: map<string, seq<Row>>)
    ensures RowsOf(r, op.tab) == Applied(RowsOf(tabs, op.tab), op)
    ensures forall t | t != op.tab :: RowsOf(r, t) == RowsOf(tabs, t)
  {
    if op.Get? then tabs else tabs[op.tab := Applied(RowsOf(tabs, op.tab), op)]
  }

  /** What can be observed of the workbook: its tabs and every tool call made so far, in order. */
  datatype Sheet = Sheet(tabs: map<string, seq<Row>>, calls: seq<seq<string>>)

  /**
   * `_run_gog(args)` performing `op`, answered by `reply`: the call is
   * recorded; on success the call takes effect and a read returns its rows;
   * on failure nothing else changes and the error carries the command line
   * and the tool's output.
   */
  function Call(s: Sheet, reply: nat -> Reply, args: seq<string>, op: Op): (out: (Result<seq<Row>, GogError>, Sheet))
    ensures out.1.calls == s.calls + [args]
    ensures reply(|s.calls|).Fail? ==>
              out.0 == Failure(GogError(FailureMessage(args, reply(|s.calls|).stderr, reply(|s.calls|).stdout))) &&
              out.1.tabs == s.tabs
    ensures reply(|s.calls|).Ok? ==>
              out.0.Success? && out.1.tabs == Effect(s.tabs, op) &&
              (op.Get? ==> out.0.value == ReadOf(RowsOf(s.tabs, op.tab), op.firstRows)) &&
              (!op.Get? ==> out.0.value == [])
  {
    var calls := s.calls + [args];
    match reply(|s.calls|)
    case Fail(_, stderr, stdout) => (Failure(GogError(FailureMessage(args, stderr, stdout))), Sheet(s.tabs, calls))
    case Ok =>
      var answer := if op.Get? then ReadOf(RowsOf(s.tabs, op.tab), op.firstRows) else [];
      (Success(answer), Sheet(Effect(s.tabs, op), calls))
  }

  /** The workbook the tool works on, and the trace of calls made against it. */
  class Workbook {
    var tabs: map<string, seq<Row>>
    /** The argument lists of every call made so far, in order. */
    var calls: seq<seq<string>>
    /** How the tool answers its n-th call. */
    const reply: nat -> Reply

    constructor(tabs: map<string, seq<Row>>, reply: nat -> Reply)
      ensures State() == Sheet(tabs, []) && this.reply == reply
    {
      this.tabs := tabs;
      this.calls := [];
      this.reply := reply;
    }

    function State(): Sheet
      reads this
    {
      Sheet(tabs, calls)
    }

    /** `_run_gog(args)` performing `op`. */
    method Run(args: seq<string>, op: Op) returns (r: Result<seq<Row>, GogError>)
      modifies this
      ensures (r, State()) == Call(old(State()), reply, args, op)
    {
      var answer := reply(|calls|);
      calls := calls + [args];
      match answer
      case Fail(_, stderr, stdout) =>
        return Failure(GogError(FailureMessage(args, stderr, stdout)));
      case Ok =>
        r := Success(if op.Get? then ReadOf(RowsOf(tabs, op.tab), op.firstRows) else []);
        tabs := Effect(tabs, op);
    }
  }
}
