/**
 * The run log (`_ensure_log`, `_append_log`): a CSV file that gets its header
 * row when it is first created and one row per task execution after that.
 * The file is a sequence of rows, `None` while it does not exist; CSV quoting
 * and the file system are not modelled.
 */
module Log {
  import opened Wrappers

  type Row = seq<string>

  const Header: Row := ["ts_utc", "task", "kind", "exit_code", "duration_s", "summary"]

  /** The rows the file holds once it is sure to exist. */
  function Ensured(file: Option<seq<Row>>): (rows: seq<Row>)
    ensures file.Some? ==> rows == file.value
    ensures file.None? ==> rows == [Header]
  {
    match file
    case None => [Header]
    case Some(rows) => rows
  }

  /** The file after one `_append_log`. */
  function Appended(file: Option<seq<Row>>, row: Row): (r: Option<seq<Row>>)
    ensures r.Some? && |r.value| > 0 && r.value[|r.value| - 1] == row
    ensures r.value[..|r.value| - 1] == Ensured(file)
  {
    var rows := Ensured(file) + [row];
    assert rows[..|rows| - 1] == Ensured(file);
    Some(rows)
  }

  /** The file after appending `rows` one at a time, in order. */
  function AppendedAll(file: Option<seq<Row>>, rows: seq<Row>): Option<seq<Row>>
  {
    if rows == [] then file
    else Appended(AppendedAll(file, rows[..|rows| - 1]), rows[|rows| - 1])
  }

  lemma AppendedAllSnoc(file: Option<seq<Row>>, rows: seq<Row>, row: Row)
    ensures AppendedAll(file, rows + [row]) == Appended(AppendedAll(file, rows), row)
  {
    assert (rows + [row])[..|rows|] == rows;
  }

  /**
   * However many rows are appended, the file holds what it had (or the
   * header, if it did not exist) followed by the rows in append order:
   * the header is written once.
   */
  lemma {:induction false} AppendedAllShape(file: Option<seq<Row>>, rows: seq<Row>)
    ensures rows != [] ==> AppendedAll(file, rows) == Some(Ensured(file) + rows)
    ensures rows == [] ==> AppendedAll(file, rows) == file
  {
    if rows != [] {
      var init := rows[..|rows| - 1];
      AppendedAllShape(file, init);
      assert init + [rows[|rows| - 1]] == rows;
      if init == [] {
        assert AppendedAll(file, init) == file;
      } else {
        assert Ensured(AppendedAll(file, init)) == Ensured(file) + init;
        assert Ensured(file) + init + [rows[|rows| - 1]] == Ensured(file) + rows;
      }
    }
  }

  /** A log created by the dashboard has exactly one header, at the top. */
  lemma FreshLogHasOneHeader(rows: seq<Row>)
    requires rows != []
    requires forall k | 0 <= k < |rows| :: rows[k] != Header
    ensures AppendedAll(None, rows) == Some([Header] + rows)
    ensures forall k | 0 < k < |AppendedAll(None, rows).value| :: AppendedAll(None, rows).value[k] != Header
  {
    AppendedAllShape(None, rows);
    var f := [Header] + rows;
    assert forall k | 0 < k < |f| :: f[k] == rows[k - 1];
  }

  /** The log file; `file` is `None` while the file does not exist. */
  class RunLog {
    var file: Option<seq<Row>>

    constructor(file: Option<seq<Row>>)
      ensures this.file == file
    {
      this.file := file;
    }

    /** `_ensure_log`: create the file with its header if it is absent. */
    method Ensure()
      modifies this
      ensures file == Some(Ensured(old(file)))
    {
      if file.None? {
        file := Some([Header]);
      }
    }

    /** `_append_log`: make sure the file exists, then add `row` at its end. */
    method Append(row: Row)
      modifies this
      ensures file == Appended(old(file), row)
    {
      Ensure();
      file := Some(file.value + [row]);
    }
  }
}
