/**
 * Writing scraped jobs to the destination tab (`append_jobs`) and its header
 * (`ensure_jobs_header`). Rows are written directly in the legacy column
 * order, the same order the transfer writes when it finds a legacy tab.
 * The labelling and decision rules are not part of this model: they are the
 * parameters `labels` and `decide`.
 */
module SheetsSync {
  import opened Wrappers
  import opened Text
  import opened Gog
  import opened Transfer

  datatype SheetsConfig = SheetsConfig(sheetId: string, tab: string, account: string)

  /** The fields of a scraped job that are written to the sheet. */
  datatype Job = Job(source: string, title: string, company: string, location: string, url: string)

  /** The header `ensure_jobs_header` writes over the first row. */
  const JobsHeader: Row := ["source", "labels", "title", "company", "location", "date_added", "url", "decision", "notes"]

  /** The value a job has in the column of the given name. */
  function Field(j: Job, dateLabel: string, labels: string -> seq<string>, decide: string -> string, column: string): string
  {
    if column == "source" then j.source
    else if column == "labels" then Join(labels(j.title), ",")
    else if column == "title" then j.title
    else if column == "company" then j.company
    else if column == "location" then j.location
    else if column == "date_added" then dateLabel
    else if column == "url" then j.url
    else if column == "decision" then decide(j.title)
    else ""
  }

  /** The row `append_jobs` writes for a job: each cell is the field its header column names. */
  function JobRow(j: Job, dateLabel: string, labels: string -> seq<string>, decide: string -> string): (row: Row)
    ensures |row| == |JobsHeader|
    ensures forall c | 0 <= c < |JobsHeader| :: row[c] == Field(j, dateLabel, labels, decide, JobsHeader[c])
  {
    [j.source, Join(labels(j.title), ","), j.title, j.company, j.location, dateLabel, j.url, decide(j.title), ""]
  }

  /** The same job as a row of the staging tab, in current order. */
  function CurrentRow(j: Job, dateLabel: string, labels: string -> seq<string>, decide: string -> string): (row: Row)
    ensures |row| == |CurrentHeader|
    ensures forall c | 0 <= c < |CurrentHeader| :: row[c] == Field(j, dateLabel, labels, decide, CurrentHeader[c])
  {
    seq(|CurrentHeader|, c requires 0 <= c < |CurrentHeader| => Field(j, dateLabel, labels, decide, CurrentHeader[c]))
  }

  /** The header written is the legacy order the transfer documents, and the current order reordered. */
  lemma JobsHeaderIsLegacy()
    ensures JobsHeader == LegacyHeader
    ensures JobsHeader == ToLegacy(CurrentHeader)
  {
    LegacyHeaderIsReordered();
  }

  /** Writing a job directly gives the row the transfer writes for it after reordering. */
  lemma JobRowIsReorderedCurrentRow(j: Job, dateLabel: string, labels: string -> seq<string>, decide: string -> string)
    ensures JobRow(j, dateLabel, labels, decide) == ToLegacy(CurrentRow(j, dateLabel, labels, decide))
  {
    var r := CurrentRow(j, dateLabel, labels, decide);
    assert Normalize(r) == r;
  }

  /** The labels cell can be split back into the labels when no label holds a comma. */
  lemma LabelsRecoverable(j: Job, dateLabel: string, labels: string -> seq<string>, decide: string -> string)
    requires labels(j.title) != []
    requires forall k, m | 0 <= k < |labels(j.title)| && 0 <= m < |labels(j.title)[k]| :: labels(j.title)[k][m] != ','
    ensures Split(JobRow(j, dateLabel, labels, decide)[1], ',') == labels(j.title)
  {
    SplitJoin(labels(j.title), ',');
  }

  /** A tab whose first data row `append_jobs` wrote is taken for legacy exactly when the job's source is a known one. */
  lemma JobRowDetected(header: Row, j: Job, dateLabel: string, labels: string -> seq<string>, decide: string -> string, rest: seq<Row>)
    ensures LegacyOrder([header, JobRow(j, dateLabel, labels, decide)] + rest) <==> LooksLikeSource(j.source)
  {
    JobRowIsReorderedCurrentRow(j, dateLabel, labels, decide);
    LegacyRowsDetected(header, CurrentRow(j, dateLabel, labels, decide), rest);
  }

  /** One row per job, in order. */
  function JobRows(jobs: seq<Job>, dateLabel: string, labels: string -> seq<string>, decide: string -> string): (rows: seq<Row>)
    ensures |rows| == |jobs|
    ensures forall i | 0 <= i < |jobs| :: rows[i] == JobRow(jobs[i], dateLabel, labels, decide)
  {
    seq(|jobs|, i requires 0 <= i < |jobs| => JobRow(jobs[i], dateLabel, labels, decide))
  }

  function AppendJobsArgs(cfg: SheetsConfig, json: seq<Row> -> string, rows: seq<Row>): seq<string>
  {
    ["gog", "sheets", "append", cfg.sheetId, cfg.tab + "!A:I", "--account", cfg.account,
     "--values-json", json(rows), "--insert", "INSERT_ROWS"]
  }

  function HeaderArgs(cfg: SheetsConfig, json: seq<Row> -> string): seq<string>
  {
    ["gog", "sheets", "update", cfg.sheetId, cfg.tab + "!A1:I1", "--account", cfg.account,
     "--values-json", json([JobsHeader]), "--input", "USER_ENTERED"]
  }

  /** `append_jobs` as a function of the sheet: no call for no jobs, else one append of every job's row. */
  function AppendJobsOutcome(s: Sheet, reply: nat -> Reply, cfg: SheetsConfig, json: seq<Row> -> string,
                             jobs: seq<Job>, dateLabel: string, labels: string -> seq<string>, decide: string -> string)
    : (out: (Result<(), GogError>, Sheet))
    ensures jobs == [] ==> out == (Success(()), s)
    ensures jobs != [] ==> out.1.calls == s.calls + [AppendJobsArgs(cfg, json, JobRows(jobs, dateLabel, labels, decide))]
    ensures jobs != [] ==> (out.0.Failure? <==> reply(|s.calls|).Fail?)
    ensures out.0.Failure? ==> out.1.tabs == s.tabs
    ensures jobs != [] && out.0.Success? ==>
              out.1.tabs == s.tabs[cfg.tab := RowsOf(s.tabs, cfg.tab) + JobRows(jobs, dateLabel, labels, decide)]
  {
    if jobs == [] then (Success(()), s)
    else
      var rows := JobRows(jobs, dateLabel, labels, decide);
      var got := Call(s, reply, AppendJobsArgs(cfg, json, rows), Append(cfg.tab, rows));
      if got.0.Failure? then (Failure(got.0.error), got.1) else (Success(()), got.1)
  }

  /** `ensure_jobs_header` as a function of the sheet: one update of the first row's nine cells. */
  function HeaderOutcome(s: Sheet, reply: nat -> Reply, cfg: SheetsConfig, json: seq<Row> -> string)
    : (out: (Result<(), GogError>, Sheet))
    ensures out.1.calls == s.calls + [HeaderArgs(cfg, json)]
    ensures out.0.Failure? <==> reply(|s.calls|).Fail?
    ensures out.0.Failure? ==> out.1.tabs == s.tabs
    ensures out.0.Success? ==>
              var tab := RowsOf(out.1.tabs, cfg.tab);
              |tab| > 0 && JobsHeader <= tab[0] && tab[1..] == RowsOf(s.tabs, cfg.tab)[Min(1, |RowsOf(s.tabs, cfg.tab)|)..]
  {
    var got := Call(s, reply, HeaderArgs(cfg, json), Update(cfg.tab, JobsHeader));
    if got.0.Failure? then (Failure(got.0.error), got.1) else (Success(()), got.1)
  }

  /**
   * On an empty tab, writing the header and then jobs whose first one has a
   * known source leaves a tab the transfer recognises as legacy.
   */
  lemma HeaderThenJobsIsLegacy(s: Sheet, reply: nat -> Reply, cfg: SheetsConfig, json: seq<Row> -> string,
                               jobs: seq<Job>, dateLabel: string, labels: string -> seq<string>, decide: string -> string)
    requires RowsOf(s.tabs, cfg.tab) == [] && jobs != []
    requires jobs[0].source in SourceNames
    ensures var h := HeaderOutcome(s, reply, cfg, json);
            var a := AppendJobsOutcome(h.1, reply, cfg, json, jobs, dateLabel, labels, decide);
            h.0.Success? && a.0.Success? ==>
              RowsOf(a.1.tabs, cfg.tab) == [JobsHeader] + JobRows(jobs, dateLabel, labels, decide) &&
              LegacyOrder(RowsOf(a.1.tabs, cfg.tab))
  {
    var h := HeaderOutcome(s, reply, cfg, json);
    var a := AppendJobsOutcome(h.1, reply, cfg, json, jobs, dateLabel, labels, decide);
    if h.0.Success? && a.0.Success? {
      var rows := JobRows(jobs, dateLabel, labels, decide);
      assert Columns(JobsHeader) == JobsHeader;
      var none: Row := [];
      assert JobsHeader + none[Min(0, |JobsHeader|)..] == JobsHeader;
      assert Applied([], Update(cfg.tab, JobsHeader)) == [JobsHeader];
      assert RowsOf(h.1.tabs, cfg.tab) == [JobsHeader];
      var tab := [JobsHeader] + rows;
      assert tab == [JobsHeader, rows[0]] + rows[1..];
      JobRowDetected(JobsHeader, jobs[0], dateLabel, labels, decide, rows[1..]);
      SourceNameRecognised(jobs[0].source);
    }
  }

  /** `append_jobs`: build one row per job, then append them all in one call. */
  method AppendJobs(cfg: SheetsConfig, json: seq<Row> -> string, jobs: seq<Job>, dateLabel: string,
                    labels: string -> seq<string>, decide: string -> string, wb: Workbook)
    returns (r: Result<(), GogError>)
    modifies wb
    ensures (r, wb.State()) == AppendJobsOutcome(old(wb.State()), wb.reply, cfg, json, jobs, dateLabel, labels, decide)
  {
    if jobs == [] {
      return Success(());
    }
    var rows: seq<Row> := [];
    for i := 0 to |jobs|
      invariant rows == JobRows(jobs[..i], dateLabel, labels, decide)
    {
      var j := jobs[i];
      var labelText := Join(labels(j.title), ",");
      var decision := decide(j.title);
      rows := rows + [[j.source, labelText, j.title, j.company, j.location, dateLabel, j.url, decision, ""]];
    }
    assert jobs[..|jobs|] == jobs;
    var _ :- wb.Run(AppendJobsArgs(cfg, json, rows), Append(cfg.tab, rows));
    return Success(());
  }

  /** `ensure_jobs_header`: write the legacy header over the first row. */
  method EnsureJobsHeader(cfg: SheetsConfig, json: seq<Row> -> string, wb: Workbook) returns (r: Result<(), GogError>)
    modifies wb
    ensures (r, wb.State()) == HeaderOutcome(old(wb.State()), wb.reply, cfg, json)
  {
    var _ :- wb.Run(HeaderArgs(cfg, json), Update(cfg.tab, JobsHeader));
    return Success(());
  }
}
