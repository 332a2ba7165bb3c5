# job-scraper core, modelled in Dafny

This project models the deterministic core of the `jobscraper` package, a
scraper that collects job offers, files them in a Google Sheet and runs its
scrapers on a schedule from a live dashboard. Three parts are modelled:

- **The dashboard scheduler** (`cli.py`). It covers:
  - the `Task` record and the due rule;
  - one pass of the dashboard loop, which runs every due task once in list order, records each outcome on its task and appends one row per run to the CSV run log;
  - the run-log file with its single header;
  - the summariser of a command's output: stats line first, then watcher event, then whitespace-collapsed fallback;
  - the status table: remaining time, progress percent and `fmt_secs` durations;
  - the construction of the task list and the refusal, with exit code 2, of a missing sheet id.
- **The spreadsheet side** (`transfer_today.py`, `sheets_sync.py`). It covers:
  - the `gog` command-line tool as a workbook of tabs, together with the failure contract of `_run_gog`;
  - the transfer of the day's rows from the staging tab to the destination tab. Rows are fetched and normalised to nine cells, then appended in the destination's column order. That order is current or legacy, sniffed from the first data row of the destination. The staging tab is cleared only after a successful append of at least one row;
  - the direct writer of job rows and the header it declares.
- **The URL canonicaliser** (`url_canon.py`). It:
  - lower-cases the scheme and host;
  - drops the parameters and the fragment;
  - filters out tracking query parameters;
  - sorts the remaining pairs;
  - strips trailing slashes;
  - rewrites tanitjobs `/job/<id>` paths.

Modules:

- `Wrappers`: `Option` and `Result`.
- `Text`:
  - the parts of Python's string built-ins that the core uses (`strip`, ASCII `lower`, `split`/`join`, `" ".join(s.split())`, decimal rendering and parsing);
  - the building blocks of the hand-written regular expressions.
- `Summary`: `_parse_summary` and its two regular expressions.
- `Log`: the run log as the class `RunLog`, whose file is `None` until it exists.
- `Scheduler`: `Task`, the due rule and the class `Dashboard`.
  - Its `Tick` method is one pass of the loop. It is proved against the functions `TickTasks` and `TickRows`.
  - Its `BuildTasks` method is the task-list construction.
- `StatusView`: the cells of `_build_table`.
- `UrlCanon`: `canonicalize_url` over a pre-parsed URL record.
  - The query step is the method `BuildQuery` (filter loop, then sort).
  - `BuildQuery` is proved equal to `CanonicalQuery`.
- `Gog`: the class `Workbook` (a map from tab name to rows, plus the list of every tool call made).
  - `Run` is `_run_gog` performing one operation.
  - The tool's answer to the n-th call is the oracle `reply(n)`.
  - `Call` is the same step as a function of the observable sheet.
- `Transfer`: the steps of `transfer_today.py` as methods on a `Workbook`.
  - Each method is proved equal to an `...Outcome` function of the sheet.
  - The protocol properties are lemmas about those functions.
- `SheetsSync`: `append_jobs` and `ensure_jobs_header`, in the same style.

## Model

| member | source | states |
|---|---|---|
| Scheduler.NextRun | src/jobscraper/cli.py:92-95 | A task that never ran is next due at the current time; otherwise one interval after its last run. |
| Scheduler.DueRule | src/jobscraper/cli.py:92-95 | A never-run task is always due; a task that ran is due exactly when at least its interval has elapsed since its last run (the test at line 206). |
| Scheduler.Kind.Name | src/jobscraper/cli.py:32 | The kind is written "run" or "watch". |
| Scheduler.Executed | src/jobscraper/cli.py:213-216 | After a run only `last_run_ts`, `last_exit` and `last_summary` change: completion time, exit code and parsed summary of the output. |
| Scheduler.LogRow | src/jobscraper/cli.py:218-228 | The log row, written from the task after its `last_*` fields were updated, has the six header fields; it carries the completion's timestamp and duration texts, the task's name and kind, an exit-code cell that parses back to the code, and the task's new `last_summary`. |
| Scheduler.TimeoutRecorded | src/jobscraper/cli.py:208-211 | A timed-out run is recorded with exit code 124 (cell "124") and summary "timeout". |
| Scheduler.DueIndices | src/jobscraper/cli.py:205-206 | Every listed position is below the bound and names a task due at the pass's start time. |
| Scheduler.DueIndicesOrdered | src/jobscraper/cli.py:205-206 | The due positions are strictly increasing (list order, each task at most once), and every due task is listed. |
| Scheduler.TickTasks | src/jobscraper/cli.py:202-216 | After the pass, every due task has been executed with its own completion and every other task is unchanged. |
| Scheduler.TickRowsOfDue | src/jobscraper/cli.py:218-230 | The pass logs one row per due task, and the k-th row is the row of the k-th due task (log order is execution order). |
| Scheduler.TickRowsMatchTasks | src/jobscraper/cli.py:213-228 | Each logged row has six fields and matches the executed task: name, kind, exit code, and summary equal to its new `last_summary`. |
| Scheduler.SomeDue | src/jobscraper/cli.py:203-230 | Some task is listed as due exactly when some task is due. |
| Scheduler.FirstTickRunsAll | src/jobscraper/cli.py:202-206 | When no task has run yet, the pass runs every task, in list order. |
| Scheduler.Dashboard.Tick | src/jobscraper/cli.py:202-230 | One pass: the task list becomes `TickTasks`, the log gains `TickRows` appended one by one, and `ran_any` is true exactly when some task was due. |
| Scheduler.TickLogShape | src/jobscraper/cli.py:218-230 | A pass adds one log row per due task. If any ran, the file ends up as its old rows (or the header) followed by those rows; otherwise it is untouched. |
| Scheduler.ScheduleExample | src/jobscraper/cli.py:202-216 | Three fresh tasks (intervals 0, 60, 120 s): a pass at 0 runs all three in order; if they finished by 30, a pass at 30 runs only the interval-0 task. |
| Scheduler.Dashboard.BuildTasks | src/jobscraper/cli.py:149-197 | An empty sheet id fails with exit code 2. Otherwise the result is the five Tier-1 run tasks, then the two Tier-2 watch tasks, with their intervals in seconds and commands, none run yet. |
| Summary.FallbackSummary | src/jobscraper/cli.py:76-89 | With neither pattern matching, the summary is the whitespace-collapsed output cut to 160 characters: single-spaced, no leading space, its visible characters a prefix of the output's. |
| Summary.StatsLineSummary | src/jobscraper/cli.py:76-80 | When the first line start where STAT_RE matches holds `<word>:<ws>scraped=N<ws>new=N<ws>relevant_new=N`, the summary is exactly `scraped=N new=N relevant_new=N`, whatever else the output holds. |
| Summary.WatchSummary | src/jobscraper/cli.py:82-85 | When STAT_RE matches nowhere, the first `NEW relevant=N` in the output, wherever it stands, yields `new_relevant=N`. |
| Summary.NoColonNoStats | src/jobscraper/cli.py:40 | The stats pattern cannot match text without a colon. |
| Summary.NoSpaceNoMatch | src/jobscraper/cli.py:40-41 | Neither pattern matches text without whitespace. |
| Summary.PlainSummary | src/jobscraper/cli.py:87-89 | A short output without whitespace is its own summary. |
| Summary.TimeoutSummary | src/jobscraper/cli.py:87-89 | The timeout sentinel "timeout" summarises to itself. |
| Summary.SearchFirst | src/jobscraper/cli.py:78-83 | The search returns the match at the first position where the pattern matches. |
| Text.CollapseIdempotent | src/jobscraper/cli.py:88 | Collapsing whitespace twice is collapsing it once. |
| Text.CollapseShape | src/jobscraper/cli.py:88 | The collapsed text keeps the words of the input, in order, separated by single spaces: it has the input's words, no leading space, single spacing, and every non-space character of the input in order. |
| Log.Ensured | src/jobscraper/cli.py:48-60 | A missing file gets exactly the six-field header; an existing file is kept as it is. |
| Log.Appended | src/jobscraper/cli.py:63-66 | Appending adds the row at the end of the ensured file. |
| Log.RunLog.Ensure | src/jobscraper/cli.py:48-60 | `_ensure_log` writes the header only when the file is absent. |
| Log.RunLog.Append | src/jobscraper/cli.py:63-66 | `_append_log` ensures the file, then adds one row at its end. |
| Log.AppendedAllShape | src/jobscraper/cli.py:48-66 | Any number of appends gives the old file (or one header) followed by the rows in append order. |
| Log.FreshLogHasOneHeader | src/jobscraper/cli.py:48-66 | A log created by appends holds the header at the top and nowhere else. |
| StatusView.Remaining | src/jobscraper/cli.py:109-110 | The remaining seconds are never negative; they are zero exactly when the task is due, and otherwise equal next-run minus now. |
| StatusView.ProgressPercent | src/jobscraper/cli.py:113-118 | Progress is within 0..100; it is 100 when the interval is not positive and 0 when the task never ran. |
| StatusView.ElapsedPercent | src/jobscraper/cli.py:118 | Inside the interval, the percent is the floor of elapsed/interval times 100. |
| StatusView.FullProgressIffDue | src/jobscraper/cli.py:110-118 | For a task that ran, progress shows 100% exactly when the task is due. |
| StatusView.ProgressMonotone | src/jobscraper/cli.py:113-118 | Progress never decreases as time moves forward. |
| StatusView.FmtSecs | src/jobscraper/cli.py:120-125 | The duration text is non-empty and ends in a digit or 's'. |
| StatusView.FmtSecsRoundTrip | src/jobscraper/cli.py:120-125 | Reading a `fmt_secs` text back gives its seconds: exactly below an hour, and cut to whole minutes from one hour on. |
| StatusView.ProgressCell | src/jobscraper/cli.py:132 | The progress cell is four characters ending in '%'. |
| StatusView.ProgressCellShows | src/jobscraper/cli.py:132 | The progress cell is spaces followed by the percent in decimal (`{:3d}%`). |
| StatusView.NextCellNow | src/jobscraper/cli.py:131 | The "Next" cell reads "now" exactly when the task is due. |
| StatusView.NeverRunRow | src/jobscraper/cli.py:113-133 | A never-run task shows "now", 0% (positive interval) and an empty exit cell. |
| StatusView.StatusTable | src/jobscraper/cli.py:108-135 | The table has one seven-cell row per task, in list order; it is a function of the tasks and the clock, so no task changes. |
| UrlCanon.Canonicalize | src/jobscraper/url_canon.py:38-39 | Empty input gives the empty URL; any other input is the normalised parse. |
| UrlCanon.Normalize | src/jobscraper/url_canon.py:41-65 | The output has lower-cased scheme and host and no params or fragment. Its path is the input path under the path rule for the lower-cased host, and is "/" or has no trailing slash. Its query is sorted and free of tracking keys, with every other pair kept as often as in the input. |
| UrlCanon.Kept | src/jobscraper/url_canon.py:57-61 | No kept pair has a key in the tracking blocklist. |
| UrlCanon.KeptMultiset | src/jobscraper/url_canon.py:57-61 | Every pair with another key, blank values included, is kept as often as it occurs. |
| UrlCanon.SortPairs | src/jobscraper/url_canon.py:62 | Sorting gives pairs ordered by (key, value) that are a permutation of the input. |
| UrlCanon.SortedUnique | src/jobscraper/url_canon.py:62 | Two sorted permutations of the same pairs are equal. |
| UrlCanon.StrLtTotal | src/jobscraper/url_canon.py:62 | The string order used by the sort is total. |
| UrlCanon.StrLtTransitive | src/jobscraper/url_canon.py:62 | The string order used by the sort is transitive. |
| UrlCanon.CanonicalQuery | src/jobscraper/url_canon.py:57-63 | The canonical query is sorted, tracking-free, and keeps every other pair as often as in the input. |
| UrlCanon.BuildQuery | src/jobscraper/url_canon.py:57-62 | The filter loop followed by the sort yields the canonical query. |
| UrlCanon.CanonicalQueryOrderInsensitive | src/jobscraper/url_canon.py:62-63 | Queries differing only in pair order canonicalise identically. |
| UrlCanon.CanonicalQueryIgnoresTracking | src/jobscraper/url_canon.py:59-60 | Inserting a tracking parameter anywhere changes nothing. |
| UrlCanon.CanonicalQueryFixpoint | src/jobscraper/url_canon.py:57-63 | Canonicalising a canonical query changes nothing. |
| UrlCanon.TanitJobId | src/jobscraper/url_canon.py:50 | A match yields a non-empty digit string that follows `/job/` at the start of the path. |
| UrlCanon.RStripSlash | src/jobscraper/url_canon.py:55 | The result is a prefix of the path with no trailing slash; only slashes were removed. |
| UrlCanon.NormalizePath | src/jobscraper/url_canon.py:49-55 | The result is "/", empty, or without a trailing slash. |
| UrlCanon.PlainPath | src/jobscraper/url_canon.py:54-55 | Off tanitjobs, "/" is kept and any other path loses its trailing slashes. |
| UrlCanon.TanitOtherPath | src/jobscraper/url_canon.py:49-55 | On tanitjobs, a path the job pattern rejects is kept: "/" stays and any other path loses its trailing slashes. |
| UrlCanon.TanitJobPath | src/jobscraper/url_canon.py:49-52 | On a tanitjobs host, `/job/<digits>` followed by nothing or by `/anything` becomes `/job/<digits>`. |
| UrlCanon.TanitShortAndSlug | src/jobscraper/url_canon.py:47-52 | The short form `/job/<id>/` and the long form `/job/<id>/<slug>/` canonicalise to the same path. |
| UrlCanon.NormalizePathFixpoint | src/jobscraper/url_canon.py:49-55 | Normalising a normalised path changes nothing. |
| UrlCanon.NormalizeFixpoint | src/jobscraper/url_canon.py:41-65 | Canonicalising a canonical URL changes nothing. |
| UrlCanon.NormalizeOrderInsensitive | src/jobscraper/url_canon.py:62-63 | URLs differing only in query-pair order canonicalise identically. |
| UrlCanon.NormalizeIgnoresTracking | src/jobscraper/url_canon.py:57-65 | Adding a tracking parameter, params or a fragment changes nothing. |
| Gog.FailureMessage | src/jobscraper/transfer_today.py:21-22 | The error text is "gog failed: ", the space-joined command line, a newline, the tool's stderr, a newline and its stdout. |
| Gog.Call | src/jobscraper/transfer_today.py:19-23 | Every call is recorded. A failed call raises that message; the model takes it to have changed no tab (an assumption about the tool, listed under Left out). A successful call applies its effect to its tab only, and a read returns the tab's rows cut to columns A-I. |
| Gog.Workbook.Run | src/jobscraper/sheets_sync.py:19-22 | `_run_gog` on the workbook behaves as `Call`. |
| Gog.Applied | src/jobscraper/transfer_today.py:121-148 | An append adds the rows at the end; a clear of row 2 onwards keeps only the first row; an update of A1:I1 overwrites the first row's first nine cells. |
| Transfer.Normalize | src/jobscraper/transfer_today.py:49-53 | A normalised row has exactly nine cells: the first min(len, 9) original cells, then empty cells. |
| Transfer.StagedRows | src/jobscraper/transfer_today.py:40-54 | An empty range or a header alone gives no rows. Otherwise there is one normalised row per data row, in order, header dropped. |
| Transfer.NormalizeColumns | src/jobscraper/transfer_today.py:46-54 | Reading only columns A to I loses nothing that normalisation keeps. |
| Transfer.FetchRows | src/jobscraper/transfer_today.py:26-54 | `fetch_rows` issues one `get` and returns the staged rows of the staging tab, or the tool's error. |
| Transfer.PadRows | src/jobscraper/transfer_today.py:46-54 | The normalising loop returns every data row, in order, padded with empty cells and cut to nine cells. |
| Transfer.PadRow | src/jobscraper/transfer_today.py:50-53 | One row padded and cut is the row's first nine cells followed by empty cells up to nine. |
| Transfer.FetchOutcome | src/jobscraper/transfer_today.py:26-54 | The fetch records one call and changes no tab; it fails exactly when the tool does; on success it returns the staging tab's staged rows. |
| Transfer.ToLegacy | src/jobscraper/transfer_today.py:112-117 | The legacy row's j-th cell is the normalised row's cell at the fixed position current → legacy. |
| Transfer.ToLegacyKeepsPlaces | src/jobscraper/transfer_today.py:116-117 | Title, company, location, decision and notes stay in columns 2, 3, 4, 7 and 8. |
| Transfer.LegacyRoundTrip | src/jobscraper/transfer_today.py:112-117 | The reordering and its inverse undo each other on normalised rows. |
| Transfer.ToLegacyPermutes | src/jobscraper/transfer_today.py:112-117 | Reordering neither loses nor invents a cell. |
| Transfer.LegacyHeaderIsReordered | src/jobscraper/transfer_today.py:91-95 | The documented legacy column order is the current order reordered. |
| Transfer.ReorderForLegacy | src/jobscraper/transfer_today.py:112-118 | `_reorder_for_legacy` returns every row, in order, reordered. |
| Transfer.SourceNameRecognised | src/jobscraper/transfer_today.py:74-85 | Each of the nine source names is recognised. |
| Transfer.SourceNamesRecognised | src/jobscraper/transfer_today.py:74-85 | A source name in capitals, with surrounding whitespace, is recognised. |
| Transfer.DigitIsNoSource | src/jobscraper/transfer_today.py:74-85 | A cell containing a digit, such as a date, is never taken for a source name. |
| Transfer.LegacyOrderNeedsData | src/jobscraper/transfer_today.py:100-109 | Fewer than two rows, or an empty first data row, means current order. Otherwise the answer is whether that row's first cell looks like a source. |
| Transfer.PreviewDecides | src/jobscraper/transfer_today.py:57-71 | The three-row, nine-column preview decides as the whole tab would. |
| Transfer.CurrentRowsNotLegacy | src/jobscraper/transfer_today.py:91-109 | A destination whose first data row starts with a date is not taken for legacy. |
| Transfer.LegacyRowsDetected | src/jobscraper/transfer_today.py:97-109 | A destination whose first data row was written in legacy order is taken for legacy exactly when its source is known. |
| Transfer.ToTabExpectsLegacyOrder | src/jobscraper/transfer_today.py:88-109 | `_to_tab_expects_legacy_order` fetches the three-row preview of the destination and decides as `LegacyOrder`. |
| Transfer.DetectOutcome | src/jobscraper/transfer_today.py:88-109 | The detection records one call and changes no tab; it fails exactly when the tool does; on success it answers `LegacyOrder` of the destination. |
| Transfer.AppendOutcome | src/jobscraper/transfer_today.py:121-144 | No rows: result 0 and no call at all. A success returns the number of rows given. |
| Transfer.AppendProtocol | src/jobscraper/transfer_today.py:121-144 | For rows, `append_rows` makes a preview call, then one append of all rows, reordered exactly when the destination is legacy. Any failure leaves the tabs unchanged; success returns `len(rows)`. |
| Transfer.AppendRows | src/jobscraper/transfer_today.py:121-144 | `append_rows` on the workbook behaves as `AppendOutcome`. |
| Transfer.ClearOutcome | src/jobscraper/transfer_today.py:147-148 | The clear records one call. On success the staging tab keeps only its first row; a failure changes nothing. |
| Transfer.ClearFrom | src/jobscraper/transfer_today.py:147-148 | `clear_from` on the workbook behaves as `ClearOutcome`. |
| Transfer.TransferProtocol | src/jobscraper/transfer_today.py:151-156 | The replies fix the whole trace of calls and the effect on the tabs. The staging tab is cleared only after a successful append of at least one row. Every failure up to the append leaves both tabs unchanged. |
| Transfer.NoRowLost | src/jobscraper/transfer_today.py:151-156 | If the staging tab changed, it keeps only its header, the result is its number of data rows, and the destination ends with exactly those rows in its own column order. The tabs must differ: when they are the same tab, the source appends the staged rows to it and then clears everything below its header, so every row is lost. |
| Transfer.TransferToday | src/jobscraper/transfer_today.py:151-156 | `transfer_today` on the workbook behaves as the protocol function. |
| SheetsSync.JobRow | src/jobscraper/sheets_sync.py:69-72 | The row has one cell per header column, and each cell is the job's field named by that header column. |
| SheetsSync.JobsHeaderIsLegacy | src/jobscraper/sheets_sync.py:36-46 | The header written is the legacy order documented by the transfer, and the current order reordered. |
| SheetsSync.JobRowIsReorderedCurrentRow | src/jobscraper/sheets_sync.py:72 | The row written directly equals the transfer's legacy reordering of the same job in current order. |
| SheetsSync.LabelsRecoverable | src/jobscraper/sheets_sync.py:70 | The labels cell splits back into the labels when none contains a comma. |
| SheetsSync.JobRowDetected | src/jobscraper/sheets_sync.py:72 | A tab whose first data row was written by `append_jobs` is taken for legacy exactly when the job's source looks like a source. |
| SheetsSync.JobRows | src/jobscraper/sheets_sync.py:68-72 | There is one row per job, in input order. |
| SheetsSync.AppendJobsOutcome | src/jobscraper/sheets_sync.py:64-88 | No jobs: no call. Otherwise a single append call of every job's row, and on success the tab ends with those rows; a failure changes nothing. |
| SheetsSync.AppendJobs | src/jobscraper/sheets_sync.py:64-88 | `append_jobs` on the workbook behaves as `AppendJobsOutcome`. |
| SheetsSync.HeaderOutcome | src/jobscraper/sheets_sync.py:25-61 | One update call. On success the first row starts with the legacy header and the other rows are untouched; a failure changes nothing. |
| SheetsSync.EnsureJobsHeader | src/jobscraper/sheets_sync.py:25-61 | `ensure_jobs_header` on the workbook behaves as `HeaderOutcome`. |
| SheetsSync.HeaderThenJobsIsLegacy | src/jobscraper/sheets_sync.py:25-88 | On an empty tab, the header followed by jobs whose first source is known gives exactly the header and the job rows, and the transfer sees a legacy tab. |

## Left out

- Processes, the clock and sleeping are replaced by inputs:
  - the outcome of each command is an input of `Tick`: an exit code and output, or a timeout;
  - the clock is an integer number of seconds;
  - the non-terminating loop is modelled as one pass.

  Exceptions other than a timeout are not modelled.
- Floating point:
  - times are whole seconds;
  - progress is the exact floor of the clamped ratio times 100, so it ignores the source's float rounding;
  - the duration cell (`{dur:.2f}`) and the ISO timestamp are opaque strings.
- Rendering and printing are not modelled: `rich` (`Live`, `Table`), `typer` options, console output and `run_all`.
- Files and data formats:
  - CSV quoting and encoding;
  - `mkdir` and `exists`;
  - JSON: the tool's output is taken as already decoded rows, and the JSON text of a row list is the parameter `json`.
- URL parsing:
  - `urllib.parse` splitting, percent-encoding, `parse_qsl`/`urlencode` and `urlunparse` are outside the model; the URL arrives as a parsed record and the result is that record;
  - `url.strip()` before parsing belongs to that step.
- Regular expressions and Unicode:
  - the Python regex engine is replaced by hand-written matchers of the patterns the code uses;
  - `\w`, `\d` and `str.isspace` are limited to ASCII letters and digits and Latin-1 whitespace;
  - `lower()` folds ASCII letters only.
- `match_labels`, `decision_for_title` and the `Job` model are not part of this model. They are the parameters `labels` and `decide`, and a record of the five fields written.
- Environment and configuration:
  - the `CDP_URL` environment lookup and `sys.executable` are the parameters `cdp` and `python`;
  - the account and tab default values are ordinary configuration fields.
- `Transfer.FetchRows`: reads are modelled as covering columns A to I whatever `range_cols` says (its default is `A:I`). With nine cells kept by normalisation, a wider range would give the same rows.
- `Gog.Call`: a failed tool call is assumed to have changed no tab; a partial write by the tool is outside the model. The "a failure changes nothing" clauses of `AppendProtocol`, `ClearOutcome`, `TransferProtocol`, `NoRowLost`, `AppendJobsOutcome` and `HeaderOutcome` rest on this assumption; the rule that the staging tab is cleared only after a successful append does not.
- `Gog.Applied`: clearing `A2:Z` is modelled as removing every row after the first. Cells beyond column Z are not kept.
- Two parts of the system are not modelled:
  - Google Sheets' own behaviour, such as trailing empty cells and rows in a `get` and formula input with `USER_ENTERED`;
  - the tool's exit status beyond success or failure.
- `Summary.ParseSummary`: the unused `task` argument is dropped.
- `UrlCanon.NormalizeFixpoint` and `UrlCanon.NormalizePathFixpoint` assume a path without a newline. `urlparse` removes newlines, and the tanitjobs pattern's `.` and `$` treat a newline specially.
