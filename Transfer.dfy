/**
 * The transfer of the day's rows from the staging tab ("Jobs_Today") to the
 * destination tab ("Jobs"): fetch the staged rows, append them to the
 * destination (in the destination's legacy column order when its first
 * data row says so), and clear the staging tab only once the append has
 * succeeded.
 *
 * Each step is a method on the `Workbook` and is proved equal to a function
 * of the observable sheet (`...Outcome`); the protocol's properties are
 * lemmas about those functions. The JSON text of a row list is the
 * parameter `json`.
 */
module Transfer {
  import opened Wrappers
  import opened Text
  import opened Gog

  datatype TransferConfig = TransferConfig(sheetId: string, fromTab: string, toTab: string, account: string, rangeCols: string)

  // ---------------------------------------------------------------------------
  // Rows of nine cells

  /** A staged row cut or padded with empty cells to exactly nine cells. */
  function Normalize(r: Row): (n: Row)
    ensures |n| == Width
    ensures forall j | 0 <= j < Width :: n[j] == (if j < |r| then r[j] else "")
  {
    seq(Width, j requires 0 <= j < Width => if j < |r| then r[j] else "")
  }

  /** Reading only columns A to I loses nothing a normalised row keeps. */
  lemma NormalizeColumns(r: Row)
    ensures Normalize(Columns(r)) == Normalize(r)
  {
  }

  /** The data rows of a tab read with its header row, each normalised. */
  function StagedRows(values: seq<Row>): (rows: seq<Row>)
    ensures |values| <= 1 ==> rows == []
    ensures |values| > 1 ==> |rows| == |values| - 1
    ensures forall i | 0 <= i < |rows| :: rows[i] == Normalize(values[i + 1])
  {
    if |values| <= 1 then [] else NormalizeAll(values[1..])
  }

  function NormalizeAll(rows: seq<Row>): (n: seq<Row>)
    ensures |n| == |rows|
    ensures forall i | 0 <= i < |rows| :: n[i] == Normalize(rows[i])
  {
    seq(|rows|, i requires 0 <= i < |rows| => Normalize(rows[i]))
  }

  /** What the header cut and the nine columns of a read leave is what the whole tab gives. */
  lemma StagedRowsOfRead(rows: seq<Row>)
    ensures StagedRows(ReadOf(rows, None)) == StagedRows(rows)
  {
    var v := ReadOf(rows, None);
    forall i | 1 <= i < |rows|
      ensures Normalize(v[i]) == Normalize(rows[i])
    {
      NormalizeColumns(rows[i]);
    }
  }

  // ---------------------------------------------------------------------------
  // Column orders

  /** The column order of the staging tab. */
  const CurrentHeader: Row := ["date_added", "source", "title", "company", "location", "url", "labels", "decision", "notes"]

  /** The column order the destination tab used historically. */
  const LegacyHeader: Row := ["source", "labels", "title", "company", "location", "date_added", "url", "decision", "notes"]

  /** For each legacy column, the current column it comes from. */
  const FromCurrent: seq<nat> := [1, 6, 2, 3, 4, 0, 5, 7, 8]

  /** For each current column, the legacy column it goes to. */
  const FromLegacy: seq<nat> := [5, 0, 2, 3, 4, 6, 1, 7, 8]

  /** A row in current order (normalised first) rewritten in legacy order. */
  function ToLegacy(r: Row): (l: Row)
    ensures |l| == Width
    ensures forall j | 0 <= j < Width :: l[j] == Normalize(r)[FromCurrent[j]]
  {
    var n := Normalize(r);
    [n[1], n[6], n[2], n[3], n[4], n[0], n[5], n[7], n[8]]
  }

  /** A row in legacy order (normalised first) rewritten in current order. */
  function ToCurrent(l: Row): (r: Row)
    ensures |r| == Width
    ensures forall j | 0 <= j < Width :: r[j] == Normalize(l)[FromLegacy[j]]
  {
    var n := Normalize(l);
    [n[5], n[0], n[2], n[3], n[4], n[6], n[1], n[7], n[8]]
  }

  /** Title, company, location, decision and notes keep their places. */
  lemma ToLegacyKeepsPlaces(r: Row)
    ensures forall j | j in {2, 3, 4, 7, 8} :: ToLegacy(r)[j] == Normalize(r)[j]
  {
  }

  /** The two reorderings undo each other. */
  lemma LegacyRoundTrip(r: Row, l: Row)
    ensures ToCurrent(ToLegacy(r)) == Normalize(r)
    ensures ToLegacy(ToCurrent(l)) == Normalize(l)
  {
    CurrentOfLegacy(r);
    LegacyOfCurrent(l);
  }

  lemma NormalizeFull(r: Row)
    requires |r| == Width
    ensures Normalize(r) == r
  {
  }

  lemma CurrentOfLegacy(r: Row)
    ensures ToCurrent(ToLegacy(r)) == Normalize(r)
  {
    NormalizeFull(ToLegacy(r));
  }

  lemma LegacyOfCurrent(l: Row)
    ensures ToLegacy(ToCurrent(l)) == Normalize(l)
  {
    NormalizeFull(ToCurrent(l));
  }

  /** Reordering moves cells and neither loses nor invents one. */
  lemma ToLegacyPermutes(r: Row)
    ensures multiset(ToLegacy(r)) == multiset(Normalize(r))
  {
    var n := Normalize(r);
    assert ToLegacy(r) == [n[1]] + [n[6]] + n[2..5] + [n[0]] + [n[5]] + n[7..];
    assert n == [n[0]] + [n[1]] + n[2..5] + [n[5]] + [n[6]] + n[7..];
  }

  /** The documented legacy order is the current order reordered. */
  lemma LegacyHeaderIsReordered()
    ensures ToLegacy(CurrentHeader) == LegacyHeader
    ensures ToCurrent(LegacyHeader) == CurrentHeader
  {
    assert Normalize(CurrentHeader) == CurrentHeader;
    assert Normalize(LegacyHeader) == LegacyHeader;
  }

  /** Every row reordered, in order. */
  function Reordered(rows: seq<Row>): (out: seq<Row>)
    ensures |out| == |rows|
    ensures forall i | 0 <= i < |rows| :: out[i] == ToLegacy(rows[i])
  {
    seq(|rows|, i requires 0 <= i < |rows| => ToLegacy(rows[i]))
  }

  // ---------------------------------------------------------------------------
  // Recognising the legacy order

  /** The source names the scrapers write in the source column. */
  const SourceNames: set<string> :=
    {"keejob", "welcometothejungle", "weworkremotely", "remoteok", "remotive", "tanitjobs", "aneti", "rss", "test"}

  /** `_looks_like_source`: the cell, stripped and lower-cased, is a source name. */
  predicate LooksLikeSource(v: string)
  {
    Lower(Strip(v)) in SourceNames
  }

  predicate Lowercase(s: string) { forall i | 0 <= i < |s| :: 'a' <= s[i] <= 'z' }

  lemma SourceNamesLowercase()
    ensures forall name | name in SourceNames :: name != [] && Lowercase(name)
  {
  }

  /** Each source name is recognised as it is. */
  lemma SourceNameRecognised(name: string)
    requires name in SourceNames
    ensures LooksLikeSource(name)
  {
    SourceNameShape(name);
    LowercaseStrip(name);
  }

  lemma SourceNameShape(name: string)
    requires name in SourceNames
    ensures name != [] && Lowercase(name)
  {
    SourceNamesLowercase();
  }

  lemma NotSourceName(v: string)
    requires !Lowercase(v)
    ensures v !in SourceNames
  {
    SourceNamesLowercase();
  }

  lemma LowerOfLowercase(s: string)
    requires Lowercase(s)
    ensures Lower(s) == s
  {
    assert forall i | 0 <= i < |s| :: Lower(s)[i] == s[i];
  }

  lemma LowerOfUpper(s: string)
    requires Lowercase(s)
    ensures Lower(Upper(s)) == s
    ensures forall i | 0 <= i < |s| :: 'A' <= Upper(s)[i] <= 'Z'
  {
    assert forall i | 0 <= i < |s| :: Lower(Upper(s))[i] == s[i];
  }

  lemma LowercaseStrip(s: string)
    requires s != [] && Lowercase(s)
    ensures Lower(Strip(s)) == s
  {
    LowerOfLowercase(s);
    assert 'a' <= s[0] <= 'z' && 'a' <= s[|s| - 1] <= 'z';
    StripAround("", s, "");
    assert "" + s + "" == s;
  }

  /** A source name, in any letter case and with surrounding spaces, is recognised. */
  lemma SourceNamesRecognised(name: string, before: string, after: string)
    requires name in SourceNames && AllSpace(before) && AllSpace(after)
    ensures LooksLikeSource(before + Upper(name) + after)
  {
    SourceNameShape(name);
    UpperStrip(name, before, after);
  }

  lemma UpperStrip(name: string, before: string, after: string)
    requires name != [] && Lowercase(name) && AllSpace(before) && AllSpace(after)
    ensures Lower(Strip(before + Upper(name) + after)) == name
  {
    var u := Upper(name);
    LowerOfUpper(name);
    assert 'A' <= u[0] <= 'Z' && 'A' <= u[|u| - 1] <= 'Z';
    StripAround(before, u, after);
  }

  /** Upper-casing of ASCII letters. */
  function Upper(s: string): (r: string)
    ensures |r| == |s|
    ensures forall i | 0 <= i < |s| :: r[i] == if 'a' <= s[i] <= 'z' then (s[i] as int - 'a' as int + 'A' as int) as char else s[i]
  {
    seq(|s|, i requires 0 <= i < |s| => if 'a' <= s[i] <= 'z' then (s[i] as int - 'a' as int + 'A' as int) as char else s[i])
  }

  /** A date or any other text with a digit in it is never taken for a source name. */
  lemma DigitIsNoSource(v: string, k: nat)
    requires k < |v| && IsDigit(v[k])
    ensures !LooksLikeSource(v)
  {
    DigitSurvivesStrip(v, k);
    NotSourceName(Lower(Strip(v)));
  }

  lemma DigitSurvivesStrip(v: string, k: nat)
    requires k < |v| && IsDigit(v[k])
    ensures !Lowercase(Lower(Strip(v)))
  {
    var r := Strip(v);
    var j := KeptByStrip(v, k);
    assert LowerChar(r[j]) == r[j];
  }

  /** A character that is not a space is still there after stripping: the index it moves to. */
  lemma KeptByStrip(v: string, k: nat) returns (j: nat)
    requires k < |v| && !IsSpace(v[k])
    ensures j < |Strip(v)| && Strip(v)[j] == v[k]
  {
    var r := Strip(v);
    var a: nat, b: nat :| a <= b <= |v| && v[a..b] == r && AllSpace(v[..a]) && AllSpace(v[b..]);
    SpacesOutside(v, a, b);
    assert a <= k < b;
    j := k - a;
  }

  lemma SpacesOutside(v: string, a: nat, b: nat)
    requires a <= b <= |v| && AllSpace(v[..a]) && AllSpace(v[b..])
    ensures forall i | 0 <= i < a :: IsSpace(v[i])
    ensures forall i | b <= i < |v| :: IsSpace(v[i])
  {
    assert forall i | 0 <= i < a :: v[..a][i] == v[i];
    assert forall i | b <= i < |v| :: v[b..][i - b] == v[i];
  }

  /** The first cell of a row padded to nine cells. */
  function FirstCell(r: Row): (c: string)
    ensures r != [] ==> c == r[0]
    ensures r == [] ==> c == ""
  {
    if r == [] then "" else r[0]
  }

  /**
   * `_to_tab_expects_legacy_order` on the rows of the destination: there is
   * a data row and its first cell names a source.
   */
  predicate LegacyOrder(rows: seq<Row>)
  {
    |rows| >= 2 && LooksLikeSource(FirstCell(rows[1]))
  }

  /** No data row, or an empty first data row, means current order. */
  lemma LegacyOrderNeedsData(rows: seq<Row>)
    ensures |rows| < 2 ==> !LegacyOrder(rows)
    ensures |rows| >= 2 && rows[1] == [] ==> !LegacyOrder(rows)
    ensures |rows| >= 2 && rows[1] != [] ==> (LegacyOrder(rows) <==> LooksLikeSource(rows[1][0]))
  {
    if |rows| >= 2 && rows[1] == [] {
      assert Strip("") == "";
      assert Lower("") == "";
    }
  }

  /** The three-row preview decides exactly as the whole tab would. */
  lemma PreviewDecides(rows: seq<Row>)
    ensures LegacyOrder(ReadOf(rows, Some(PreviewRows))) == LegacyOrder(rows)
  {
  }

  /** A destination whose first data row was written in current order, with its date first, is not taken for legacy. */
  lemma CurrentRowsNotLegacy(header: Row, r: Row, rest: seq<Row>, k: nat)
    requires r != [] && k < |r[0]| && IsDigit(r[0][k])
    ensures !LegacyOrder([header, r] + rest)
  {
    DigitIsNoSource(r[0], k);
  }

  /** A destination whose first data row was written in legacy order is taken for legacy exactly when its source is known. */
  lemma LegacyRowsDetected(header: Row, r: Row, rest: seq<Row>)
    ensures LegacyOrder([header, ToLegacy(r)] + rest) <==> LooksLikeSource(Normalize(r)[1])
  {
  }

  // ---------------------------------------------------------------------------
  // The tool calls

  const PreviewRows: nat := 3

  function FetchArgs(cfg: TransferConfig): seq<string>
  {
    ["gog", "sheets", "get", cfg.sheetId, cfg.fromTab + "!" + cfg.rangeCols, "--account", cfg.account, "--json"]
  }

  function PreviewArgs(cfg: TransferConfig, tab: string): seq<string>
  {
    ["gog", "sheets", "get", cfg.sheetId, tab + "!A1:I" + NatToString(PreviewRows), "--account", cfg.account, "--json"]
  }

  function AppendArgs(cfg: TransferConfig, json: seq<Row> -> string, rows: seq<Row>): seq<string>
  {
    ["gog", "sheets", "append", cfg.sheetId, cfg.toTab + "!" + cfg.rangeCols, "--account", cfg.account,
     "--values-json", json(rows), "--insert", "INSERT_ROWS"]
  }

  function ClearArgs(cfg: TransferConfig): seq<string>
  {
    ["gog", "sheets", "clear", cfg.sheetId, cfg.fromTab + "!A2:Z", "--account", cfg.account]
  }

  // ---------------------------------------------------------------------------
  // The protocol, step by step, as functions of the sheet

  function FetchOutcome(s: Sheet, reply: nat -> Reply, cfg: TransferConfig): (out: (Result<seq<Row>, GogError>, Sheet))
    ensures out.1 == Sheet(s.tabs, s.calls + [FetchArgs(cfg)])
    ensures out.0.Failure? <==> reply(|s.calls|).Fail?
    ensures out.0.Success? ==> out.0.value == StagedRows(RowsOf(s.tabs, cfg.fromTab))
  {
    var got := Call(s, reply, FetchArgs(cfg), Get(cfg.fromTab, None));
    StagedRowsOfRead(RowsOf(s.tabs, cfg.fromTab));
    if got.0.Failure? then (Failure(got.0.error), got.1) else (Success(StagedRows(got.0.value)), got.1)
  }

  function DetectOutcome(s: Sheet, reply: nat -> Reply, cfg: TransferConfig): (out: (Result<bool, GogError>, Sheet))
    ensures out.1 == Sheet(s.tabs, s.calls + [PreviewArgs(cfg, cfg.toTab)])
    ensures out.0.Failure? <==> reply(|s.calls|).Fail?
    ensures out.0.Success? ==> out.0.value == LegacyOrder(RowsOf(s.tabs, cfg.toTab))
  {
    var got := Call(s, reply, PreviewArgs(cfg, cfg.toTab), Get(cfg.toTab, Some(PreviewRows)));
    PreviewDecides(RowsOf(s.tabs, cfg.toTab));
    if got.0.Failure? then (Failure(got.0.error), got.1) else (Success(LegacyOrder(got.0.value)), got.1)
  }

  /** The rows as they are written to the destination. */
  function Written(legacy: bool, rows: seq<Row>): seq<Row>
  {
    if legacy then Reordered(rows) else rows
  }

  function AppendOutcome(s: Sheet, reply: nat -> Reply, cfg: TransferConfig, json: seq<Row> -> string, rows: seq<Row>)
    : (out: (Result<nat, GogError>, Sheet))
    ensures rows == [] ==> out == (Success(0), s)
    ensures out.0.Success? ==> out.0.value == |rows|
  {
    if rows == [] then (Success(0), s)
    else
      var detected := DetectOutcome(s, reply, cfg);
      if detected.0.Failure? then (Failure(detected.0.error), detected.1)
      else
        var written := Written(detected.0.value, rows);
        var appended := Call(detected.1, reply, AppendArgs(cfg, json, written), Append(cfg.toTab, written));
        if appended.0.Failure? then (Failure(appended.0.error), appended.1) else (Success(|rows|), appended.1)
  }

  function ClearOutcome(s: Sheet, reply: nat -> Reply, cfg: TransferConfig): (out: (Result<(), GogError>, Sheet))
    ensures out.1.calls == s.calls + [ClearArgs(cfg)]
    ensures out.0.Failure? <==> reply(|s.calls|).Fail?
    ensures out.0.Failure? ==> out.1.tabs == s.tabs
    ensures out.0.Success? ==> out.1.tabs == s.tabs[cfg.fromTab := RowsOf(s.tabs, cfg.fromTab)[..Min(1, |RowsOf(s.tabs, cfg.fromTab)|)]]
  {
    var got := Call(s, reply, ClearArgs(cfg), Clear(cfg.fromTab));
    if got.0.Failure? then (Failure(got.0.error), got.1) else (Success(()), got.1)
  }

  function TransferOutcome(s: Sheet, reply: nat -> Reply, cfg: TransferConfig, json: seq<Row> -> string)
    : (out: (Result<nat, GogError>, Sheet))
  {
    var fetched := FetchOutcome(s, reply, cfg);
    if fetched.0.Failure? then (Failure(fetched.0.error), fetched.1)
    else
      var appended := AppendOutcome(fetched.1, reply, cfg, json, fetched.0.value);
      if appended.0.Failure? || appended.0.value == 0 then appended
      else
        var cleared := ClearOutcome(appended.1, reply, cfg);
        if cleared.0.Failure? then (Failure(cleared.0.error), cleared.1) else (Success(appended.0.value), cleared.1)
  }

  // ---------------------------------------------------------------------------
  // The protocol's properties

  /** The append step: no call for no rows; otherwise a preview, then one append of every row, reordered exactly when the destination is legacy. */
  lemma AppendProtocol(s: Sheet, reply: nat -> Reply, cfg: TransferConfig, json: seq<Row> -> string, rows: seq<Row>)
    requires rows != []
    ensures var out := AppendOutcome(s, reply, cfg, json, rows);
            var k := |s.calls|;
            var dest := RowsOf(s.tabs, cfg.toTab);
            var written := Written(LegacyOrder(dest), rows);
            (reply(k).Fail? ==> out.0.Failure? && out.1 == Sheet(s.tabs, s.calls + [PreviewArgs(cfg, cfg.toTab)])) &&
            (reply(k).Ok? ==> out.1.calls == s.calls + [PreviewArgs(cfg, cfg.toTab), AppendArgs(cfg, json, written)]) &&
            (reply(k).Ok? && reply(k + 1).Fail? ==> out.0.Failure? && out.1.tabs == s.tabs) &&
            (reply(k).Ok? && reply(k + 1).Ok? ==>
               out.0 == Success(|rows|) && out.1.tabs == s.tabs[cfg.toTab := dest + written])
  {
    var k := |s.calls|;
    var detected := DetectOutcome(s, reply, cfg);
    if reply(k).Ok? {
      var written := Written(detected.0.value, rows);
      var appended := Call(detected.1, reply, AppendArgs(cfg, json, written), Append(cfg.toTab, written));
      assert |detected.1.calls| == k + 1;
      assert appended.1.calls == s.calls + [PreviewArgs(cfg, cfg.toTab), AppendArgs(cfg, json, written)];
    }
  }

  /**
   * The whole transfer. Its trace of calls and its effect on the tabs are
   * fixed by the replies: the staging tab is cleared only after an append of
   * at least one row has succeeded, and every failure before that leaves
   * both tabs as they were.
   */
  lemma TransferProtocol(s: Sheet, reply: nat -> Reply, cfg: TransferConfig, json: seq<Row> -> string)
    ensures var out := TransferOutcome(s, reply, cfg, json);
            reply(|s.calls|).Fail? ==> out.0.Failure? && out.1 == Sheet(s.tabs, s.calls + [FetchArgs(cfg)])
    ensures var out := TransferOutcome(s, reply, cfg, json);
            var staged := StagedRows(RowsOf(s.tabs, cfg.fromTab));
            reply(|s.calls|).Ok? && staged == [] ==> out == (Success(0), Sheet(s.tabs, s.calls + [FetchArgs(cfg)]))
    ensures var out := TransferOutcome(s, reply, cfg, json);
            var k := |s.calls|;
            var staged := StagedRows(RowsOf(s.tabs, cfg.fromTab));
            reply(k).Ok? && staged != [] && reply(k + 1).Fail? ==>
              out.0.Failure? && out.1 == Sheet(s.tabs, s.calls + [FetchArgs(cfg), PreviewArgs(cfg, cfg.toTab)])
    ensures var out := TransferOutcome(s, reply, cfg, json);
            var k := |s.calls|;
            var staged := StagedRows(RowsOf(s.tabs, cfg.fromTab));
            var written := Written(LegacyOrder(RowsOf(s.tabs, cfg.toTab)), staged);
            reply(k).Ok? && staged != [] && reply(k + 1).Ok? && reply(k + 2).Fail? ==>
              out.0.Failure? &&
              out.1 == Sheet(s.tabs, s.calls + [FetchArgs(cfg), PreviewArgs(cfg, cfg.toTab), AppendArgs(cfg, json, written)])
    ensures var out := TransferOutcome(s, reply, cfg, json);
            var k := |s.calls|;
            var staged := StagedRows(RowsOf(s.tabs, cfg.fromTab));
            var dest := RowsOf(s.tabs, cfg.toTab);
            var written := Written(LegacyOrder(dest), staged);
            var afterAppend := s.tabs[cfg.toTab := dest + written];
            var staging := RowsOf(afterAppend, cfg.fromTab);
            reply(k).Ok? && staged != [] && reply(k + 1).Ok? && reply(k + 2).Ok? ==>
              out.1.calls == s.calls + [FetchArgs(cfg), PreviewArgs(cfg, cfg.toTab), AppendArgs(cfg, json, written), ClearArgs(cfg)] &&
              (reply(k + 3).Fail? ==> out.0.Failure? && out.1.tabs == afterAppend) &&
              (reply(k + 3).Ok? ==>
                 out.0 == Success(|staged|) && out.1.tabs == afterAppend[cfg.fromTab := staging[..Min(1, |staging|)]])
  {
    var k := |s.calls|;
    var staged := StagedRows(RowsOf(s.tabs, cfg.fromTab));
    if reply(k).Fail? {
    } else if staged == [] {
      FetchOk(s, reply, cfg);
    } else if reply(k + 1).Fail? || reply(k + 2).Fail? {
      TransferAppendFails(s, reply, cfg, json);
    } else {
      TransferAppended(s, reply, cfg, json);
    }
  }

  /** The transfer when the preview or the append fails after a successful fetch of some rows. */
  lemma TransferAppendFails(s: Sheet, reply: nat -> Reply, cfg: TransferConfig, json: seq<Row> -> string)
    requires StagedRows(RowsOf(s.tabs, cfg.fromTab)) != []
    requires reply(|s.calls|).Ok? && (reply(|s.calls| + 1).Fail? || reply(|s.calls| + 2).Fail?)
    ensures var out := TransferOutcome(s, reply, cfg, json);
            var k := |s.calls|;
            var s1 := Sheet(s.tabs, s.calls + [FetchArgs(cfg)]);
            out == AppendOutcome(s1, reply, cfg, json, StagedRows(RowsOf(s.tabs, cfg.fromTab))) &&
            (reply(k + 1).Fail? ==>
               out.0.Failure? && out.1 == Sheet(s.tabs, s.calls + [FetchArgs(cfg), PreviewArgs(cfg, cfg.toTab)])) &&
            (reply(k + 1).Ok? ==>
               out.0.Failure? &&
               out.1 == Sheet(s.tabs, s.calls + [FetchArgs(cfg), PreviewArgs(cfg, cfg.toTab),
                                                 AppendArgs(cfg, json, Written(LegacyOrder(RowsOf(s.tabs, cfg.toTab)), StagedRows(RowsOf(s.tabs, cfg.fromTab))))]))
  {
    FetchOk(s, reply, cfg);
    var s1 := Sheet(s.tabs, s.calls + [FetchArgs(cfg)]);
    AppendProtocol(s1, reply, cfg, json, StagedRows(RowsOf(s.tabs, cfg.fromTab)));
    assert [FetchArgs(cfg)] + [PreviewArgs(cfg, cfg.toTab)] == [FetchArgs(cfg), PreviewArgs(cfg, cfg.toTab)];
  }

  lemma FetchOk(s: Sheet, reply: nat -> Reply, cfg: TransferConfig)
    requires reply(|s.calls|).Ok?
    ensures FetchOutcome(s, reply, cfg) ==
              (Success(StagedRows(RowsOf(s.tabs, cfg.fromTab))), Sheet(s.tabs, s.calls + [FetchArgs(cfg)]))
  {
  }

  /** The transfer once the fetch, the preview and the append have succeeded: the clear decides. */
  lemma TransferAppended(s: Sheet, reply: nat -> Reply, cfg: TransferConfig, json: seq<Row> -> string)
    requires StagedRows(RowsOf(s.tabs, cfg.fromTab)) != []
    requires reply(|s.calls|).Ok? && reply(|s.calls| + 1).Ok? && reply(|s.calls| + 2).Ok?
    ensures var out := TransferOutcome(s, reply, cfg, json);
            var k := |s.calls|;
            var staged := StagedRows(RowsOf(s.tabs, cfg.fromTab));
            var dest := RowsOf(s.tabs, cfg.toTab);
            var written := Written(LegacyOrder(dest), staged);
            var afterAppend := s.tabs[cfg.toTab := dest + written];
            var staging := RowsOf(afterAppend, cfg.fromTab);
            out.1.calls == s.calls + [FetchArgs(cfg), PreviewArgs(cfg, cfg.toTab), AppendArgs(cfg, json, written), ClearArgs(cfg)] &&
            (reply(k + 3).Fail? ==> out.0.Failure? && out.1.tabs == afterAppend) &&
            (reply(k + 3).Ok? ==>
               out.0 == Success(|staged|) && out.1.tabs == afterAppend[cfg.fromTab := staging[..Min(1, |staging|)]])
  {
    FetchOk(s, reply, cfg);
    var s1 := Sheet(s.tabs, s.calls + [FetchArgs(cfg)]);
    var staged := StagedRows(RowsOf(s.tabs, cfg.fromTab));
    AppendProtocol(s1, reply, cfg, json, staged);
    var appended := AppendOutcome(s1, reply, cfg, json, staged);
    assert appended.0 == Success(|staged|);
    assert |appended.1.calls| == |s.calls| + 3;
  }

  /**
   * No row is lost: when the staging tab has changed, every data row it held
   * is now at the end of the destination, in order and in the destination's
   * column order, and the staging tab keeps only its header row.
   */
  lemma NoRowLost(s: Sheet, reply: nat -> Reply, cfg: TransferConfig, json: seq<Row> -> string)
    requires cfg.fromTab != cfg.toTab
    ensures var out := TransferOutcome(s, reply, cfg, json);
            var staging := RowsOf(s.tabs, cfg.fromTab);
            var dest := RowsOf(s.tabs, cfg.toTab);
            RowsOf(out.1.tabs, cfg.fromTab) != staging ==>
              out.0 == Success(|staging| - 1) &&
              RowsOf(out.1.tabs, cfg.fromTab) == staging[..1] &&
              RowsOf(out.1.tabs, cfg.toTab) == dest + Written(LegacyOrder(dest), StagedRows(staging))
  {
    TransferProtocol(s, reply, cfg, json);
    var k := |s.calls|;
    var staging := RowsOf(s.tabs, cfg.fromTab);
    if reply(k).Ok? && StagedRows(staging) != [] && reply(k + 1).Ok? && reply(k + 2).Ok? && reply(k + 3).Ok? {
      var dest := RowsOf(s.tabs, cfg.toTab);
      var afterAppend := s.tabs[cfg.toTab := dest + Written(LegacyOrder(dest), StagedRows(staging))];
      assert RowsOf(afterAppend, cfg.fromTab) == staging;
      assert |staging| > 1;
    }
  }

  // ---------------------------------------------------------------------------
  // The steps as methods on the workbook

  /** `fetch_rows`: the staged data rows, each normalised to nine cells. */
  method FetchRows(cfg: TransferConfig, wb: Workbook) returns (r: Result<seq<Row>, GogError>)
    modifies wb
    ensures (r, wb.State()) == FetchOutcome(old(wb.State()), wb.reply, cfg)
  {
    ghost var staging := RowsOf(wb.tabs, cfg.fromTab);
    var values :- wb.Run(FetchArgs(cfg), Get(cfg.fromTab, None));
    StagedRowsOfRead(staging);
    if |values| <= 1 {
      return Success([]);
    }
    var norm := PadRows(values[1..]);
    assert norm == StagedRows(values);
    return Success(norm);
  }

  /** The data rows, each padded and cut to nine cells, in order. */
  method PadRows(rows: seq<Row>) returns (norm: seq<Row>)
    ensures norm == NormalizeAll(rows)
  {
    norm := [];
    for i := 0 to |rows|
      invariant norm == NormalizeAll(rows[..i])
    {
      var row := PadRow(rows[i]);
      assert rows[..i + 1] == rows[..i] + [rows[i]];
      norm := norm + [row];
    }
    assert rows[..|rows|] == rows;
  }

  /** One fetched row padded with empty cells to nine, then cut to nine. */
  method PadRow(row: Row) returns (n: Row)
    ensures n == Normalize(row)
  {
    var padded := row;
    if |padded| < Width {
      padded := padded + seq(Width - |padded|, _ => "");
    }
    n := padded[..Width];
  }

  /** `_to_tab_expects_legacy_order`: look at the first data row of the destination. */
  method ToTabExpectsLegacyOrder(cfg: TransferConfig, wb: Workbook) returns (r: Result<bool, GogError>)
    modifies wb
    ensures (r, wb.State()) == DetectOutcome(old(wb.State()), wb.reply, cfg)
  {
    var preview :- wb.Run(PreviewArgs(cfg, cfg.toTab), Get(cfg.toTab, Some(PreviewRows)));
    if |preview| < 2 {
      return Success(false);
    }
    var first := preview[1];
    if |first| < Width {
      first := first + seq(Width - |first|, _ => "");
    }
    return Success(LooksLikeSource(first[0]));
  }

  /** `_reorder_for_legacy`: every row, in order, in legacy column order. */
  method ReorderForLegacy(rows: seq<Row>) returns (out: seq<Row>)
    ensures out == Reordered(rows)
  {
    out := [];
    for i := 0 to |rows|
      invariant |out| == i
      invariant forall k | 0 <= k < i :: out[k] == ToLegacy(rows[k])
    {
      var r := rows[i];
      if |r| < Width {
        r := r + seq(Width - |r|, _ => "");
      }
      out := out + [[r[1], r[6], r[2], r[3], r[4], r[0], r[5], r[7], r[8]]];
    }
  }

  /** `append_rows`: nothing for no rows; otherwise append them all in the destination's order. */
  method AppendRows(cfg: TransferConfig, json: seq<Row> -> string, rows: seq<Row>, wb: Workbook) returns (r: Result<nat, GogError>)
    modifies wb
    ensures (r, wb.State()) == AppendOutcome(old(wb.State()), wb.reply, cfg, json, rows)
  {
    if rows == [] {
      return Success(0);
    }
    var legacy :- ToTabExpectsLegacyOrder(cfg, wb);
    var written := rows;
    if legacy {
      written := ReorderForLegacy(rows);
    }
    var _ :- wb.Run(AppendArgs(cfg, json, written), Append(cfg.toTab, written));
    return Success(|rows|);
  }

  /** `clear_from`: empty every staging row below the header. */
  method ClearFrom(cfg: TransferConfig, wb: Workbook) returns (r: Result<(), GogError>)
    modifies wb
    ensures (r, wb.State()) == ClearOutcome(old(wb.State()), wb.reply, cfg)
  {
    var _ :- wb.Run(ClearArgs(cfg), Clear(cfg.fromTab));
    return Success(());
  }

  /** `transfer_today`: fetch, append, and clear the staging tab if anything was appended. */
  method TransferToday(cfg: TransferConfig, json: seq<Row> -> string, wb: Workbook) returns (r: Result<nat, GogError>)
    modifies wb
    ensures (r, wb.State()) == TransferOutcome(old(wb.State()), wb.reply, cfg, json)
  {
    var rows :- FetchRows(cfg, wb);
    var n :- AppendRows(cfg, json, rows, wb);
    if n != 0 {
      var _ :- ClearFrom(cfg, wb);
    }
    return Success(n);
  }
}
