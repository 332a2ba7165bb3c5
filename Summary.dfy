/**
 * The output summariser of the dashboard (`_parse_summary`, src/jobscraper/cli.py).
 *
 * It turns the merged stdout/stderr of one task run into a short display
 * string by trying, in order:
 *   1. STAT_RE, `^(\w+):\s+scraped=(\d+)\s+new=(\d+)\s+relevant_new=(\d+)` in
 *      multi-line mode (so `^` is the start of any line), first match;
 *   2. WATCH_RE, `NEW relevant=(\d+)`, first match anywhere;
 *   3. the text with every whitespace run collapsed to one space, cut to 160
 *      characters.
 * The two regular expressions are written out as matchers over the text.
 */
module Summary {
  import opened Wrappers
  import opened Text

  /** The three digit groups STAT_RE captures, as the text that matched them. */
  datatype Stats = Stats(scraped: string, added: string, relevant: string)

  /** `<lit>(\d+)` at the front of `t`: the digits and what follows them. */
  function Field(lit: string, t: string): Option<(string, string)>
  {
    var t1 :- Lit(lit, t);
    Run1(IsDigit, t1)
  }

  /** `scraped=(\d+)\s+new=(\d+)\s+relevant_new=(\d+)` at the front of `t`. */
  function StatFields(t: string): Option<Stats>
  {
    var n1 :- Field("scraped=", t);
    var sp2 :- Run1(IsSpace, n1.1);
    var n2 :- Field("new=", sp2.1);
    var sp3 :- Run1(IsSpace, n2.1);
    var n3 :- Field("relevant_new=", sp3.1);
    Some(Stats(n1.0, n2.0, n3.0))
  }

  /** STAT_RE anchored at the front of `t`. */
  function StatAt(t: string): Option<Stats>
  {
    var word :- Run1(IsWordChar, t);
    var t1 :- Lit(":", word.1);
    var sp1 :- Run1(IsSpace, t1);
    StatFields(sp1.1)
  }

  /** Where `^` matches in multi-line mode. */
  predicate LineStart(s: string, i: nat)
    requires i <= |s|
  {
    i == 0 || s[i - 1] == '\n'
  }

  /** WATCH_RE anchored at the front of `t`: the digits it captures. */
  function WatchAt(t: string): Option<string>
  {
    var t1 :- Lit("NEW relevant=", t);
    var n :- Run1(IsDigit, t1);
    Some(n.0)
  }

  /** Where a search may try its pattern: anywhere, or only at line starts for a `^` in multi-line mode. */
  predicate MayStart(lineAnchored: bool, s: string, p: nat)
    requires p <= |s|
  {
    !lineAnchored || LineStart(s, p)
  }

  /** `pattern.search(s)` from position `i` on, for the anchored matcher `m` of the pattern. */
  function Search<T>(m: string -> Option<T>, lineAnchored: bool, s: string, i: nat): Option<T>
    requires i <= |s|
    decreases |s| - i
  {
    if MayStart(lineAnchored, s, i) && m(s[i..]).Some? then m(s[i..])
    else if i == |s| then None
    else Search(m, lineAnchored, s, i + 1)
  }

  /** A search fails exactly when the pattern matches at no position it may try. */
  lemma {:induction false} SearchNone<T>(m: string -> Option<T>, lineAnchored: bool, s: string, i: nat)
    requires i <= |s|
    ensures Search(m, lineAnchored, s, i).None? <==>
            forall p | i <= p <= |s| && MayStart(lineAnchored, s, p) :: m(s[p..]).None?
    decreases |s| - i
  {
    if i < |s| {
      SearchNone(m, lineAnchored, s, i + 1);
    }
  }

  /** A search returns the match at the first position it may try where the pattern matches. */
  lemma {:induction false} SearchFirst<T>(m: string -> Option<T>, lineAnchored: bool, s: string, i: nat, p: nat)
    requires i <= p <= |s| && MayStart(lineAnchored, s, p) && m(s[p..]).Some?
    requires forall q | i <= q < p && MayStart(lineAnchored, s, q) :: m(s[q..]).None?
    ensures Search(m, lineAnchored, s, i) == m(s[p..])
    decreases p - i
  {
    if i < p {
      SearchFirst(m, lineAnchored, s, i + 1, p);
    }
  }

  /** `STAT_RE.search(s)`. */
  function SearchStat(s: string): Option<Stats>
  {
    Search(StatAt, true, s, 0)
  }

  /** `WATCH_RE.search(s)`. */
  function SearchWatch(s: string): Option<string>
  {
    Search(WatchAt, false, s, 0)
  }

  /** Longest fallback summary. */
  const MaxFallback: nat := 160

  function StatsText(st: Stats): string
  {
    "scraped=" + st.scraped + " new=" + st.added + " relevant_new=" + st.relevant
  }

  /**
   * `_parse_summary(task, output)`. The task argument is unused by the source
   * and is left out here.
   */
  function ParseSummary(output: string): string
  {
    match SearchStat(output)
    case Some(st) => StatsText(st)
    case None =>
      match SearchWatch(output)
      case Some(count) => "new_relevant=" + count
      case None => Prefix(Collapse(output), MaxFallback)
  }

  /**
   * With neither pattern matching, the summary is the collapsed output cut
   * to its first 160 characters.
   */
  lemma FallbackSummary(output: string)
    requires SearchStat(output).None? && SearchWatch(output).None?
    ensures var r := ParseSummary(output);
            |r| == (if |Collapse(output)| <= MaxFallback then |Collapse(output)| else MaxFallback) &&
            r == Collapse(output)[..|r|] &&
            SingleSpaced(r) && (r == [] || !IsSpace(r[0])) &&
            Visible(r) <= Visible(output) &&
            Words(Collapse(output)) == Words(output)
  {
    CollapseShape(output);
    var c := Collapse(output);
    var r := Prefix(c, MaxFallback);
    VisiblePrefix(c, |r|);
    PrefixSingleSpaced(c, MaxFallback);
  }

  lemma VisiblePrefix(c: string, n: nat)
    requires n <= |c|
    ensures Visible(c[..n]) <= Visible(c)
  {
    assert c == c[..n] + c[n..];
    VisibleAppend(c[..n], c[n..]);
  }

  // ---------------------------------------------------------------------------
  // The three outcomes

  /** A stats line `<word>:<ws>scraped=<n><ws>new=<n><ws>relevant_new=<n>`. */
  function StatsLine(src: string, sp1: string, n1: string, sp2: string, n2: string, sp3: string, n3: string): string
  {
    src + (":" + (sp1 + ("scraped=" + (n1 + (sp2 + ("new=" + (n2 + (sp3 + ("relevant_new=" + n3)))))))))
  }

  predicate WordText(s: string) { |s| > 0 && forall k | 0 <= k < |s| :: IsWordChar(s[k]) }

  predicate SpaceText(s: string) { |s| > 0 && AllSpace(s) }

  predicate DigitText(s: string) { |s| > 0 && AllDigits(s) }

  /** What follows a captured number: the number cannot go on. */
  predicate EndsNumber(rest: string) { rest == [] || !IsDigit(rest[0]) }

  lemma FieldExact(lit: string, n: string, rest: string)
    requires DigitText(n) && EndsNumber(rest)
    ensures Field(lit, lit + (n + rest)) == Some((n, rest))
  {
    LitExact(lit, n + rest);
    Run1Exact(IsDigit, n, rest);
  }

  lemma StatFieldsExact(n1: string, sp2: string, n2: string, sp3: string, n3: string, rest: string)
    requires SpaceText(sp2) && SpaceText(sp3)
    requires DigitText(n1) && DigitText(n2) && DigitText(n3) && EndsNumber(rest)
    ensures StatFields("scraped=" + (n1 + (sp2 + ("new=" + (n2 + (sp3 + ("relevant_new=" + (n3 + rest))))))))
         == Some(Stats(n1, n2, n3))
  {
    var t4 := "relevant_new=" + (n3 + rest);
    var t3 := "new=" + (n2 + (sp3 + t4));
    FieldExact("scraped=", n1, sp2 + t3);
    Run1Exact(IsSpace, sp2, t3);
    FieldExact("new=", n2, sp3 + t4);
    Run1Exact(IsSpace, sp3, t4);
    FieldExact("relevant_new=", n3, rest);
  }

  lemma StatAtLine(src: string, sp1: string, n1: string, sp2: string, n2: string, sp3: string, n3: string, rest: string)
    requires WordText(src) && SpaceText(sp1) && SpaceText(sp2) && SpaceText(sp3)
    requires DigitText(n1) && DigitText(n2) && DigitText(n3) && EndsNumber(rest)
    ensures StatAt(StatsLine(src, sp1, n1, sp2, n2, sp3, n3) + rest) == Some(Stats(n1, n2, n3))
  {
    var t2 := "scraped=" + (n1 + (sp2 + ("new=" + (n2 + (sp3 + ("relevant_new=" + (n3 + rest)))))));
    var t1 := ":" + (sp1 + t2);
    assert StatsLine(src, sp1, n1, sp2, n2, sp3, n3) + rest == src + t1;
    Run1Exact(IsWordChar, src, t1);
    LitExact(":", sp1 + t2);
    Run1Exact(IsSpace, sp1, t2);
    StatFieldsExact(n1, sp2, n2, sp3, n3, rest);
  }

  /**
   * When the first line STAT_RE matches carries scrape stats, the summary is
   * exactly `scraped=<n> new=<n> relevant_new=<n>` with the numbers as they
   * were printed, whatever else the output holds.
   */
  lemma StatsLineSummary(s: string, pre: string, src: string, sp1: string, n1: string, sp2: string, n2: string,
                         sp3: string, n3: string, rest: string)
    requires s == pre + StatsLine(src, sp1, n1, sp2, n2, sp3, n3) + rest
    requires pre == [] || pre[|pre| - 1] == '\n'
    requires forall q | 0 <= q < |pre| && LineStart(s, q) :: StatAt(s[q..]).None?
    requires WordText(src) && SpaceText(sp1) && SpaceText(sp2) && SpaceText(sp3)
    requires DigitText(n1) && DigitText(n2) && DigitText(n3) && EndsNumber(rest)
    ensures ParseSummary(s) == "scraped=" + n1 + " new=" + n2 + " relevant_new=" + n3
  {
    var line := StatsLine(src, sp1, n1, sp2, n2, sp3, n3);
    assert s[|pre|..] == line + rest;
    StatAtLine(src, sp1, n1, sp2, n2, sp3, n3, rest);
    SearchFirst(StatAt, true, s, 0, |pre|);
  }

  /** STAT_RE needs a colon. */
  lemma NoColonNoStats(s: string)
    requires forall k | 0 <= k < |s| :: s[k] != ':'
    ensures SearchStat(s).None?
  {
    SearchNone(StatAt, true, s, 0);
    forall p | 0 <= p <= |s| ensures StatAt(s[p..]).None? {
      var t := s[p..];
      assert forall j | 0 <= j < |t| :: t[j] == s[p + j];
    }
  }

  /**
   * Output without a stats line whose first `NEW relevant=<digits>` marker
   * is the one shown summarises to `new_relevant=<digits>`.
   */
  lemma WatchSummary(s: string, pre: string, n: string, rest: string)
    requires s == pre + "NEW relevant=" + n + rest
    requires SearchStat(s).None?
    requires forall q | 0 <= q < |pre| :: WatchAt(s[q..]).None?
    requires DigitText(n) && EndsNumber(rest)
    ensures ParseSummary(s) == "new_relevant=" + n
  {
    assert s[|pre|..] == "NEW relevant=" + (n + rest);
    LitExact("NEW relevant=", n + rest);
    Run1Exact(IsDigit, n, rest);
    SearchFirst(WatchAt, false, s, 0, |pre|);
  }

  /** STAT_RE needs a whitespace character after the colon. */
  lemma StatAtNeedsSpace(t: string)
    requires NoSpace(t)
    ensures StatAt(t).None?
  {
    var word := Run1(IsWordChar, t);
    if word.Some? {
      var w := word.value.0;
      assert forall j | 0 <= j < |word.value.1| :: word.value.1[j] == t[|w| + j];
      var t1 := Lit(":", word.value.1);
      if t1.Some? && t1.value != [] {
        assert t1.value[0] == word.value.1[1];
      }
    }
  }

  /** WATCH_RE needs the space inside its marker. */
  lemma WatchAtNeedsSpace(t: string)
    requires NoSpace(t)
    ensures WatchAt(t).None?
  {
    if |t| >= 13 {
      assert t[..13][3] == t[3];
    }
  }

  /** Both patterns need a whitespace character. */
  lemma NoSpaceNoMatch(s: string)
    requires NoSpace(s)
    ensures SearchStat(s).None? && SearchWatch(s).None?
  {
    forall p | 0 <= p <= |s| ensures StatAt(s[p..]).None? {
      StatAtNeedsSpace(s[p..]);
    }
    SearchNone(StatAt, true, s, 0);
    forall p | 0 <= p <= |s| ensures WatchAt(s[p..]).None? {
      WatchAtNeedsSpace(s[p..]);
    }
    SearchNone(WatchAt, false, s, 0);
  }

  /**
   * Text with no whitespace (so neither pattern can match), such as the
   * `timeout` sentinel, is its own summary when it fits.
   */
  lemma PlainSummary(s: string)
    requires NoSpace(s) && |s| <= MaxFallback
    ensures ParseSummary(s) == s
  {
    NoSpaceNoMatch(s);
    CollapseNoSpace(s);
    FallbackSummary(s);
  }

  /** The sentinel text recorded for a timed-out run summarises to itself. */
  lemma TimeoutSummary()
    ensures ParseSummary("timeout") == "timeout"
  {
    var s := "timeout";
    assert forall k | 0 <= k < |s| :: s[k] in "timeout";
    PlainSummary(s);
  }
}
