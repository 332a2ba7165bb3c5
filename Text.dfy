/**
 * Character classes and small string operations shared by the scheduler, the
 * summariser, the transfer protocol and the URL canonicaliser.
 *
 * Character classes follow Python's `str` semantics restricted to the first
 * 256 code points: `IsSpace` is `str.isspace()` (which is also what regex
 * `\s` and `str.split()` use), `IsWordChar` is regex `\w` over ASCII and
 * `IsDigit` is regex `\d` over ASCII.
 */
module Text {
  import opened Wrappers

  predicate IsDigit(c: char) { '0' <= c <= '9' }

  predicate IsWordChar(c: char) { 'a' <= c <= 'z' || 'A' <= c <= 'Z' || IsDigit(c) || c == '_' }

  predicate IsSpace(c: char)
  {
    c == ' ' || '\t' <= c <= '\r' || '\U{1c}' <= c <= '\U{1f}' || c == '\U{85}' || c == '\U{a0}'
  }

  predicate IsNonSpace(c: char) { !IsSpace(c) }

  predicate AllDigits(s: string) { forall i | 0 <= i < |s| :: IsDigit(s[i]) }

  predicate NoSpace(s: string) { forall i | 0 <= i < |s| :: !IsSpace(s[i]) }

  predicate AllSpace(s: string) { forall i | 0 <= i < |s| :: IsSpace(s[i]) }

  /** End of the longest run of characters satisfying `p` that starts at `i`. */
  function Span(p: char -> bool, s: string, i: nat): (j: nat)
    requires i <= |s|
    ensures i <= j <= |s|
    ensures forall k | i <= k < j :: p(s[k])
    ensures j == |s| || !p(s[j])
    decreases |s| - i
  {
    if i == |s| || !p(s[i]) then i else Span(p, s, i + 1)
  }

  // ---------------------------------------------------------------------------
  // Case folding and trimming (ASCII part of `str.lower()` and `str.strip()`)

  function LowerChar(c: char): char
  {
    if 'A' <= c <= 'Z' then (c as int - 'A' as int + 'a' as int) as char else c
  }

  function Lower(s: string): (r: string)
    ensures |r| == |s|
    ensures forall i | 0 <= i < |s| :: r[i] == LowerChar(s[i])
    ensures forall i | 0 <= i < |s| :: !('A' <= r[i] <= 'Z')
    ensures forall i | 0 <= i < |s| :: 'A' <= s[i] <= 'Z' || r[i] == s[i]
  {
    seq(|s|, i requires 0 <= i < |s| => LowerChar(s[i]))
  }

  lemma LowerIdempotent(s: string)
    ensures Lower(Lower(s)) == Lower(s)
  {
  }

  /** Index of the first non-space character at or after `i`, from the right end. */
  function TrimEnd(s: string, j: nat): (k: nat)
    requires j <= |s|
    ensures k <= j
    ensures forall m | k <= m < j :: IsSpace(s[m])
    ensures k == 0 || !IsSpace(s[k - 1])
  {
    if j == 0 || !IsSpace(s[j - 1]) then j else TrimEnd(s, j - 1)
  }

  /** `str.strip()`: `s` is leading spaces, then the result, then trailing spaces. */
  function Strip(s: string): (r: string)
    ensures r == [] || (!IsSpace(r[0]) && !IsSpace(r[|r| - 1]))
    ensures exists a: nat, b: nat | a <= b <= |s| :: s[a..b] == r && AllSpace(s[..a]) && AllSpace(s[b..])
  {
    var a := Span(IsSpace, s, 0);
    var b := TrimEnd(s, |s|);
    if b <= a then
      assert AllSpace(s[..a]) && AllSpace(s[a..]);
      []
    else
      assert AllSpace(s[..a]) && AllSpace(s[b..]);
      s[a..b]
  }

  /** Stripping removes exactly the spaces around a text that starts and ends with a non-space. */
  lemma StripAround(before: string, u: string, after: string)
    requires AllSpace(before) && AllSpace(after)
    requires u != [] && !IsSpace(u[0]) && !IsSpace(u[|u| - 1])
    ensures Strip(before + u + after) == u
  {
    var s := before + u + after;
    var a := Span(IsSpace, s, 0);
    var b := TrimEnd(s, |s|);
    assert s[|before|] == u[0];
    assert forall k | 0 <= k < |before| :: s[k] == before[k];
    assert a == |before|;
    assert s[|before| + |u| - 1] == u[|u| - 1];
    assert forall k | |before| + |u| <= k < |s| :: s[k] == after[k - |before| - |u|];
    assert b == |before| + |u|;
    assert s[a..b] == u;
  }

  // ---------------------------------------------------------------------------
  // Decimal rendering (`str(int)`) and reading it back

  function DigitChar(d: nat): (c: char)
    requires d < 10
    ensures IsDigit(c) && c as int - '0' as int == d
  {
    ('0' as int + d) as char
  }

  function DigitValue(c: char): (d: nat)
    requires IsDigit(c)
    ensures d < 10 && DigitChar(d) == c
  {
    c as int - '0' as int
  }

  /** Decimal digits of `n`, most significant first, no leading zeros. */
  function NatToString(n: nat): (s: string)
    ensures |s| > 0 && AllDigits(s)
    ensures |s| > 1 ==> s[0] != '0'
    decreases n
  {
    if n < 10 then [DigitChar(n)] else NatToString(n / 10) + [DigitChar(n % 10)]
  }

  function ParseNat(s: string): nat
    requires AllDigits(s)
  {
    if s == [] then 0 else 10 * ParseNat(s[..|s| - 1]) + DigitValue(s[|s| - 1])
  }

  lemma {:induction false} ParseNatToString(n: nat)
    ensures ParseNat(NatToString(n)) == n
    decreases n
  {
    var s := NatToString(n);
    if n >= 10 {
      ParseNatToString(n / 10);
      assert s[..|s| - 1] == NatToString(n / 10);
    }
  }

  /** `str(i)` for a Python int. */
  function IntToString(i: int): (s: string)
    ensures i >= 0 ==> s == NatToString(i)
    ensures i < 0 ==> s == "-" + NatToString(-i)
  {
    if i < 0 then "-" + NatToString(-i) else NatToString(i)
  }

  /** Reads an optionally negative decimal integer. */
  function ParseInt(s: string): (r: Option<int>)
    ensures r.Some? <==> (s != [] && AllDigits(s)) || (|s| > 1 && s[0] == '-' && AllDigits(s[1..]))
  {
    if s != [] && AllDigits(s) then Some(ParseNat(s))
    else if |s| > 1 && s[0] == '-' && AllDigits(s[1..]) then Some(0 - ParseNat(s[1..]) as int)
    else None
  }

  lemma IntToStringRoundTrip(i: int)
    ensures ParseInt(IntToString(i)) == Some(i)
  {
    if i < 0 {
      var s := IntToString(i);
      assert s[1..] == NatToString(-i);
      assert !IsDigit(s[0]);
      ParseNatToString(-i);
    } else {
      ParseNatToString(i);
    }
  }

  /** `f"{n:02d}"` for 0 <= n < 100. */
  function Pad2(n: nat): (s: string)
    requires n < 100
    ensures |s| == 2 && AllDigits(s) && ParseNat(s) == n
  {
    if n < 10 then
      var s := "0" + [DigitChar(n)];
      assert s[..1] == "0" && s[..1][..0] == [];
      assert ParseNat(s[..1]) == 0;
      s
    else
      ParseNatToString(n);
      NatToString(n)
  }

  // ---------------------------------------------------------------------------
  // `sep.join(parts)` and `s.split(c)`

  function Join(parts: seq<string>, sep: string): string
  {
    if |parts| == 0 then "" else if |parts| == 1 then parts[0] else parts[0] + sep + Join(parts[1..], sep)
  }

  /** Index of the first `c` in `s`, or |s| when there is none. */
  function Find(s: string, c: char): (i: nat)
    ensures i <= |s|
    ensures forall k | 0 <= k < i :: s[k] != c
    ensures i < |s| ==> s[i] == c
  {
    if s == [] then 0 else if s[0] == c then 0 else 1 + Find(s[1..], c)
  }

  function Split(s: string, c: char): (parts: seq<string>)
    ensures |parts| > 0
    decreases |s|
  {
    var i := Find(s, c);
    if i == |s| then [s] else [s[..i]] + Split(s[i + 1..], c)
  }

  /** Joining on a separator character that occurs in no part can be undone by splitting. */
  lemma {:induction false} SplitJoin(parts: seq<string>, c: char)
    requires |parts| > 0
    requires forall k, m | 0 <= k < |parts| && 0 <= m < |parts[k]| :: parts[k][m] != c
    ensures Split(Join(parts, [c]), c) == parts
  {
    var p := parts[0];
    if |parts| == 1 {
      assert Find(p, c) == |p|;
    } else {
      var rest := Join(parts[1..], [c]);
      var s := p + [c] + rest;
      assert Join(parts, [c]) == s;
      assert forall m | 0 <= m < |p| :: s[m] == p[m];
      assert s[|p|] == c;
      assert Find(s, c) == |p|;
      assert s[..|p|] == p;
      assert s[|p| + 1..] == rest;
      SplitJoin(parts[1..], c);
      assert parts == [p] + parts[1..];
    }
  }

  // ---------------------------------------------------------------------------
  // `" ".join(s.split())`: whitespace collapsing

  /** The maximal runs of non-space characters of `s`, in order (`str.split()`). */
  function Words(s: string): (ws: seq<string>)
    ensures forall k | 0 <= k < |ws| :: |ws[k]| > 0 && NoSpace(ws[k])
    decreases |s|
  {
    if s == [] then []
    else if IsSpace(s[0]) then Words(s[1..])
    else
      var n := Span(IsNonSpace, s, 0);
      [s[..n]] + Words(s[n..])
  }

  function Concat(ws: seq<string>): string
  {
    if ws == [] then "" else ws[0] + Concat(ws[1..])
  }

  /** The non-space characters of `s`, in order. */
  function Visible(s: string): string
  {
    if s == [] then "" else (if IsSpace(s[0]) then "" else [s[0]]) + Visible(s[1..])
  }

  lemma {:induction false} VisibleAppend(a: string, b: string)
    ensures Visible(a + b) == Visible(a) + Visible(b)
  {
    if a != [] {
      assert (a + b)[1..] == a[1..] + b;
      VisibleAppend(a[1..], b);
    } else {
      assert a + b == b;
    }
  }

  lemma {:induction false} VisibleNoSpace(a: string)
    requires NoSpace(a)
    ensures Visible(a) == a
  {
    if a != [] {
      VisibleNoSpace(a[1..]);
    }
  }

  /** Splitting into words loses exactly the whitespace. */
  lemma {:induction false} WordsKeepText(s: string)
    ensures Concat(Words(s)) == Visible(s)
    decreases |s|
  {
    if s != [] {
      if IsSpace(s[0]) {
        WordsKeepText(s[1..]);
      } else {
        var n := Span(IsNonSpace, s, 0);
        WordsKeepText(s[n..]);
        assert s == s[..n] + s[n..];
        VisibleAppend(s[..n], s[n..]);
        VisibleNoSpace(s[..n]);
        assert Words(s) == [s[..n]] + Words(s[n..]);
      }
    }
  }

  /** Every whitespace character is a single ' ' that follows a non-space one. */
  predicate SingleSpaced(r: string)
  {
    forall i | 0 <= i < |r| :: IsSpace(r[i]) ==> r[i] == ' ' && i > 0 && !IsSpace(r[i - 1])
  }

  /** Single-spaced text that also does not end in a space. */
  predicate Collapsed(r: string)
  {
    SingleSpaced(r) && (r == [] || !IsSpace(r[|r| - 1]))
  }

  function Collapse(s: string): string
  {
    Join(Words(s), " ")
  }

  lemma {:induction false} JoinWordsCollapsed(ws: seq<string>)
    requires forall k | 0 <= k < |ws| :: |ws[k]| > 0 && NoSpace(ws[k])
    ensures Collapsed(Join(ws, " "))
    ensures ws != [] ==> Join(ws, " ") != [] && !IsSpace(Join(ws, " ")[0])
  {
    if |ws| > 1 {
      JoinWordsCollapsed(ws[1..]);
      var w, rest := ws[0], Join(ws[1..], " ");
      var r := w + " " + rest;
      assert Join(ws, " ") == r;
      forall i | 0 <= i < |r| && IsSpace(r[i])
        ensures r[i] == ' ' && i > 0 && !IsSpace(r[i - 1])
      {
        if i > |w| {
          assert r[i] == rest[i - |w| - 1];
          if i - 1 > |w| { assert r[i - 1] == rest[i - 1 - |w| - 1]; }
        }
      }
      assert r[|r| - 1] == rest[|rest| - 1];
    }
  }

  /** The collapsed text is single-spaced, has no space at either end and keeps every non-space character. */
  lemma CollapseShape(s: string)
    ensures Collapsed(Collapse(s))
    ensures Collapse(s) == [] || !IsSpace(Collapse(s)[0])
    ensures Visible(Collapse(s)) == Visible(s)
    ensures Words(Collapse(s)) == Words(s)
  {
    WordsOfJoin(Words(s));
    JoinWordsCollapsed(Words(s));
    WordsKeepText(s);
    WordsOfJoinKeepText(Words(s));
  }

  lemma {:induction false} WordsOfJoinKeepText(ws: seq<string>)
    requires forall k | 0 <= k < |ws| :: |ws[k]| > 0 && NoSpace(ws[k])
    ensures Visible(Join(ws, " ")) == Concat(ws)
  {
    if |ws| == 1 {
      VisibleNoSpace(ws[0]);
      assert Concat(ws[1..]) == "";
      assert Concat(ws) == ws[0];
    } else if |ws| > 1 {
      WordsOfJoinKeepText(ws[1..]);
      var w, rest := ws[0], Join(ws[1..], " ");
      assert Join(ws, " ") == (w + " ") + rest;
      VisibleAppend(w + " ", rest);
      VisibleAppend(w, " ");
      VisibleNoSpace(w);
      assert Visible(" ") == "";
      assert Visible(w + " ") == w;
      assert Concat(ws) == w + Concat(ws[1..]);
    }
  }

  /** Splitting words joined by single spaces gives back the words. */
  lemma {:induction false} WordsOfJoin(ws: seq<string>)
    requires forall k | 0 <= k < |ws| :: |ws[k]| > 0 && NoSpace(ws[k])
    ensures Words(Join(ws, " ")) == ws
  {
    if |ws| == 1 {
      WordsOfWord(ws[0]);
    } else if |ws| > 1 {
      var w, rest := ws[0], Join(ws[1..], " ");
      assert Join(ws, " ") == w + " " + rest;
      WordThen(w, rest);
      WordsOfJoin(ws[1..]);
      assert ws == [w] + ws[1..];
    }
  }

  /** A word followed by a space: the word comes first, then the words of what follows. */
  lemma WordThen(w: string, rest: string)
    requires |w| > 0 && NoSpace(w)
    ensures Words(w + " " + rest) == [w] + Words(rest)
  {
    var s := w + " " + rest;
    var n := Span(IsNonSpace, s, 0);
    assert n == |w| by {
      assert forall m | 0 <= m < |w| :: s[m] == w[m];
      assert s[|w|] == ' ';
    }
    assert s[..n] == w;
    assert s[n..] == " " + rest;
    assert (" " + rest)[1..] == rest;
    assert Words(" " + rest) == Words(rest);
  }

  /** Collapsing whitespace twice is the same as once. */
  lemma CollapseIdempotent(s: string)
    ensures Collapse(Collapse(s)) == Collapse(s)
  {
    WordsOfJoin(Words(s));
  }

  /** Text without whitespace is its own collapse. */
  lemma CollapseNoSpace(s: string)
    requires NoSpace(s)
    ensures Collapse(s) == s
  {
    if s != [] {
      WordsOfWord(s);
    }
  }

  lemma WordsOfWord(w: string)
    requires |w| > 0 && NoSpace(w)
    ensures Words(w) == [w]
  {
    assert Span(IsNonSpace, w, 0) == |w|;
    assert w[..|w|] == w && w[|w|..] == [];
    assert Words(w) == [w[..|w|]] + Words(w[|w|..]);
  }

  /** The first `n` characters (`s[:n]`). */
  function Prefix(s: string, n: nat): (r: string)
    ensures |r| == if |s| <= n then |s| else n
    ensures r == s[..|r|]
  {
    if |s| <= n then s else s[..n]
  }

  lemma PrefixSingleSpaced(s: string, n: nat)
    requires SingleSpaced(s)
    ensures SingleSpaced(Prefix(s, n))
  {
  }

  // ---------------------------------------------------------------------------
  // Building blocks of the hand-written regular expressions

  /**
   * A greedy `p+` at the front of `t`: the non-empty maximal run and what
   * follows it. Greedy matching never has to give characters back in the two
   * patterns, because every `+` is followed by something `p` rejects.
   */
  function Run1(p: char -> bool, t: string): (r: Option<(string, string)>)
    ensures r.Some? <==> t != [] && p(t[0])
    ensures r.Some? ==> r.value.0 + r.value.1 == t && |r.value.0| > 0
    ensures r.Some? ==> forall k | 0 <= k < |r.value.0| :: p(r.value.0[k])
    ensures r.Some? ==> r.value.1 == [] || !p(r.value.1[0])
  {
    var n := Span(p, t, 0);
    if n == 0 then None else Some((t[..n], t[n..]))
  }

  /** A run is determined by where `p` stops holding. */
  lemma Run1Exact(p: char -> bool, x: string, y: string)
    requires |x| > 0 && forall k | 0 <= k < |x| :: p(x[k])
    requires y == [] || !p(y[0])
    ensures Run1(p, x + y) == Some((x, y))
  {
    var t := x + y;
    var n := Span(p, t, 0);
    assert forall k | 0 <= k < |x| :: t[k] == x[k];
    if y != [] {
      assert t[|x|] == y[0];
    }
    assert n == |x|;
    assert t[..n] == x && t[n..] == y;
  }

  /** A literal at the front of `t`: what follows it. */
  function Lit(lit: string, t: string): (r: Option<string>)
    ensures r.Some? <==> |lit| <= |t| && t[..|lit|] == lit
    ensures r.Some? ==> t == lit + r.value
  {
    if |lit| <= |t| && t[..|lit|] == lit then Some(t[|lit|..]) else None
  }

  lemma LitExact(lit: string, y: string)
    ensures Lit(lit, lit + y) == Some(y)
  {
    assert (lit + y)[..|lit|] == lit;
  }
}
