/**
 * The cache key of a job link (`canonicalize_url`): scheme and host
 * lower-cased, `;params` and fragment dropped, tracking query parameters
 * removed and the rest sorted, trailing slashes removed from every path but
 * the root, and Tanitjobs job links cut down to `/job/<id>`.
 *
 * Splitting the text into parts (`urlparse`, `parse_qsl`) and joining them
 * back (`urlencode`, `urlunparse`) are library code: the model works on the
 * parts, with the query already split into its (key, value) pairs.
 */
module UrlCanon {
  import opened Wrappers
  import opened Text

  type Pair = (string, string)

  /** The six parts of a URL, with the query as its list of pairs. */
  datatype Url = Url(scheme: string, netloc: string, path: string, params: string,
                     query: seq<Pair>, fragment: string)

  /** The URL with every part empty; it renders as the empty string. */
  const EmptyUrl: Url := Url("", "", "", "", [], "")

  /** Tracking parameters (LinkedIn and generic marketing); matched exactly, case included. */
  const DropParams: set<string> := {
    "trk", "trackingId", "refId", "eBP", "alternateChannel", "lipi", "originalSubdomain",
    "utm_source", "utm_medium", "utm_campaign", "utm_term", "utm_content", "gclid", "fbclid"
  }

  const TanitHost: string := "tanitjobs.com"

  // ---------------------------------------------------------------------------
  // The order Python uses on strings and on (key, value) tuples

  /** Code point by code point; a proper prefix comes first. */
  predicate StrLt(a: string, b: string)
  {
    if a == [] then b != []
    else if b == [] then false
    else if a[0] != b[0] then a[0] < b[0]
    else StrLt(a[1..], b[1..])
  }

  lemma StrLtIrreflexive(a: string)
    ensures !StrLt(a, a)
  {
  }

  lemma {:induction false} StrLtAsymmetric(a: string, b: string)
    ensures !(StrLt(a, b) && StrLt(b, a))
  {
    if a != [] && b != [] && a[0] == b[0] {
      StrLtAsymmetric(a[1..], b[1..]);
    }
  }

  lemma {:induction false} StrLtTotal(a: string, b: string)
    ensures a == b || StrLt(a, b) || StrLt(b, a)
  {
    if a != [] && b != [] && a[0] == b[0] {
      StrLtTotal(a[1..], b[1..]);
      if a[1..] == b[1..] {
        assert a == [a[0]] + a[1..] && b == [b[0]] + b[1..];
      }
    }
  }

  lemma {:induction false} StrLtTransitive(a: string, b: string, c: string)
    requires StrLt(a, b) && StrLt(b, c)
    ensures StrLt(a, c)
  {
    if a != [] && a[0] == b[0] && b[0] == c[0] {
      StrLtTransitive(a[1..], b[1..], c[1..]);
    }
  }

  /** Tuples compare by key, then by value. */
  predicate PairLe(x: Pair, y: Pair)
  {
    StrLt(x.0, y.0) || (x.0 == y.0 && (x.1 == y.1 || StrLt(x.1, y.1)))
  }

  lemma PairLeTotal(x: Pair, y: Pair)
    ensures PairLe(x, y) || PairLe(y, x)
  {
    StrLtTotal(x.0, y.0);
    StrLtTotal(x.1, y.1);
  }

  lemma PairLeAntisymmetric(x: Pair, y: Pair)
    requires PairLe(x, y) && PairLe(y, x)
    ensures x == y
  {
    StrLtAsymmetric(x.0, y.0);
    StrLtAsymmetric(x.1, y.1);
    StrLtIrreflexive(x.0);
  }

  lemma PairLeTransitive(x: Pair, y: Pair, z: Pair)
    requires PairLe(x, y) && PairLe(y, z)
    ensures PairLe(x, z)
  {
    if StrLt(x.0, y.0) && StrLt(y.0, z.0) {
      StrLtTransitive(x.0, y.0, z.0);
    }
    if x.0 == y.0 && y.0 == z.0 && StrLt(x.1, y.1) && StrLt(y.1, z.1) {
      StrLtTransitive(x.1, y.1, z.1);
    }
  }

  predicate Sorted(q: seq<Pair>)
  {
    forall i, j | 0 <= i < j < |q| :: PairLe(q[i], q[j])
  }

  // ---------------------------------------------------------------------------
  // The query step: filter, then `q.sort()`

  function Insert(x: Pair, q: seq<Pair>): (r: seq<Pair>)
    requires Sorted(q)
    ensures Sorted(r)
    ensures multiset(r) == multiset(q) + multiset{x}
  {
    if q == [] then [x]
    else if PairLe(x, q[0]) then
      InsertFront(x, q);
      [x] + q
    else
      PairLeTotal(x, q[0]);
      var tail := Insert(x, q[1..]);
      InsertBehind(x, q, tail);
      [q[0]] + tail
  }

  lemma InsertFront(x: Pair, q: seq<Pair>)
    requires Sorted(q) && q != [] && PairLe(x, q[0])
    ensures Sorted([x] + q)
  {
    forall k | 0 < k < |q| ensures PairLe(x, q[k]) {
      PairLeTransitive(x, q[0], q[k]);
    }
  }

  lemma InsertBehind(x: Pair, q: seq<Pair>, tail: seq<Pair>)
    requires Sorted(q) && q != [] && PairLe(q[0], x)
    requires Sorted(tail) && multiset(tail) == multiset(q[1..]) + multiset{x}
    ensures Sorted([q[0]] + tail)
    ensures multiset([q[0]] + tail) == multiset(q) + multiset{x}
  {
    assert q == [q[0]] + q[1..];
    forall k | 0 <= k < |tail| ensures PairLe(q[0], tail[k]) {
      assert tail[k] in multiset(tail);
      if tail[k] != x {
        assert tail[k] in multiset(q[1..]);
        var j :| 0 <= j < |q[1..]| && q[1..][j] == tail[k];
        assert q[j + 1] == tail[k];
      }
    }
  }

  /** A sorted permutation of `q` (insertion sort). */
  function SortPairs(q: seq<Pair>): (r: seq<Pair>)
    ensures Sorted(r)
    ensures multiset(r) == multiset(q)
  {
    if q == [] then []
    else
      assert q == [q[0]] + q[1..];
      Insert(q[0], SortPairs(q[1..]))
  }

  /** The first element of a sorted sequence is below every element of it. */
  lemma SortedHeadMin(a: seq<Pair>, y: Pair)
    requires Sorted(a) && y in a
    ensures PairLe(a[0], y)
  {
    var j :| 0 <= j < |a| && a[j] == y;
    if j > 0 {
      assert PairLe(a[0], a[j]);
    }
  }

  /** Two sorted sequences with the same elements start alike. */
  lemma SortedSameHead(a: seq<Pair>, b: seq<Pair>)
    requires Sorted(a) && Sorted(b) && a != []
    requires multiset(a) == multiset(b)
    ensures b != [] && a[0] == b[0]
  {
    assert a[0] in multiset(b);
    assert b[0] in multiset(a);
    SortedHeadMin(b, a[0]);
    SortedHeadMin(a, b[0]);
    PairLeAntisymmetric(a[0], b[0]);
  }

  lemma TailMultiset(a: seq<Pair>)
    requires a != []
    ensures multiset(a[1..]) == multiset(a) - multiset{a[0]}
  {
    assert a == [a[0]] + a[1..];
  }

  /** A sorted sequence is determined by its elements. */
  lemma {:induction false} SortedUnique(a: seq<Pair>, b: seq<Pair>)
    requires Sorted(a) && Sorted(b)
    requires multiset(a) == multiset(b)
    ensures a == b
  {
    if a == [] {
      assert |multiset(b)| == 0;
    } else {
      SortedSameHead(a, b);
      TailMultiset(a);
      TailMultiset(b);
      SortedUnique(a[1..], b[1..]);
      assert a == [a[0]] + a[1..] && b == [b[0]] + b[1..];
    }
  }

  /** Sorting does not depend on the order the pairs arrive in. */
  lemma SortOrderInsensitive(q1: seq<Pair>, q2: seq<Pair>)
    requires multiset(q1) == multiset(q2)
    ensures SortPairs(q1) == SortPairs(q2)
  {
    SortedUnique(SortPairs(q1), SortPairs(q2));
  }

  /** Sorting a sorted sequence changes nothing. */
  lemma SortSorted(q: seq<Pair>)
    requires Sorted(q)
    ensures SortPairs(q) == q
  {
    SortedUnique(SortPairs(q), q);
  }

  /** The pairs whose key is not a tracking parameter, in their order. */
  function Kept(q: seq<Pair>): (r: seq<Pair>)
    ensures forall k | 0 <= k < |r| :: r[k].0 !in DropParams
  {
    if q == [] then []
    else
      var last := q[|q| - 1];
      Kept(q[..|q| - 1]) + (if last.0 in DropParams then [] else [last])
  }

  /** Filtering keeps every non-tracking pair as often as it occurs, blank values included. */
  lemma {:induction false} KeptMultiset(q: seq<Pair>, x: Pair)
    ensures multiset(Kept(q))[x] == if x.0 in DropParams then 0 else multiset(q)[x]
  {
    if q != [] {
      var init, last := q[..|q| - 1], q[|q| - 1];
      KeptMultiset(init, x);
      assert q == init + [last];
      assert multiset(q) == multiset(init) + multiset{last};
      var tail := if last.0 in DropParams then [] else [last];
      assert Kept(q) == Kept(init) + tail;
      assert multiset(Kept(q)) == multiset(Kept(init)) + multiset(tail);
    }
  }

  lemma KeptOrderInsensitive(q1: seq<Pair>, q2: seq<Pair>)
    requires multiset(q1) == multiset(q2)
    ensures multiset(Kept(q1)) == multiset(Kept(q2))
  {
    forall x: Pair
      ensures multiset(Kept(q1))[x] == multiset(Kept(q2))[x]
    {
      KeptMultiset(q1, x);
      KeptMultiset(q2, x);
    }
  }

  /** A tracking-free query survives the filter unchanged. */
  lemma {:induction false} KeptAll(q: seq<Pair>)
    requires forall k | 0 <= k < |q| :: q[k].0 !in DropParams
    ensures Kept(q) == q
  {
    if q != [] {
      KeptAll(q[..|q| - 1]);
      assert q == q[..|q| - 1] + [q[|q| - 1]];
    }
  }

  /** The canonical query: tracking pairs dropped, the rest sorted. */
  function CanonicalQuery(q: seq<Pair>): (r: seq<Pair>)
    ensures Sorted(r)
    ensures forall k | 0 <= k < |r| :: r[k].0 !in DropParams
    ensures forall x: Pair | x.0 !in DropParams :: multiset(r)[x] == multiset(q)[x]
  {
    var kept := Kept(q);
    var r := SortPairs(kept);
    assert forall k | 0 <= k < |r| :: r[k] in multiset(kept);
    forall x: Pair | x.0 !in DropParams
      ensures multiset(r)[x] == multiset(q)[x]
    {
      KeptMultiset(q, x);
    }
    r
  }

  /** The filtering loop and the in-place sort, as the source runs them. */
  method BuildQuery(pairs: seq<Pair>) returns (q: seq<Pair>)
    ensures q == CanonicalQuery(pairs)
  {
    q := [];
    for i := 0 to |pairs|
      invariant q == Kept(pairs[..i])
    {
      assert pairs[..i + 1][..i] == pairs[..i];
      var (k, v) := pairs[i];
      if k in DropParams {
        continue;
      }
      q := q + [(k, v)];
    }
    assert pairs[..|pairs|] == pairs;
    q := SortPairs(q);
  }

  lemma CanonicalQueryFixpoint(q: seq<Pair>)
    ensures CanonicalQuery(CanonicalQuery(q)) == CanonicalQuery(q)
  {
    var c := CanonicalQuery(q);
    KeptAll(c);
    SortSorted(c);
  }

  /**
   * Dropping a tracking pair anywhere in the query, or reordering the
   * query, leaves the canonical query unchanged.
   */
  lemma CanonicalQueryIgnoresTracking(q: seq<Pair>, i: nat, k: string, v: string)
    requires i <= |q| && k in DropParams
    ensures CanonicalQuery(q[..i] + [(k, v)] + q[i..]) == CanonicalQuery(q)
  {
    var q' := q[..i] + [(k, v)] + q[i..];
    forall x: Pair
      ensures multiset(Kept(q'))[x] == multiset(Kept(q))[x]
    {
      KeptMultiset(q', x);
      KeptMultiset(q, x);
      assert q == q[..i] + q[i..];
    }
    SortOrderInsensitive(Kept(q'), Kept(q));
  }

  lemma CanonicalQueryOrderInsensitive(q1: seq<Pair>, q2: seq<Pair>)
    requires multiset(q1) == multiset(q2)
    ensures CanonicalQuery(q1) == CanonicalQuery(q2)
  {
    KeptOrderInsensitive(q1, q2);
    SortOrderInsensitive(Kept(q1), Kept(q2));
  }

  // ---------------------------------------------------------------------------
  // The path step

  /** Python's `sub in s` on strings. */
  predicate Contains(s: string, sub: string)
  {
    exists i | 0 <= i <= |s| :: sub <= s[i..]
  }

  /**
   * What may follow the job id in `(?:/.*)?$`: nothing, or a slash and the
   * rest of the line; `$` also matches before one final newline.
   */
  predicate TailOk(rest: string)
  {
    var body := if rest != [] && rest[|rest| - 1] == '\n' then rest[..|rest| - 1] else rest;
    body == [] || (body[0] == '/' && '\n' !in body)
  }

  /** The id captured by `^/job/(?P<id>\d+)(?:/.*)?$`, if the path matches. */
  function TanitJobId(path: string): (r: Option<string>)
    ensures r.Some? ==> r.value != [] && AllDigits(r.value) && "/job/" + r.value <= path
  {
    var afterPrefix :- Lit("/job/", path);
    var (id, rest) :- Run1(IsDigit, afterPrefix);
    if TailOk(rest) then Some(id) else None
  }

  /** Remove every trailing `/` (`str.rstrip("/")`). */
  function RStripSlash(p: string): (r: string)
    ensures r <= p
    ensures r == [] || r[|r| - 1] != '/'
    ensures forall k | |r| <= k < |p| :: p[k] == '/'
  {
    if p != [] && p[|p| - 1] == '/' then RStripSlash(p[..|p| - 1]) else p
  }

  /** The path after the Tanitjobs rewrite and the trailing-slash rule. */
  function NormalizePath(netloc: string, path: string): (r: string)
    ensures r == "/" || r == [] || r[|r| - 1] != '/'
  {
    var p := if Contains(netloc, TanitHost) then
               match TanitJobId(path)
               case Some(id) => "/job/" + id
               case None => path
             else path;
    if p != "/" then RStripSlash(p) else p
  }

  /** Every path but the root loses its trailing slashes; the root stays. */
  lemma PlainPath(netloc: string, path: string)
    requires !Contains(netloc, TanitHost)
    ensures path == "/" ==> NormalizePath(netloc, path) == "/"
    ensures path != "/" ==> NormalizePath(netloc, path) == RStripSlash(path)
    ensures path != "/" ==> NormalizePath(netloc, path) != "/"
  {
  }

  /** On a Tanitjobs host, a path that is no job link is kept and then follows the same slash rule. */
  lemma TanitOtherPath(netloc: string, path: string)
    requires Contains(netloc, TanitHost) && TanitJobId(path).None?
    ensures path == "/" ==> NormalizePath(netloc, path) == "/"
    ensures path != "/" ==> NormalizePath(netloc, path) == RStripSlash(path)
  {
  }

  lemma TailOkPlain(rest: string)
    requires rest == [] || rest[0] == '/'
    requires '\n' !in rest
    ensures TailOk(rest)
  {
  }

  /** On a Tanitjobs host, `/job/<digits>` with or without a trailing part becomes `/job/<digits>`. */
  lemma {:induction false} TanitJobPath(netloc: string, id: string, rest: string)
    requires Contains(netloc, TanitHost)
    requires id != [] && AllDigits(id)
    requires rest == [] || rest[0] == '/'
    requires '\n' !in rest
    ensures NormalizePath(netloc, "/job/" + id + rest) == "/job/" + id
  {
    var path := "/job/" + id + rest;
    LitExact("/job/", id + rest);
    assert "/job/" + (id + rest) == path;
    Run1Exact(IsDigit, id, rest);
    TailOkPlain(rest);
    assert TanitJobId(path) == Some(id);
    var p := "/job/" + id;
    assert p[|p| - 1] == id[|id| - 1];
  }

  /** The short and the long form of a Tanitjobs job link share a key. */
  lemma TanitShortAndSlug(netloc: string, id: string, slug: string)
    requires Contains(netloc, TanitHost)
    requires id != [] && AllDigits(id)
    requires '\n' !in slug
    ensures NormalizePath(netloc, "/job/" + id + "/" + slug + "/")
         == NormalizePath(netloc, "/job/" + id + "/")
         == "/job/" + id
  {
    TanitJobPath(netloc, id, "/" + slug + "/");
    assert "/job/" + id + "/" + slug + "/" == "/job/" + id + ("/" + slug + "/");
    TanitJobPath(netloc, id, "/");
  }

  /** A matching path still matches with more slashes after it. */
  lemma TanitMatchSlashes(id: string, rest: string, slashes: string)
    requires id != [] && AllDigits(id)
    requires rest == [] || rest[0] == '/'
    requires '\n' !in rest
    requires forall k | 0 <= k < |slashes| :: slashes[k] == '/'
    ensures TanitJobId("/job/" + id + rest + slashes) == Some(id)
  {
    var rest' := rest + slashes;
    assert '\n' !in rest';
    LitExact("/job/", id + rest');
    assert "/job/" + (id + rest') == "/job/" + id + rest + slashes;
    Run1Exact(IsDigit, id, rest');
    TailOkPlain(rest');
  }

  /** The parts of a path the Tanitjobs pattern matches. */
  lemma TanitMatchParts(s: string) returns (id: string, rest: string)
    requires '\n' !in s
    requires TanitJobId(s).Some?
    ensures id != [] && AllDigits(id) && s == "/job/" + id + rest
    ensures rest == [] || rest[0] == '/'
    ensures '\n' !in rest
  {
    id, rest := TanitSplit(s);
    InSuffix('\n', "/job/" + id, rest);
    if rest != [] {
      assert rest[|rest| - 1] in rest;
    }
  }

  lemma TanitSplit(s: string) returns (id: string, rest: string)
    requires TanitJobId(s).Some?
    ensures id != [] && AllDigits(id) && s == "/job/" + id + rest && TailOk(rest)
  {
    TanitParts(s);
    var afterPrefix := Lit("/job/", s).value;
    var run := Run1(IsDigit, afterPrefix).value;
    id, rest := run.0, run.1;
    AppendAssoc("/job/", id, rest);
  }

  /** A matching path is the prefix, a run of digits and an accepted tail. */
  lemma TanitParts(s: string)
    requires TanitJobId(s).Some?
    ensures Lit("/job/", s).Some? && Run1(IsDigit, Lit("/job/", s).value).Some?
    ensures TailOk(Run1(IsDigit, Lit("/job/", s).value).value.1)
  {
  }

  lemma AppendAssoc(a: string, b: string, c: string)
    ensures a + b + c == a + (b + c)
  {
  }

  lemma InPrefix(c: char, a: string, b: string)
    requires a <= b
    ensures c in a ==> c in b
  {
    if c in a {
      var i :| 0 <= i < |a| && a[i] == c;
      assert b[i] == c;
    }
  }

  lemma InSuffix(c: char, a: string, b: string)
    ensures c in b ==> c in a + b
  {
    if c in b {
      var i :| 0 <= i < |b| && b[i] == c;
      assert (a + b)[|a| + i] == c;
    }
  }

  /** A path that does not match still does not match once its trailing slashes are gone. */
  lemma TanitNoMatchStripped(path: string)
    requires '\n' !in path
    requires TanitJobId(path).None?
    ensures TanitJobId(RStripSlash(path)).None?
  {
    TanitMatchUnstripped(path);
  }

  lemma TanitMatchUnstripped(path: string)
    requires '\n' !in path
    ensures TanitJobId(RStripSlash(path)).Some? ==> TanitJobId(path).Some?
  {
    var s := RStripSlash(path);
    if TanitJobId(s).Some? {
      InPrefix('\n', s, path);
      var id, rest := TanitMatchParts(s);
      var slashes := path[|s|..];
      assert forall k | 0 <= k < |slashes| :: slashes[k] == path[|s| + k] == '/';
      assert path == "/job/" + id + rest + slashes;
      TanitMatchSlashes(id, rest, slashes);
    }
  }

  /** Normalising a normalised path changes nothing (`urlparse` leaves no newline in a path). */
  lemma {:induction false} NormalizePathFixpoint(netloc: string, path: string)
    requires '\n' !in path
    ensures NormalizePath(netloc, NormalizePath(netloc, path)) == NormalizePath(netloc, path)
  {
    var n := NormalizePath(netloc, path);
    if Contains(netloc, TanitHost) && TanitJobId(path).Some? {
      var id := TanitJobId(path).value;
      TanitJobPath(netloc, id, []);
      assert "/job/" + id + [] == "/job/" + id;
    } else if path == "/" {
      assert NormalizePath(netloc, "/") == "/" by {
        assert Lit("/job/", "/").None?;
      }
    } else {
      assert n == RStripSlash(path);
      assert n != "/";
      if Contains(netloc, TanitHost) {
        TanitNoMatchStripped(path);
      }
      assert RStripSlash(n) == n;
    }
  }

  // ---------------------------------------------------------------------------
  // The whole URL

  /** Canonical form of a parsed URL. */
  function Normalize(u: Url): (r: Url)
    ensures r.scheme == Lower(u.scheme) && r.netloc == Lower(u.netloc)
    ensures r.params == [] && r.fragment == []
    ensures r.path == NormalizePath(r.netloc, u.path)
    ensures r.path == "/" || r.path == [] || r.path[|r.path| - 1] != '/'
    ensures Sorted(r.query)
    ensures forall k | 0 <= k < |r.query| :: r.query[k].0 !in DropParams
    ensures forall x: Pair | x.0 !in DropParams :: multiset(r.query)[x] == multiset(u.query)[x]
  {
    var netloc := Lower(u.netloc);
    Url(Lower(u.scheme), netloc, NormalizePath(netloc, u.path), "", CanonicalQuery(u.query), "")
  }

  /**
   * `canonicalize_url(raw)`, where `parsed` is what `urlparse` makes of the
   * stripped text: the empty text has the empty key, anything else its
   * normalised parts.
   */
  function Canonicalize(raw: string, parsed: Url): (r: Url)
    ensures raw == [] ==> r == EmptyUrl
    ensures raw != [] ==> r == Normalize(parsed)
  {
    if raw == [] then EmptyUrl else Normalize(parsed)
  }

  /** A canonical URL is its own canonical form. */
  lemma NormalizeFixpoint(u: Url)
    requires '\n' !in u.path
    ensures Normalize(Normalize(u)) == Normalize(u)
  {
    LowerIdempotent(u.scheme);
    LowerIdempotent(u.netloc);
    NormalizePathFixpoint(Lower(u.netloc), u.path);
    CanonicalQueryFixpoint(u.query);
  }

  /** Links that differ only in the order of their query pairs share a key. */
  lemma NormalizeOrderInsensitive(u: Url, q: seq<Pair>)
    requires multiset(q) == multiset(u.query)
    ensures Normalize(u.(query := q)) == Normalize(u)
  {
    CanonicalQueryOrderInsensitive(q, u.query);
  }

  /** Links that differ only in a tracking parameter, the fragment or `;params` share a key. */
  lemma NormalizeIgnoresTracking(u: Url, i: nat, k: string, v: string, params: string, fragment: string)
    requires i <= |u.query| && k in DropParams
    ensures Normalize(u.(query := u.query[..i] + [(k, v)] + u.query[i..], params := params, fragment := fragment))
         == Normalize(u)
  {
    CanonicalQueryIgnoresTracking(u.query, i, k, v);
  }
}
