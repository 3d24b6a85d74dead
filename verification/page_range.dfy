/**
 * `parsePageRange`: a comma-separated list of page numbers and inclusive
 * `start-end` ranges becomes the ascending list of the distinct pages named.
 */
module PageRange {
  import opened Results
  import opened JsText
  import opened Decimal
  import opened Seqs

  /** One comma-separated piece of a page-range spec, once read. */
  datatype Token = Single(page: nat) | Range(first: nat, last: nat)

  /** `a <= i <= b`, named so that comprehensions over a range have a term to trigger on. */
  predicate Between(i: nat, a: nat, b: nat) {
    a <= i <= b
  }

  /** The pages a token names. */
  ghost function Pages(t: Token): set<nat> {
    match t
    case Single(p) => {p}
    case Range(a, b) => set i: nat | a <= i <= b && Between(i, a, b)
  }

  /** The pages a list of tokens names together. */
  ghost function Covered(ts: seq<Token>): set<nat> {
    if |ts| == 0 then {} else Pages(ts[0]) + Covered(ts[1..])
  }

  function Elems(s: seq<nat>): set<nat> {
    set x | x in s
  }

  predicate NoDuplicates(s: seq<nat>) {
    forall i, j :: 0 <= i < j < |s| ==> s[i] != s[j]
  }

  predicate Ascending(s: seq<nat>) {
    forall i, j :: 0 <= i < j < |s| ==> s[i] <= s[j]
  }

  predicate StrictlyAscending(s: seq<nat>) {
    forall i, j :: 0 <= i < j < |s| ==> s[i] < s[j]
  }

  function RangeError(token: string): string {
    "Invalid page range: " + token
  }

  function PageError(token: string): string {
    "Invalid page number: " + token
  }

  /**
   * Reads one comma-separated piece. After trimming, a piece holding '-' is a
   * range: it is split on '-', only the first two pieces are read (each
   * trimmed, then through `parseInt`), and it is rejected when either is
   * `NaN` or the start exceeds the end. Any other piece is a single page,
   * rejected when `parseInt` gives `NaN`. The error names the trimmed piece.
   */
  function ParseToken(part: string): (r: Result<Token>)
    ensures r.Ok? ==> (r.value.Range? <==> '-' in Trim(part))
    ensures '-' !in Trim(part) ==> (r.Ok? <==> ParseInt(Trim(part)).Some?)
    ensures r.Ok? && r.value.Single? ==> ParseInt(Trim(part)) == Some(r.value.page)
    ensures r.Ok? && r.value.Range? ==> r.value.first <= r.value.last
    ensures r.Err? ==> r.error == (if '-' in Trim(part) then RangeError(Trim(part)) else PageError(Trim(part)))
  {
    ReadPiece(Trim(part))
  }

  /** Reads a trimmed piece: a range when it holds '-', else a single page. */
  function ReadPiece(t: string): Result<Token>
  {
    if '-' in t then ReadRange(t, Split(t, '-')) else ReadSingle(t)
  }

  /** Reads the range `t` from its hyphen pieces; pieces past the second are never looked at. */
  function ReadRange(t: string, pieces: seq<string>): Result<Token>
    requires |pieces| >= 2
  {
    var start := ParseInt(Trim(pieces[0]));
    var end := ParseInt(Trim(pieces[1]));
    if start.None? || end.None? || start.value > end.value then Err(RangeError(t))
    else Ok(Range(start.value, end.value))
  }

  function ReadSingle(t: string): Result<Token>
  {
    match ParseInt(t)
    case None => Err(PageError(t))
    case Some(p) => Ok(Single(p))
  }

  /** A piece that reads names at least one page. */
  lemma TokenNamesPages(part: string)
    requires ParseToken(part).Ok?
    ensures Pages(ParseToken(part).value) != {}
  {
    TokenNonEmpty(ParseToken(part).value);
  }

  lemma TokenNonEmpty(t: Token)
    requires t.Range? ==> t.first <= t.last
    ensures Pages(t) != {}
  {
    if t.Range? {
      assert Between(t.first, t.first, t.last);
      assert t.first in Pages(t);
    } else {
      assert t.page in Pages(t);
    }
  }

  /** The index of the first piece that does not read, or `|parts|` when every piece reads. */
  function FirstBadPiece(parts: seq<string>): (n: nat)
    ensures n <= |parts|
    ensures forall j :: 0 <= j < n ==> ParseToken(parts[j]).Ok?
    ensures n < |parts| ==> ParseToken(parts[n]).Err?
  {
    FirstFailing(ParseToken, parts)
  }

  /** Reads every piece in order; the first piece that fails decides the error. */
  function ParseTokens(parts: seq<string>): (r: Result<seq<Token>>)
    ensures r.Ok? <==> FirstBadPiece(parts) == |parts|
    ensures r.Ok? ==> |r.value| == |parts| && forall k :: 0 <= k < |parts| ==> ParseToken(parts[k]) == Ok(r.value[k])
    ensures r.Err? ==> ParseToken(parts[FirstBadPiece(parts)]) == Err(r.error)
  {
    MapAll(ParseToken, parts)
  }

  /** The pages a range pushes: every number from its start to its end, counting up. */
  function Interval(a: nat, b: nat): (r: seq<nat>)
    ensures |r| == if a <= b then b - a + 1 else 0
    ensures forall k :: 0 <= k < |r| ==> r[k] == a + k
    decreases if a <= b then b - a + 1 else 0
  {
    if a > b then [] else [a] + Interval(a + 1, b)
  }

  /** What one token pushes onto the page list. */
  function Expand(t: Token): (r: seq<nat>)
    ensures Elems(r) == Pages(t)
  {
    match t
    case Single(p) => [p]
    case Range(a, b) =>
      var r := Interval(a, b);
      assert forall i: nat :: Between(i, a, b) ==> r[i - a] == i;
      r
  }

  /** The page list the tokens push, before duplicates are removed. */
  function Pushed(ts: seq<Token>): (r: seq<nat>)
    ensures Elems(r) == Covered(ts)
  {
    if |ts| == 0 then [] else Expand(ts[0]) + Pushed(ts[1..])
  }

  /** `[...new Set(xs)]`: the first occurrence of every value, in order. */
  function Dedup(xs: seq<nat>): (r: seq<nat>)
    ensures NoDuplicates(r)
    ensures Elems(r) == Elems(xs)
  {
    if |xs| == 0 then []
    else
      var init := xs[..|xs| - 1];
      var x := xs[|xs| - 1];
      assert xs == init + [x];
      var d := Dedup(init);
      assert Elems(xs) == Elems(init) + {x};
      if x in d then d
      else
        assert Elems(d + [x]) == Elems(d) + {x};
        d + [x]
  }

  /** Places `x` in an ascending list. */
  function Insert(s: seq<nat>, x: nat): (r: seq<nat>)
    requires Ascending(s)
    ensures Ascending(r) && |r| == |s| + 1
    ensures forall k :: 0 <= k < |r| ==> r[k] == x || (|s| > 0 && s[0] <= r[k])
  {
    if |s| == 0 || x <= s[0] then
      var r := [x] + s;
      assert forall k :: 1 <= k < |r| ==> r[k] == s[k - 1];
      r
    else
      var rest := Insert(s[1..], x);
      var r := [s[0]] + rest;
      assert forall k :: 0 <= k < |rest| ==> s[0] <= rest[k];
      assert forall k :: 1 <= k < |r| ==> r[k] == rest[k - 1];
      r
  }

  /** Inserting adds exactly `x` to the values. */
  lemma {:induction false} InsertPermutes(s: seq<nat>, x: nat)
    requires Ascending(s)
    ensures multiset(Insert(s, x)) == multiset(s) + multiset{x}
    decreases |s|
  {
    if |s| > 0 && x > s[0] {
      InsertPermutes(s[1..], x);
      assert s == [s[0]] + s[1..];
      assert Insert(s, x) == [s[0]] + Insert(s[1..], x);
    }
  }

  /** `.sort((a, b) => a - b)`: ascending numeric order, same values. */
  function Sort(xs: seq<nat>): (r: seq<nat>)
    ensures Ascending(r)
    ensures multiset(r) == multiset(xs)
  {
    if |xs| == 0 then []
    else
      assert xs == [xs[0]] + xs[1..];
      InsertPermutes(Sort(xs[1..]), xs[0]);
      Insert(Sort(xs[1..]), xs[0])
  }

  /**
   * `parsePageRange(spec)`: reads every comma-separated piece; the result is
   * the distinct pages they name, ascending. Any unreadable piece makes the
   * whole spec fail with that piece's error.
   */
  function ParsePageRange(spec: string): (r: Result<seq<nat>>)
    ensures r.Ok? <==> ParseTokens(Split(spec, ',')).Ok?
    ensures r.Err? ==> r.error == ParseTokens(Split(spec, ',')).error
    ensures r.Ok? ==> StrictlyAscending(r.value)
    ensures r.Ok? ==> Elems(r.value) == Covered(ParseTokens(Split(spec, ',')).value)
    ensures r.Ok? ==> |r.value| >= 1
  {
    var tokens :- ParseTokens(Split(spec, ','));
    var distinct := Dedup(Pushed(tokens));
    var sorted := Sort(distinct);
    PermutationKeepsNoDuplicates(distinct, sorted);
    SameMultisetSameElems(distinct, sorted);
    TokenNamesPages(Split(spec, ',')[0]);
    assert Pages(tokens[0]) <= Covered(tokens);
    assert sorted != [];
    Ok(sorted)
  }

  lemma SameMultisetSameElems(a: seq<nat>, b: seq<nat>)
    requires multiset(a) == multiset(b)
    ensures Elems(a) == Elems(b)
  {
    assert forall x :: x in a <==> x in multiset(a);
    assert forall x :: x in b <==> x in multiset(b);
  }

  lemma {:induction false} NoDuplicatesCount(s: seq<nat>, x: nat)
    requires NoDuplicates(s)
    ensures multiset(s)[x] <= 1
  {
    if |s| > 0 {
      var init := s[..|s| - 1];
      assert s == init + [s[|s| - 1]];
      NoDuplicatesCount(init, x);
      if x == s[|s| - 1] {
        assert x !in init;
      }
    }
  }

  lemma RepeatCount(s: seq<nat>, i: nat, j: nat)
    requires i < j < |s| && s[i] == s[j]
    ensures multiset(s)[s[i]] >= 2
  {
    assert s == s[..i] + [s[i]] + s[i + 1..j] + [s[j]] + s[j + 1..];
  }

  /** Reordering a duplicate-free list cannot create a duplicate. */
  lemma PermutationKeepsNoDuplicates(a: seq<nat>, b: seq<nat>)
    requires NoDuplicates(a)
    requires multiset(a) == multiset(b)
    ensures NoDuplicates(b)
  {
    forall i, j | 0 <= i < j < |b|
      ensures b[i] != b[j]
    {
      if b[i] == b[j] {
        RepeatCount(b, i, j);
        NoDuplicatesCount(a, b[i]);
      }
    }
  }
}
