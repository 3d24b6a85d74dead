/**
 * The JavaScript string primitives the page-range parser leans on:
 * `String.prototype.trim` and `String.prototype.split` with a one-character
 * separator, plus the inverse of `split`, `Array.prototype.join`.
 */
module JsText {

  /** The WhiteSpace and LineTerminator code points of ECMAScript, which `trim` removes. */
  predicate IsWhitespace(c: char) {
    || ('\t' <= c <= '\r')
    || c == ' '
    || c == '\U{A0}'
    || c == '\U{1680}'
    || ('\U{2000}' <= c <= '\U{200A}')
    || c == '\U{2028}'
    || c == '\U{2029}'
    || c == '\U{202F}'
    || c == '\U{205F}'
    || c == '\U{3000}'
    || c == '\U{FEFF}'
  }

  predicate AllWhitespace(s: string) {
    forall i :: 0 <= i < |s| ==> IsWhitespace(s[i])
  }

  /** Text with no whitespace at either end: what `trim` returns. */
  predicate Trimmed(s: string) {
    s == [] || (!IsWhitespace(s[0]) && !IsWhitespace(s[|s| - 1]))
  }

  /** The length of the longest whitespace prefix. */
  function LeadingWhitespace(s: string): (n: nat)
    ensures n <= |s| && forall i :: 0 <= i < n ==> IsWhitespace(s[i])
    ensures n < |s| ==> !IsWhitespace(s[n])
  {
    if |s| > 0 && IsWhitespace(s[0]) then 1 + LeadingWhitespace(s[1..]) else 0
  }

  /** Drops the longest whitespace prefix. */
  function TrimStart(s: string): (r: string)
    ensures |r| <= |s| && r == s[|s| - |r|..]
    ensures AllWhitespace(s[..|s| - |r|])
    ensures r == [] || !IsWhitespace(r[0])
  {
    s[LeadingWhitespace(s)..]
  }

  /** The length of the longest whitespace suffix. */
  function TrailingWhitespace(s: string): (n: nat)
    ensures n <= |s| && forall i :: |s| - n <= i < |s| ==> IsWhitespace(s[i])
    ensures n < |s| ==> !IsWhitespace(s[|s| - n - 1])
  {
    if |s| > 0 && IsWhitespace(s[|s| - 1]) then 1 + TrailingWhitespace(s[..|s| - 1]) else 0
  }

  /** Drops the longest whitespace suffix. */
  function TrimEnd(s: string): (r: string)
    ensures |r| <= |s| && r == s[..|r|]
    ensures AllWhitespace(s[|r|..])
    ensures r == [] || !IsWhitespace(r[|r| - 1])
  {
    s[..|s| - TrailingWhitespace(s)]
  }

  /** `s.trim()`: what is left after removing whitespace from both ends. */
  function Trim(s: string): (r: string)
    ensures Trimmed(r) && |r| <= |s|
  {
    TrimStart(TrimEnd(s))
  }

  /** What `trim` keeps is an infix of its input, and all it drops is whitespace. */
  lemma TrimIsInfix(s: string)
    ensures var r := Trim(s);
      exists i :: 0 <= i <= |s| - |r| && r == s[i..i + |r|] && AllWhitespace(s[..i]) && AllWhitespace(s[i + |r|..])
  {
    var e := TrimEnd(s);
    var r := TrimStart(e);
    var i := |e| - |r|;
    InfixOfPrefix(s, e, i);
    assert r == s[i..i + |r|] && AllWhitespace(s[..i]) && AllWhitespace(s[i + |r|..]);
  }

  /** Dropping a whitespace prefix of length `i` from a prefix `e` of `s` leaves the infix `s[i..|e|]`. */
  lemma InfixOfPrefix(s: string, e: string, i: nat)
    requires |e| <= |s| && e == s[..|e|] && AllWhitespace(s[|e|..])
    requires i <= |e| && AllWhitespace(e[..i])
    ensures e[i..] == s[i..|e|] && AllWhitespace(s[..i]) && AllWhitespace(s[|e|..])
  {
    assert s[..i] == e[..i];
  }

  /** Whitespace on either side of trimmed text is exactly what `trim` removes. */
  lemma {:induction false} TrimPadded(w1: string, core: string, w2: string)
    requires AllWhitespace(w1) && AllWhitespace(w2) && Trimmed(core)
    ensures Trim(w1 + core + w2) == core
  {
    if core == [] {
      assert w1 + core + w2 == w1 + w2;
      assert AllWhitespace(w1 + w2);
      assert Trim(w1 + w2) == [];
    } else {
      TrimEndPadded(w1 + core, w2);
      TrimStartPadded(w1, core);
    }
  }

  lemma TrimEndPadded(s: string, w: string)
    requires AllWhitespace(w)
    requires s == [] || !IsWhitespace(s[|s| - 1])
    ensures TrimEnd(s + w) == s
  {
    TrailingPadding(s, w);
    assert (s + w)[..|s|] == s;
  }

  lemma {:induction false} TrailingPadding(s: string, w: string)
    requires AllWhitespace(w)
    requires s == [] || !IsWhitespace(s[|s| - 1])
    ensures TrailingWhitespace(s + w) == |w|
    decreases |w|
  {
    if |w| == 0 {
      assert s + w == s;
    } else {
      assert (s + w)[..|s + w| - 1] == s + w[..|w| - 1];
      TrailingPadding(s, w[..|w| - 1]);
    }
  }

  lemma TrimStartPadded(w: string, s: string)
    requires AllWhitespace(w)
    requires s == [] || !IsWhitespace(s[0])
    ensures TrimStart(w + s) == s
  {
    LeadingPadding(w, s);
    assert (w + s)[|w|..] == s;
  }

  lemma {:induction false} LeadingPadding(w: string, s: string)
    requires AllWhitespace(w)
    requires s == [] || !IsWhitespace(s[0])
    ensures LeadingWhitespace(w + s) == |w|
    decreases |w|
  {
    if |w| == 0 {
      assert w + s == s;
    } else {
      assert (w + s)[1..] == w[1..] + s;
      LeadingPadding(w[1..], s);
    }
  }

  /** Trimming the front of `x + y` reaches past `x` only when `x` is all whitespace. */
  lemma TrimStartSuffix(x: string, y: string)
    requires y != [] && !IsWhitespace(y[0])
    ensures TrimStart(x + y) == TrimStart(x) + y
  {
    var n := LeadingWhitespace(x);
    assert x + y == x[..n] + (x[n..] + y);
    assert x[n..] + y != [] && (x[n..] + y)[0] == (if n < |x| then x[n] else y[0]);
    TrimStartPadded(x[..n], x[n..] + y);
  }

  /** Trimming the end of `x + y` reaches back past `y` only when `y` is all whitespace. */
  lemma TrimEndPrefix(x: string, y: string)
    requires x != [] && !IsWhitespace(x[|x| - 1])
    ensures TrimEnd(x + y) == x + TrimEnd(y)
  {
    var m := |y| - TrailingWhitespace(y);
    assert x + y == (x + y[..m]) + y[m..];
    assert (x + y[..m])[|x + y[..m]| - 1] == (if m > 0 then y[m - 1] else x[|x| - 1]);
    TrimEndPadded(x + y[..m], y[m..]);
  }

  /** `trimEnd` is idempotent. */
  lemma TrimEndIdempotent(s: string)
    ensures TrimEnd(TrimEnd(s)) == TrimEnd(s)
  {
    TrimEndPadded(TrimEnd(s), []);
    assert TrimEnd(s) + [] == TrimEnd(s);
  }

  /** Trimmed text is its own trim. */
  lemma TrimOfTrimmed(s: string)
    requires Trimmed(s)
    ensures Trim(s) == s
  {
    if s != [] {
      assert TrimEnd(s) == s;
      assert TrimStart(s) == s;
    }
  }

  /** `trim` is idempotent. */
  lemma TrimIdempotent(s: string)
    ensures Trim(Trim(s)) == Trim(s)
  {
    TrimOfTrimmed(Trim(s));
  }

  /** `s.split(sep)` for a one-character separator: the maximal `sep`-free pieces, in order. */
  function Split(s: string, sep: char): (parts: seq<string>)
    ensures |parts| >= 1
    ensures forall k :: 0 <= k < |parts| ==> sep !in parts[k]
    ensures Join(parts, sep) == s
    ensures |parts| == 1 <==> sep !in s
    ensures |parts[0]| <= |s| && parts[0] == s[..|parts[0]|]
    decreases |s|
  {
    if |s| == 0 then [""]
    else
      var rest := Split(s[1..], sep);
      assert s == [s[0]] + s[1..];
      if s[0] == sep then
        SepThenPieces(s[1..], rest, sep);
        [""] + rest
      else
        CharThenPieces(s[0], s[1..], rest, sep);
        [[s[0]] + rest[0]] + rest[1..]
  }

  /** What `Split` promises of `rest` for the text `t`. */
  predicate PiecesOf(t: string, rest: seq<string>, sep: char) {
    && |rest| >= 1
    && (forall k :: 0 <= k < |rest| ==> sep !in rest[k])
    && Join(rest, sep) == t
    && (|rest| == 1 <==> sep !in t)
    && |rest[0]| <= |t| && rest[0] == t[..|rest[0]|]
  }

  /** A leading separator closes an empty first piece. */
  lemma SepThenPieces(t: string, rest: seq<string>, sep: char)
    requires PiecesOf(t, rest, sep)
    ensures PiecesOf([sep] + t, [""] + rest, sep)
  {
    var parts := [""] + rest;
    assert parts[1..] == rest;
    assert ([sep] + t)[0] == sep;
  }

  /** A leading non-separator character joins the first piece. */
  lemma CharThenPieces(c: char, t: string, rest: seq<string>, sep: char)
    requires c != sep && PiecesOf(t, rest, sep)
    ensures PiecesOf([c] + t, [[c] + rest[0]] + rest[1..], sep)
  {
    var parts := [[c] + rest[0]] + rest[1..];
    JoinCons(c, rest, sep);
    assert forall k :: 1 <= k < |parts| ==> parts[k] == rest[k];
    assert sep in [c] + t <==> sep in t;
    assert ([c] + t)[..|parts[0]|] == [c] + t[..|rest[0]|];
  }

  /** `parts.join(sep)`. */
  function Join(parts: seq<string>, sep: char): string
    requires |parts| >= 1
  {
    if |parts| == 1 then parts[0] else parts[0] + [sep] + Join(parts[1..], sep)
  }

  lemma JoinCons(c: char, parts: seq<string>, sep: char)
    requires |parts| >= 1
    ensures Join([[c] + parts[0]] + parts[1..], sep) == [c] + Join(parts, sep)
  {
    var q := [[c] + parts[0]] + parts[1..];
    assert q[1..] == parts[1..];
  }

  /** Splitting undoes joining whenever no piece holds the separator. */
  lemma {:induction false} SplitJoin(parts: seq<string>, sep: char)
    requires |parts| >= 1
    requires forall k :: 0 <= k < |parts| ==> sep !in parts[k]
    ensures Split(Join(parts, sep), sep) == parts
    decreases |parts|, |parts[0]|
  {
    var s := Join(parts, sep);
    if |parts| == 1 {
      assert sep !in s;
      SplitNoSep(s, sep);
    } else if |parts[0]| == 0 {
      var tail := Join(parts[1..], sep);
      assert s == [sep] + tail;
      SplitSepFirst(tail, sep);
      SplitJoin(parts[1..], sep);
      assert parts == [""] + parts[1..];
    } else {
      var c := parts[0][0];
      var shorter := [parts[0][1..]] + parts[1..];
      DropFirstChar(parts, sep);
      SplitJoin(shorter, sep);
      SplitCharFirst(c, Join(shorter, sep), sep);
    }
  }

  /** Taking the first character off the first piece keeps the pieces separator-free. */
  lemma DropFirstChar(parts: seq<string>, sep: char)
    requires |parts| >= 1 && |parts[0]| > 0
    requires forall k :: 0 <= k < |parts| ==> sep !in parts[k]
    ensures var shorter := [parts[0][1..]] + parts[1..];
      && parts[0][0] != sep
      && (forall k :: 0 <= k < |shorter| ==> sep !in shorter[k])
      && [[parts[0][0]] + shorter[0]] + shorter[1..] == parts
      && Join(parts, sep) == [parts[0][0]] + Join(shorter, sep)
  {
    var c := parts[0][0];
    var shorter := [parts[0][1..]] + parts[1..];
    assert shorter[1..] == parts[1..];
    assert forall k :: 1 <= k < |shorter| ==> shorter[k] == parts[k];
    assert sep !in shorter[0] by {
      assert forall i :: 0 <= i < |shorter[0]| ==> shorter[0][i] == parts[0][i + 1];
    }
    assert [[c] + shorter[0]] + shorter[1..] == parts by {
      assert [c] + parts[0][1..] == parts[0];
    }
    JoinCons(c, shorter, sep);
  }

  /** A leading separator closes an empty first piece. */
  lemma SplitSepFirst(t: string, sep: char)
    ensures Split([sep] + t, sep) == [""] + Split(t, sep)
  {
    assert ([sep] + t)[1..] == t;
  }

  /** A leading non-separator character joins the first piece. */
  lemma SplitCharFirst(c: char, t: string, sep: char)
    requires c != sep
    ensures var r := Split(t, sep); Split([c] + t, sep) == [[c] + r[0]] + r[1..]
  {
    assert ([c] + t)[1..] == t;
  }

  /** A string without the separator splits into itself. */
  lemma {:induction false} SplitNoSep(s: string, sep: char)
    requires sep !in s
    ensures Split(s, sep) == [s]
  {
    var parts := Split(s, sep);
    assert |parts| == 1;
  }

  /** Text before the first separator is the first piece; the rest splits on its own. */
  lemma SplitAtFirst(a: string, b: string, sep: char)
    requires sep !in a
    ensures Split(a + [sep] + b, sep) == [a] + Split(b, sep)
  {
    var bs := Split(b, sep);
    var parts := [a] + bs;
    assert parts[1..] == bs;
    assert forall k :: 0 <= k < |parts| ==> sep !in parts[k] by {
      forall k | 0 <= k < |parts| ensures sep !in parts[k] {
        if k > 0 { assert parts[k] == bs[k - 1]; }
      }
    }
    SplitJoin(parts, sep);
  }
}
