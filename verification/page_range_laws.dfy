/**
 * What `parsePageRange` promises, stated over all inputs: how single pages
 * and ranges read, which pieces are rejected, that only the first two
 * hyphen pieces count, and that re-reading a result gives it back.
 */
module PageRangeLaws {
  import opened Results
  import opened JsText
  import opened Decimal
  import opened PageRange
  import opened Seqs

  /** An ascending list without repeats is fixed by the pages it holds. */
  lemma {:induction false} StrictlyAscendingUnique(a: seq<nat>, b: seq<nat>)
    requires StrictlyAscending(a) && StrictlyAscending(b)
    requires Elems(a) == Elems(b)
    ensures a == b
    decreases |a|
  {
    assert |b| == 0 || b[0] in Elems(b);
    if |a| == 0 {
    } else {
      assert a[0] in Elems(b);
      assert b != [];
      assert b[0] in Elems(a);
      assert a[0] == b[0];
      assert Elems(a[1..]) == Elems(a) - {a[0]} by {
        assert a == [a[0]] + a[1..];
        assert forall i :: 0 <= i < |a[1..]| ==> a[1..][i] == a[i + 1] && a[0] < a[i + 1];
      }
      assert Elems(b[1..]) == Elems(b) - {b[0]} by {
        assert b == [b[0]] + b[1..];
        assert forall i :: 0 <= i < |b[1..]| ==> b[1..][i] == b[i + 1] && b[0] < b[i + 1];
      }
      StrictlyAscendingUnique(a[1..], b[1..]);
      assert a == [a[0]] + a[1..] && b == [b[0]] + b[1..];
    }
  }

  /**
   * A spec whose pieces read as `ts` yields the one ascending, repeat-free
   * list of the pages `ts` names.
   */
  lemma {:induction false} ParsePageRangeOfPieces(parts: seq<string>, ts: seq<Token>, ps: seq<nat>)
    requires |parts| >= 1 && |ts| == |parts|
    requires forall k :: 0 <= k < |parts| ==> ',' !in parts[k]
    requires forall k :: 0 <= k < |parts| ==> ParseToken(parts[k]) == Ok(ts[k])
    requires StrictlyAscending(ps) && Elems(ps) == Covered(ts)
    ensures ParsePageRange(Join(parts, ',')) == Ok(ps)
  {
    SplitJoin(parts, ',');
    var parsed := ParseTokens(parts);
    assert parsed.value == ts;
    StrictlyAscendingUnique(ParsePageRange(Join(parts, ',')).value, ps);
  }

  /**
   * A spec without a comma is a single piece: it reads as exactly the pages
   * that piece pushes, or fails with that piece's error.
   */
  lemma {:induction false} OnePieceSpec(t: string)
    requires ',' !in t
    ensures ParseToken(t).Err? ==> ParsePageRange(t) == Err(ParseToken(t).error)
    ensures ParseToken(t).Ok? ==> ParsePageRange(t) == Ok(Expand(ParseToken(t).value))
  {
    if ParseToken(t).Err? {
      OnePieceRejected(t);
    } else {
      OnePieceAccepted(t, ParseToken(t).value);
    }
  }

  lemma {:induction false} OnePieceRejected(t: string)
    requires ',' !in t && ParseToken(t).Err?
    ensures ParsePageRange(t) == Err(ParseToken(t).error)
  {
    SplitNoSep(t, ',');
    assert Join([t], ',') == t;
    FirstBadPieceDecides([t], 0);
  }

  lemma {:induction false} OnePieceAccepted(t: string, token: Token)
    requires ',' !in t && ParseToken(t) == Ok(token)
    ensures ParsePageRange(t) == Ok(Expand(token))
  {
    SplitNoSep(t, ',');
    assert Join([t], ',') == t;
    TokenNamesPages(t);
    ExpandAscending(token);
    ParsePageRangeOfPieces([t], [token], Expand(token));
  }

  /** What a token that reads pushes is sorted, repeat-free, and the pages it covers. */
  lemma ExpandAscending(token: Token)
    requires token.Range? ==> token.first <= token.last
    ensures StrictlyAscending(Expand(token)) && Elems(Expand(token)) == Covered([token])
  {
    assert Covered([token]) == Pages(token) + Covered([]);
  }

  /** The earliest unreadable piece decides the spec's error. */
  lemma {:induction false} FirstBadPieceDecides(parts: seq<string>, k: nat)
    requires |parts| >= 1 && k < |parts|
    requires forall j :: 0 <= j < |parts| ==> ',' !in parts[j]
    requires ParseToken(parts[k]).Err?
    requires forall j :: 0 <= j < k ==> ParseToken(parts[j]).Ok?
    ensures ParsePageRange(Join(parts, ',')) == Err(ParseToken(parts[k]).error)
  {
    SplitJoin(parts, ',');
    FirstFailingAt(ParseToken, parts, k);
    assert ParseTokens(parts) == Err(ParseToken(parts[k]).error);
  }

  lemma {:induction false} DigitsAreTrimmed(d: string)
    requires |d| >= 1 && AllDigits(d)
    ensures Trimmed(d) && '-' !in d && ',' !in d
  {
    assert IsDigit(d[0]) && IsDigit(d[|d| - 1]);
  }

  /** A page number, with any whitespace around it, reads as that single page. */
  lemma {:induction false} SinglePageRoundTrip(w1: string, n: nat, w2: string)
    requires AllWhitespace(w1) && AllWhitespace(w2)
    ensures ParseToken(w1 + NatToString(n) + w2) == Ok(Single(n))
  {
    var d := NatToString(n);
    DigitsAreTrimmed(d);
    TrimPadded(w1, d, w2);
    ParseIntNatToString(n);
  }

  /** A piece with one hyphen is read as a range from its two sides. */
  lemma {:induction false} ReadPieceTwoSides(left: string, right: string)
    requires '-' !in left && '-' !in right
    ensures ReadPiece(left + "-" + right) == ReadRange(left + "-" + right, [left, right])
  {
    var t := left + "-" + right;
    assert t[|left|] == '-';
    SplitAtFirst(left, right, '-');
    SplitNoSep(right, '-');
  }

  lemma {:induction false} NoHyphenInConcat(x: string, y: string)
    requires '-' !in x && '-' !in y
    ensures '-' !in x + y
  {
    assert forall i :: 0 <= i < |x + y| ==> (x + y)[i] == (if i < |x| then x[i] else y[i - |x|]);
  }

  lemma {:induction false} WhitespaceHasNoHyphen(w: string)
    requires AllWhitespace(w)
    ensures '-' !in w
  {
  }

  /**
   * `a-b`, with whitespace allowed around the whole piece and around the
   * hyphen, reads as the range from `a` to `b` when `a <= b` and is
   * rejected as an invalid range otherwise.
   */
  lemma {:induction false} RangeRoundTrip(w1: string, a: nat, w2: string, w3: string, b: nat, w4: string)
    requires AllWhitespace(w1) && AllWhitespace(w2) && AllWhitespace(w3) && AllWhitespace(w4)
    ensures var core := (NatToString(a) + w2) + "-" + (w3 + NatToString(b));
      ParseToken(w1 + core + w4) == if a <= b then Ok(Range(a, b)) else Err(RangeError(core))
  {
    RangeCoreTrim(w1, a, w2, w3, b, w4);
    RangeCoreReads(a, w2, w3, b);
  }

  lemma {:induction false} RangeCoreTrim(w1: string, a: nat, w2: string, w3: string, b: nat, w4: string)
    requires AllWhitespace(w1) && AllWhitespace(w2) && AllWhitespace(w3) && AllWhitespace(w4)
    ensures var core := (NatToString(a) + w2) + "-" + (w3 + NatToString(b));
      Trim(w1 + core + w4) == core
  {
    var da, db := NatToString(a), NatToString(b);
    RangeCoreTrimmed(da, w2, w3, db);
    TrimPadded(w1, (da + w2) + "-" + (w3 + db), w4);
  }

  lemma {:induction false} RangeCoreReads(a: nat, w2: string, w3: string, b: nat)
    requires AllWhitespace(w2) && AllWhitespace(w3)
    ensures var core := (NatToString(a) + w2) + "-" + (w3 + NatToString(b));
      ReadPiece(core) == if a <= b then Ok(Range(a, b)) else Err(RangeError(core))
  {
    RangeSides(a, w2, w3, b);
    RangeSidesRead(NatToString(a) + w2, w3 + NatToString(b), a, b);
  }

  lemma {:induction false} RangeSides(a: nat, w2: string, w3: string, b: nat)
    requires AllWhitespace(w2) && AllWhitespace(w3)
    ensures '-' !in NatToString(a) + w2 && ParseInt(Trim(NatToString(a) + w2)) == Some(a)
    ensures '-' !in w3 + NatToString(b) && ParseInt(Trim(w3 + NatToString(b))) == Some(b)
  {
    NumeralThenSpace(a, w2);
    SpaceThenNumeral(w3, b);
  }

  lemma {:induction false} NumeralThenSpace(n: nat, w: string)
    requires AllWhitespace(w)
    ensures '-' !in NatToString(n) + w && ParseInt(Trim(NatToString(n) + w)) == Some(n)
  {
    var d := NatToString(n);
    DigitsAreTrimmed(d);
    WhitespaceHasNoHyphen(w);
    NoHyphenInConcat(d, w);
    TrimPadded([], d, w);
    assert [] + d + w == d + w;
    ParseIntNatToString(n);
  }

  lemma {:induction false} SpaceThenNumeral(w: string, n: nat)
    requires AllWhitespace(w)
    ensures '-' !in w + NatToString(n) && ParseInt(Trim(w + NatToString(n))) == Some(n)
  {
    var d := NatToString(n);
    DigitsAreTrimmed(d);
    WhitespaceHasNoHyphen(w);
    NoHyphenInConcat(w, d);
    TrimPadded(w, d, []);
    assert w + d + [] == w + d;
    ParseIntNatToString(n);
  }

  lemma {:induction false} RangeCoreTrimmed(da: string, w2: string, w3: string, db: string)
    requires |da| >= 1 && AllDigits(da) && |db| >= 1 && AllDigits(db)
    ensures Trimmed((da + w2) + "-" + (w3 + db))
  {
    var core := (da + w2) + "-" + (w3 + db);
    assert core[0] == da[0] && core[|core| - 1] == db[|db| - 1];
  }

  /** A one-hyphen piece whose sides read as `a` and `b`. */
  lemma {:induction false} RangeSidesRead(left: string, right: string, a: nat, b: nat)
    requires '-' !in left && '-' !in right
    requires ParseInt(Trim(left)) == Some(a) && ParseInt(Trim(right)) == Some(b)
    ensures ReadPiece(left + "-" + right) == if a <= b then Ok(Range(a, b)) else Err(RangeError(left + "-" + right))
  {
    OneHyphenPiece(left, right);
  }

  /**
   * A piece with one hyphen is accepted exactly when both trimmed sides
   * read as numbers and the start is not past the end; it is then the
   * range between them, and otherwise an invalid range.
   */
  lemma {:induction false} OneHyphenPiece(left: string, right: string)
    requires '-' !in left && '-' !in right
    ensures var r := ReadPiece(left + "-" + right);
      var start, end := ParseInt(Trim(left)), ParseInt(Trim(right));
      && (r.Ok? <==> start.Some? && end.Some? && start.value <= end.value)
      && (r.Ok? ==> r.value == Range(start.value, end.value))
      && (r.Err? ==> r.error == RangeError(left + "-" + right))
  {
    ReadPieceTwoSides(left, right);
  }

  /**
   * `parseInt` stops at the first character that is not a digit, so a page
   * number followed by other text holding no hyphen still reads as that
   * page: `2abc` and `2abc ` are page 2.
   */
  lemma {:induction false} TrailingTextIgnored(n: nat, rest: string)
    requires (rest == [] || !IsDigit(rest[0])) && '-' !in rest
    ensures ParseToken(NatToString(n) + rest) == Ok(Single(n))
  {
    var d := NatToString(n);
    var e := TrimEnd(rest);
    DigitsAreTrimmed(d);
    NumeralThenTextTrimmed(d, rest);
    HyphenFreeTrims(rest);
    NoHyphenInConcat(d, e);
    assert e == [] || e[0] == rest[0];
    NumeralThenTextReads(d, e);
  }

  /** Trimming a numeral followed by text only trims the text's end. */
  lemma NumeralThenTextTrimmed(d: string, rest: string)
    requires Trimmed(d) && |d| >= 1
    ensures Trim(d + rest) == d + TrimEnd(rest)
  {
    TrimEndPrefix(d, rest);
    TrimStartPadded([], d + TrimEnd(rest));
    assert [] + (d + TrimEnd(rest)) == d + TrimEnd(rest);
  }

  /** What trimming keeps of hyphen-free text is hyphen-free. */
  lemma HyphenFreeTrims(x: string)
    requires '-' !in x
    ensures '-' !in TrimStart(x) && '-' !in TrimEnd(x)
  {
    var s, e := TrimStart(x), TrimEnd(x);
    assert forall i :: 0 <= i < |s| ==> s[i] == x[|x| - |s| + i];
    assert forall i :: 0 <= i < |e| ==> e[i] == x[i];
  }

  lemma NumeralThenTextReads(d: string, rest: string)
    requires |d| >= 1 && AllDigits(d) && (rest == [] || !IsDigit(rest[0]))
    ensures ParseInt(d + rest) == Some(DigitsValue(d))
  {
    var t := d + rest;
    assert t[0] == d[0] && IsDigit(t[0]) && !IsWhitespace(t[0]);
    assert TrimStart(t) == t;
    ParseDigitsNumeral(d, rest);
  }

  /**
   * A piece whose trimmed text is empty, or starts with anything but a digit
   * or '+', is rejected: this covers an empty spec, a trailing comma, a
   * letter, and a range with no start such as `-3` or `a-3`.
   */
  lemma {:induction false} NonNumericPieceRejected(part: string)
    requires var t := Trim(part); t == [] || (!IsDigit(t[0]) && t[0] != '+')
    ensures ParseToken(part).Err?
  {
    var t := Trim(part);
    if '-' in t {
      RangeWithoutStartRejected(t);
    } else {
      assert t == [] || t[0] in t;
      NoDigitNaN(t);
    }
  }

  lemma {:induction false} RangeWithoutStartRejected(t: string)
    requires '-' in t && Trimmed(t)
    requires !IsDigit(t[0]) && t[0] != '+'
    ensures ReadPiece(t).Err?
  {
    var first := Split(t, '-')[0];
    if first == [] {
      NoDigitNaN([]);
      assert Trim(first) == [];
    } else {
      assert first[0] == t[0] && first[0] in first;
      StartsNonNumeric(first, t[0]);
    }
  }

  /** Text that starts with neither whitespace, a sign nor a digit is `NaN` to `parseInt`. */
  lemma NoDigitNaN(t: string)
    requires t == [] || (!IsWhitespace(t[0]) && !IsDigit(t[0]) && t[0] != '+' && t[0] != '-')
    ensures ParseInt(t) == None
  {
    ParseIntNaN([], [], t);
    assert [] + [] + t == t;
  }

  /** Trimming text that starts with a non-numeric character leaves text `parseInt` rejects. */
  lemma {:induction false} StartsNonNumeric(s: string, c: char)
    requires |s| >= 1 && s[0] == c
    requires !IsWhitespace(c) && !IsDigit(c) && c != '+' && c != '-'
    ensures ParseInt(Trim(s)) == None
  {
    var e := TrimEnd(s);
    assert |e| >= 1 && e[0] == c;
    assert TrimStart(e) == e;
    NoDigitNaN(e);
  }

  /** A piece that ends in a hyphen and holds no other is rejected: `3-` has no end. */
  lemma {:induction false} TrailingHyphenRejected(x: string)
    requires '-' !in x
    ensures ParseToken(x + "-").Err?
  {
    var s := TrimStart(x);
    TrimHyphenEnd(x);
    assert '-' !in s by {
      assert forall i :: 0 <= i < |s| ==> s[i] == x[|x| - |s| + i];
    }
    HyphenEndRejected(s);
  }

  lemma {:induction false} TrimHyphenEnd(x: string)
    ensures Trim(x + "-") == TrimStart(x) + "-"
  {
    assert TrimEnd(x + "-") == x + "-";
    TrimStartSuffix(x, "-");
  }

  lemma {:induction false} HyphenEndRejected(s: string)
    requires '-' !in s
    ensures ReadPiece(s + "-").Err?
  {
    OneHyphenPiece(s, []);
    assert s + "-" + [] == s + "-";
    assert Trim([]) == [];
    NoDigitNaN([]);
  }

  /** Reading a range looks at its first two pieces only. */
  lemma {:induction false} ReadRangeFirstTwo(t1: string, p1: seq<string>, t2: string, p2: seq<string>)
    requires |p1| >= 2 && |p2| >= 2 && p1[0] == p2[0] && p1[1] == p2[1]
    ensures ReadRange(t1, p1).Ok? <==> ReadRange(t2, p2).Ok?
    ensures ReadRange(t1, p1).Ok? ==> ReadRange(t1, p1).value == ReadRange(t2, p2).value
  {
  }

  /**
   * Only the first two hyphen pieces of a range are read: anything after a
   * second hyphen is ignored, so `a-b-rest` reads exactly like `a-b`.
   */
  lemma {:induction false} ExtraRangePiecesIgnored(a: string, b: string, rest: string)
    requires '-' !in a && '-' !in b
    ensures ParseToken(a + "-" + b + "-" + rest).Ok? <==> ParseToken(a + "-" + b).Ok?
    ensures ParseToken(a + "-" + b + "-" + rest).Ok? ==>
              ParseToken(a + "-" + b + "-" + rest).value == ParseToken(a + "-" + b).value
  {
    var a', b', rest' := TrimStart(a), TrimEnd(b), TrimEnd(rest);
    HyphenatedTrimmed(a, b, rest);
    HyphenFreeTrims(a);
    HyphenFreeTrims(b);
    ExtraRangePiecesRead(a', b, rest');
    OneHyphenPiece(a', b);
    OneHyphenPiece(a', b');
    TrimEndIdempotent(b);
  }

  lemma {:induction false} ExtraRangePiecesRead(a: string, b: string, rest: string)
    requires '-' !in a && '-' !in b
    ensures ReadPiece(a + "-" + b + "-" + rest).Ok? <==> ReadPiece(a + "-" + b).Ok?
    ensures ReadPiece(a + "-" + b + "-" + rest).Ok? ==>
              ReadPiece(a + "-" + b + "-" + rest).value == ReadPiece(a + "-" + b).value
  {
    var long, short := a + "-" + b + "-" + rest, a + "-" + b;
    LongRangeReads(a, b, rest);
    ReadPieceTwoSides(a, b);
    ReadRangeFirstTwo(long, Split(long, '-'), short, [a, b]);
  }

  /** Trimming a hyphenated piece trims only the front of its first side and the end of its last. */
  lemma HyphenatedTrimmed(a: string, b: string, rest: string)
    ensures Trim(a + "-" + b + "-" + rest) == TrimStart(a) + "-" + b + "-" + TrimEnd(rest)
    ensures Trim(a + "-" + b) == TrimStart(a) + "-" + TrimEnd(b)
  {
    LongPieceTrimmed(a, b, rest);
    ShortPieceTrimmed(a, b);
  }

  lemma LongPieceTrimmed(a: string, b: string, rest: string)
    ensures Trim(a + "-" + b + "-" + rest) == TrimStart(a) + "-" + b + "-" + TrimEnd(rest)
  {
    var mid := "-" + b + "-";
    assert a + "-" + b + "-" + rest == (a + mid) + rest;
    assert TrimStart(a) + "-" + b + "-" + TrimEnd(rest) == TrimStart(a) + (mid + TrimEnd(rest));
    SidesTrimmed(a, mid, rest);
  }

  lemma ShortPieceTrimmed(a: string, b: string)
    ensures Trim(a + "-" + b) == TrimStart(a) + "-" + TrimEnd(b)
  {
    assert TrimStart(a) + "-" + TrimEnd(b) == TrimStart(a) + ("-" + TrimEnd(b));
    SidesTrimmed(a, "-", b);
  }

  /** Text that starts and ends with a hyphen shields everything but the outer ends from trimming. */
  lemma SidesTrimmed(a: string, mid: string, z: string)
    requires |mid| >= 1 && mid[0] == '-' && mid[|mid| - 1] == '-'
    ensures Trim((a + mid) + z) == TrimStart(a) + (mid + TrimEnd(z))
  {
    var x := a + mid;
    assert x[|x| - 1] == '-';
    TrimEndPrefix(x, z);
    assert x + TrimEnd(z) == a + (mid + TrimEnd(z));
    TrimStartSuffix(a, mid + TrimEnd(z));
  }

  lemma {:induction false} LongRangeReads(a: string, b: string, rest: string)
    requires '-' !in a && '-' !in b
    ensures var long := a + "-" + b + "-" + rest;
      |Split(long, '-')| >= 2 && Split(long, '-')[0] == a && Split(long, '-')[1] == b &&
      ReadPiece(long) == ReadRange(long, Split(long, '-'))
  {
    var long := a + "-" + b + "-" + rest;
    assert long[|a|] == '-';
    assert long == a + ['-'] + (b + ['-'] + rest);
    SplitAtFirst(a, b + ['-'] + rest, '-');
    SplitAtFirst(b, rest, '-');
  }

  /** The pages of a list of single-page tokens are the list's own values. */
  lemma {:induction false} CoveredSingles(ps: seq<nat>)
    ensures Covered(seq(|ps|, k requires 0 <= k < |ps| => Single(ps[k]))) == Elems(ps)
  {
    var ts := seq(|ps|, k requires 0 <= k < |ps| => Single(ps[k]));
    if |ps| > 0 {
      assert ts[1..] == seq(|ps[1..]|, k requires 0 <= k < |ps[1..]| => Single(ps[1..][k]));
      CoveredSingles(ps[1..]);
      assert ps == [ps[0]] + ps[1..];
      assert Elems(ps) == {ps[0]} + Elems(ps[1..]);
    }
  }

  /** The page numbers of `ps` as JavaScript prints them. */
  function Numerals(ps: seq<nat>): (r: seq<string>)
    ensures |r| == |ps| && forall k :: 0 <= k < |ps| ==> r[k] == NatToString(ps[k])
  {
    seq(|ps|, k requires 0 <= k < |ps| => NatToString(ps[k]))
  }

  /** A list of pages written back as a spec: `pages.join(',')`. */
  function PagesSpec(ps: seq<nat>): string
    requires |ps| >= 1
  {
    Join(Numerals(ps), ',')
  }

  /** Reading a list of pages written back as a spec gives its sorted, repeat-free form. */
  lemma {:induction false} ReadBack(ps: seq<nat>, sorted: seq<nat>)
    requires |ps| >= 1
    requires StrictlyAscending(sorted) && Elems(sorted) == Elems(ps)
    ensures ParsePageRange(PagesSpec(ps)) == Ok(sorted)
  {
    var parts := Numerals(ps);
    var ts := seq(|ps|, k requires 0 <= k < |ps| => Single(ps[k]));
    forall k | 0 <= k < |parts|
      ensures ',' !in parts[k] && ParseToken(parts[k]) == Ok(ts[k])
    {
      DigitsAreTrimmed(parts[k]);
      SinglePageRoundTrip([], ps[k], []);
      assert [] + parts[k] + [] == parts[k];
    }
    CoveredSingles(ps);
    ParsePageRangeOfPieces(parts, ts, sorted);
  }

  /** Parsing is idempotent: a result, joined with commas, parses back to itself. */
  lemma {:induction false} ParsePageRangeIdempotent(spec: string)
    requires ParsePageRange(spec).Ok?
    ensures ParsePageRange(PagesSpec(ParsePageRange(spec).value)) == ParsePageRange(spec)
  {
    var ps := ParsePageRange(spec).value;
    ReadBack(ps, ps);
  }
}
