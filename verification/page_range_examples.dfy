/** The documented page-range examples, each derived from the general laws. */
module PageRangeExamples {
  import opened Results
  import opened JsText
  import opened Decimal
  import opened PageRange
  import opened PageRangeLaws

  /** `a-b` written plainly reads as the range `a..b`, or is rejected when it runs backwards. */
  lemma {:induction false} PlainRange(t: string, a: nat, b: nat)
    requires t == NatToString(a) + "-" + NatToString(b)
    ensures ParseToken(t) == if a <= b then Ok(Range(a, b)) else Err(RangeError(t))
  {
    var da, db := NatToString(a), NatToString(b);
    DigitsAreTrimmed(da);
    DigitsAreTrimmed(db);
    TrimOfTrimmed(da);
    TrimOfTrimmed(db);
    ParseIntNatToString(a);
    ParseIntNatToString(b);
    assert Trimmed(t) by {
      assert t[0] == da[0] && t[|t| - 1] == db[|db| - 1];
    }
    TrimOfTrimmed(t);
    RangeSidesRead(da, db, a, b);
  }

  lemma {:induction false} PlainPage(t: string, n: nat)
    requires t == NatToString(n)
    ensures ParseToken(t) == Ok(Single(n))
  {
    var d := NatToString(n);
    DigitsAreTrimmed(d);
    TrimOfTrimmed(d);
    ParseIntNatToString(n);
  }

  /** A single page reads as itself. */
  lemma {:induction false} SinglePageExample()
    ensures ParsePageRange("3") == Ok([3])
  {
    ReadBackOf("3", [3]);
  }

  /** A list of pages reads in ascending order. */
  lemma {:induction false} PageListExample()
    ensures ParsePageRange("1,3,5") == Ok([1, 3, 5])
  {
    PageList("1,3,5", [1, 3, 5]);
  }

  lemma {:induction false} PageList(spec: string, ps: seq<nat>)
    requires spec == "1,3,5" && ps == [1, 3, 5]
    ensures ParsePageRange(spec) == Ok(ps)
  {
    var ns := Numerals(ps);
    assert ns == ["1", "3", "5"] by {
      assert NatToString(1) == "1" && NatToString(3) == "3" && NatToString(5) == "5";
    }
    assert Join(ns, ',') == spec by {
      assert ns[1..] == ["3", "5"] && ns[1..][1..] == ["5"];
      assert Join(ns[1..], ',') == "3" + [','] + "5";
      assert "1" + [','] + ("3" + [','] + "5") == spec;
    }
    ReadBackOf(spec, ps);
  }

  /** A spec that is an ascending page list, written out, reads as that list. */
  lemma {:induction false} ReadBackOf(spec: string, ps: seq<nat>)
    requires |ps| >= 1 && StrictlyAscending(ps) && spec == PagesSpec(ps)
    ensures ParsePageRange(spec) == Ok(ps)
  {
    ReadBack(ps, ps);
  }

  lemma {:induction false} OneToThree()
    ensures ParseToken("1-3") == Ok(Range(1, 3))
  {
    PlainRange("1-3", 1, 3);
  }

  lemma {:induction false} PagesOneToThree()
    ensures Pages(Range(1, 3)) == {1, 2, 3}
  {
    assert forall i: nat :: Between(i, 1, 3) <==> i in {1, 2, 3};
  }

  /** A range reads as every page in it. */
  lemma {:induction false} RangeExample()
    ensures ParsePageRange("1-3") == Ok([1, 2, 3])
  {
    RangePieces(["1-3"], [Range(1, 3)]);
    RangePages();
    SpecOfPieces("1-3", ["1-3"], [Range(1, 3)], [1, 2, 3]);
  }

  lemma {:induction false} RangePieces(parts: seq<string>, ts: seq<Token>)
    requires parts == ["1-3"] && ts == [Range(1, 3)]
    ensures parts == Split("1-3", ',') && |ts| == |parts|
    ensures forall k :: 0 <= k < |parts| ==> ParseToken(parts[k]) == Ok(ts[k])
  {
    SplitNoSep("1-3", ',');
    OneToThree();
  }

  lemma {:induction false} RangePages()
    ensures StrictlyAscending([1, 2, 3]) && Elems([1, 2, 3]) == Covered([Range(1, 3)])
  {
    PagesOneToThree();
  }

  /** Overlapping pieces are merged: repeats removed, pages sorted. */
  lemma {:induction false} OverlapExample()
    ensures ParsePageRange("1-3,2,5") == Ok([1, 2, 3, 5])
  {
    var parts, ts := ["1-3", "2", "5"], [Range(1, 3), Single(2), Single(5)];
    OverlapPieces(parts, ts);
    OverlapPages();
    SpecOfPieces("1-3,2,5", parts, ts, [1, 2, 3, 5]);
  }

  lemma {:induction false} OverlapPieces(parts: seq<string>, ts: seq<Token>)
    requires parts == ["1-3", "2", "5"] && ts == [Range(1, 3), Single(2), Single(5)]
    ensures parts == Split("1-3,2,5", ',') && |ts| == |parts|
    ensures forall k :: 0 <= k < |parts| ==> ParseToken(parts[k]) == Ok(ts[k])
  {
    OverlapSplit();
    OverlapTokens(parts, ts);
  }

  lemma {:induction false} OverlapTokens(parts: seq<string>, ts: seq<Token>)
    requires parts == ["1-3", "2", "5"] && ts == [Range(1, 3), Single(2), Single(5)]
    ensures forall k :: 0 <= k < |parts| ==> ParseToken(parts[k]) == Ok(ts[k])
  {
    forall k | 0 <= k < |parts|
      ensures ParseToken(parts[k]) == Ok(ts[k])
    {
      if k == 0 {
        OneToThree();
      } else if k == 1 {
        PlainPage(parts[k], 2);
      } else {
        PlainPage(parts[k], 5);
      }
    }
  }

  lemma {:induction false} OverlapSplit()
    ensures Split("1-3,2,5", ',') == ["1-3", "2", "5"]
  {
    ThreeWaySplit("1-3,2,5", "1-3", "2", "5");
  }

  lemma {:induction false} ThreeWaySplit(s: string, a: string, b: string, c: string)
    requires a == "1-3" && b == "2" && c == "5" && s == a + [','] + (b + [','] + c)
    ensures Split(s, ',') == [a, b, c]
  {
    SplitNoSep(c, ',');
    SplitAtFirst(b, c, ',');
    SplitAtFirst(a, b + [','] + c, ',');
  }

  lemma {:induction false} OverlapPages()
    ensures StrictlyAscending([1, 2, 3, 5])
    ensures Elems([1, 2, 3, 5]) == Covered([Range(1, 3), Single(2), Single(5)])
  {
    PagesOneToThree();
    var ts := [Range(1, 3), Single(2), Single(5)];
    assert Covered(ts) == {1, 2, 3} + ({2} + ({5} + {}));
  }

  /** The pieces a spec splits into decide its result. */
  lemma {:induction false} SpecOfPieces(spec: string, parts: seq<string>, ts: seq<Token>, ps: seq<nat>)
    requires parts == Split(spec, ',') && |ts| == |parts|
    requires forall k :: 0 <= k < |parts| ==> ParseToken(parts[k]) == Ok(ts[k])
    requires StrictlyAscending(ps) && Elems(ps) == Covered(ts)
    ensures ParsePageRange(spec) == Ok(ps)
  {
    ParsePageRangeOfPieces(parts, ts, ps);
  }

  /** A range that runs backwards is rejected, naming the piece. */
  lemma {:induction false} BackwardsRangeRejected()
    ensures ParsePageRange("5-2") == Err(RangeError("5-2"))
  {
    Backwards("5-2");
  }

  lemma {:induction false} Backwards(spec: string)
    requires spec == "5-2"
    ensures ParsePageRange(spec) == Err(RangeError(spec))
  {
    SplitNoSep(spec, ',');
    PlainRange(spec, 5, 2);
    OnePieceSpec(spec);
  }

  /** An empty spec is rejected: `parseInt("")` is not a number. */
  lemma {:induction false} EmptySpecRejected()
    ensures ParsePageRange("") == Err(PageError(""))
  {
    EmptySpec("");
  }

  lemma {:induction false} EmptySpec(spec: string)
    requires spec == ""
    ensures ParsePageRange(spec) == Err(PageError(spec))
  {
    EmptySplit(spec);
    EmptyPiece(spec);
    OnePieceSpec(spec);
  }

  lemma {:induction false} EmptySplit(spec: string)
    requires spec == ""
    ensures Split(spec, ',') == [spec]
  {
    SplitNoSep(spec, ',');
  }

  lemma {:induction false} EmptyPiece(t: string)
    requires t == ""
    ensures ParseToken(t) == Err(PageError(t))
  {
    ParseIntNaN([], [], []);
    assert Trim(t) == t;
  }

  /** A word is not a page number. */
  lemma {:induction false} WordRejected()
    ensures ParsePageRange("x") == Err(PageError("x"))
  {
    Word("x");
  }

  lemma {:induction false} Word(spec: string)
    requires spec == "x"
    ensures ParsePageRange(spec) == Err(PageError(spec))
  {
    SplitNoSep(spec, ',');
    WordPiece(spec);
    OnePieceSpec(spec);
  }

  lemma {:induction false} WordPiece(t: string)
    requires t == "x"
    ensures ParseToken(t) == Err(PageError(t))
  {
    assert t[0] == 'x' && Trimmed(t);
    TrimOfTrimmed(t);
    NoDigitNaN(t);
  }

  /** A range with no start is rejected. */
  lemma {:induction false} MissingStartRejected()
    ensures ParsePageRange("-3") == Err(RangeError("-3"))
  {
    MissingStart("-3");
  }

  lemma {:induction false} MissingStart(spec: string)
    requires spec == "-3"
    ensures ParsePageRange(spec) == Err(RangeError(spec))
  {
    SplitNoSep(spec, ',');
    MissingStartPiece(spec);
    OnePieceSpec(spec);
  }

  lemma {:induction false} MissingStartPiece(t: string)
    requires t == "-3"
    ensures ParseToken(t) == Err(RangeError(t))
  {
    assert Trimmed(t);
    TrimOfTrimmed(t);
    assert t == [] + ['-'] + "3";
    SplitAtFirst([], "3", '-');
    ParseIntNaN([], [], []);
    assert Trim([]) == [];
  }

  /** A range with no end is rejected. */
  lemma {:induction false} MissingEndRejected()
    ensures ParsePageRange("3-") == Err(RangeError("3-"))
  {
    MissingEnd("3-");
  }

  lemma {:induction false} MissingEnd(spec: string)
    requires spec == "3-"
    ensures ParsePageRange(spec) == Err(RangeError(spec))
  {
    SplitNoSep(spec, ',');
    MissingEndPiece(spec);
    OnePieceSpec(spec);
  }

  lemma {:induction false} MissingEndPiece(t: string)
    requires t == "3-"
    ensures ParseToken(t) == Err(RangeError(t))
  {
    assert Trimmed(t);
    TrimOfTrimmed(t);
    assert t == "3" + ['-'] + [];
    SplitAtFirst("3", [], '-');
    SplitNoSep([], '-');
    ParseIntNaN([], [], []);
    assert Trim([]) == [];
  }

  /** A trailing comma leaves an empty last piece, which is rejected. */
  lemma {:induction false} TrailingCommaRejected()
    ensures ParsePageRange("1,") == Err(PageError(""))
  {
    TrailingCommaSplit("1,", ["1", ""]);
    TrailingCommaTokens(["1", ""]);
    FirstBadPieceDecides(["1", ""], 1);
  }

  lemma {:induction false} TrailingCommaSplit(spec: string, parts: seq<string>)
    requires spec == "1," && parts == ["1", ""]
    ensures Split(spec, ',') == parts
  {
    assert spec == "1" + [','] + "";
    SplitAtFirst("1", "", ',');
    SplitNoSep("", ',');
  }

  lemma {:induction false} TrailingCommaTokens(parts: seq<string>)
    requires parts == ["1", ""]
    ensures ParseToken(parts[0]).Ok? && ParseToken(parts[1]) == Err(PageError(""))
  {
    PlainPage(parts[0], 1);
    EmptyPiece(parts[1]);
  }

  /** Pieces of a range past the second are never read: `1-2-3` is pages 1 and 2. */
  lemma {:induction false} ExtraPiecesExample()
    ensures ParsePageRange("1-2-3") == Ok([1, 2])
  {
    var parts, ts := ["1-2-3"], [Range(1, 2)];
    ExtraPieces(parts, ts);
    OneToTwoPages();
    SpecOfPieces("1-2-3", parts, ts, [1, 2]);
  }

  lemma {:induction false} ExtraPieces(parts: seq<string>, ts: seq<Token>)
    requires parts == ["1-2-3"] && ts == [Range(1, 2)]
    ensures parts == Split("1-2-3", ',') && |ts| == |parts|
    ensures forall k :: 0 <= k < |parts| ==> ParseToken(parts[k]) == Ok(ts[k])
  {
    SplitNoSep("1-2-3", ',');
    OneToTwoThree(parts[0]);
  }

  lemma {:induction false} OneToTwoThree(t: string)
    requires t == "1-2-3"
    ensures ParseToken(t) == Ok(Range(1, 2))
  {
    LongRange("1", "2", "3", t);
  }

  lemma {:induction false} LongRange(a: string, b: string, c: string, t: string)
    requires a == "1" && b == "2" && c == "3" && t == a + "-" + b + "-" + c
    ensures ParseToken(t) == Ok(Range(1, 2))
  {
    DigitSides(a, b);
    OneToTwo(a, b);
    ExtraRangePiecesIgnored(a, b, c);
  }

  /** One-digit numerals hold no hyphen. */
  lemma DigitSides(a: string, b: string)
    requires |a| == |b| == 1 && IsDigit(a[0]) && IsDigit(b[0])
    ensures '-' !in a && '-' !in b
  {
    assert a == [a[0]] && b == [b[0]];
  }

  lemma {:induction false} OneToTwo(a: string, b: string)
    requires a == "1" && b == "2"
    ensures ParseToken(a + "-" + b) == Ok(Range(1, 2))
  {
    PlainRange(a + "-" + b, 1, 2);
  }

  lemma {:induction false} OneToTwoPages()
    ensures StrictlyAscending([1, 2]) && Elems([1, 2]) == Covered([Range(1, 2)])
  {
    assert forall i: nat :: Between(i, 1, 2) <==> i in {1, 2};
  }

  /** Text after a page number is ignored: `2abc` is page 2. */
  lemma {:induction false} TrailingTextExample()
    ensures ParsePageRange("2abc") == Ok([2])
  {
    var parts, ts := ["2abc"], [Single(2)];
    TrailingTextPieces(parts, ts);
    SinglePages(2);
    SpecOfPieces("2abc", parts, ts, [2]);
  }

  lemma {:induction false} SinglePages(n: nat)
    ensures StrictlyAscending([n]) && Elems([n]) == Covered([Single(n)])
  {
  }

  lemma {:induction false} TrailingTextPieces(parts: seq<string>, ts: seq<Token>)
    requires parts == ["2abc"] && ts == [Single(2)]
    ensures parts == Split("2abc", ',') && |ts| == |parts|
    ensures forall k :: 0 <= k < |parts| ==> ParseToken(parts[k]) == Ok(ts[k])
  {
    SplitNoSep("2abc", ',');
    TrailingText(parts[0]);
  }

  lemma {:induction false} TrailingText(t: string)
    requires t == "2abc"
    ensures ParseToken(t) == Ok(Single(2))
  {
    var rest := "abc";
    assert rest[0] == 'a';
    assert NatToString(2) == "2";
    assert t == NatToString(2) + rest;
    TrailingTextIgnored(2, rest);
  }
}
