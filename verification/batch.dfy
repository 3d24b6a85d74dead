/**
 * The per-item `try`/`catch` of `execute`: every input item is converted
 * in turn; a failure either ends the run (the error propagates) or, with
 * continue-on-fail, leaves one error record and the loop goes on.
 */
module Batch {
  import opened Results
  import opened Seqs
  import opened Records

  /** The input items' JSON objects. */
  function Jsons(items: seq<InItem>): (js: seq<Json>)
    ensures |js| == |items| && forall k :: 0 <= k < |items| ==> js[k] == items[k].json
  {
    seq(|items|, k requires 0 <= k < |items| => items[k].json)
  }

  /** What item `json` leaves in the output under continue-on-fail: its records, then an error record if it threw. */
  function Block(json: Json, o: ItemOutcome): seq<OutItem> {
    match o
    case Done(items) => items
    case Aborted(emitted, e) => emitted + [Failed(json, e)]
  }

  /** The blocks of all items, in input order. */
  function Blocks(jsons: seq<Json>, outcomes: seq<ItemOutcome>): (bs: seq<seq<OutItem>>)
    requires |jsons| == |outcomes|
    ensures |bs| == |outcomes| && forall k :: 0 <= k < |bs| ==> bs[k] == Block(jsons[k], outcomes[k])
  {
    seq(|outcomes|, k requires 0 <= k < |outcomes| => Block(jsons[k], outcomes[k]))
  }

  /** The index of the first item that threw, or `|outcomes|` when none did. */
  function FirstAborted(outcomes: seq<ItemOutcome>): (n: nat)
    ensures n <= |outcomes|
    ensures forall j :: 0 <= j < n ==> outcomes[j].Done?
    ensures n < |outcomes| ==> outcomes[n].Aborted?
  {
    if |outcomes| == 0 || outcomes[0].Aborted? then 0
    else
      var n := FirstAborted(outcomes[1..]);
      assert forall j :: 1 <= j < |outcomes| ==> outcomes[j] == outcomes[1..][j - 1];
      1 + n
  }

  /**
   * The item loop: `jsons[k]` is item `k`'s input JSON and `outcomes[k]`
   * what converting it did. With continue-on-fail every item is processed
   * and the result is the concatenation of the blocks; without it the
   * first item that throws ends the run with its error, and the records
   * pushed so far are lost with it.
   */
  function Run(jsons: seq<Json>, outcomes: seq<ItemOutcome>, continueOnFail: bool): (r: Result<seq<OutItem>>)
    requires |jsons| == |outcomes|
    ensures continueOnFail ==> r == Ok(Flatten(Blocks(jsons, outcomes)))
    ensures !continueOnFail ==> (r.Ok? <==> FirstAborted(outcomes) == |outcomes|)
    ensures r.Ok? ==> r.value == Flatten(Blocks(jsons, outcomes))
    ensures r.Err? ==> r.error == outcomes[FirstAborted(outcomes)].error
    decreases |outcomes|
  {
    if |outcomes| == 0 then Ok([])
    else
      var o := outcomes[0];
      if o.Aborted? && !continueOnFail then Err(o.error)
      else
        var rest :- Run(jsons[1..], outcomes[1..], continueOnFail);
        RunStep(jsons, outcomes);
        Ok(Block(jsons[0], o) + rest)
  }

  /** The blocks of a non-empty batch are the first item's block, then the rest's. */
  lemma {:induction false} RunStep(jsons: seq<Json>, outcomes: seq<ItemOutcome>)
    requires |jsons| == |outcomes| >= 1
    ensures Flatten(Blocks(jsons, outcomes)) == Block(jsons[0], outcomes[0]) + Flatten(Blocks(jsons[1..], outcomes[1..]))
    ensures outcomes[0].Done? ==> FirstAborted(outcomes) == 1 + FirstAborted(outcomes[1..])
  {
    var bs := Blocks(jsons, outcomes);
    assert bs[1..] == Blocks(jsons[1..], outcomes[1..]);
  }

  /** With no failing item, under either setting of continue-on-fail, the output is every item's records in input order. */
  lemma {:induction false} RunAllDone(jsons: seq<Json>, outcomes: seq<ItemOutcome>, continueOnFail: bool)
    requires |jsons| == |outcomes|
    requires forall k :: 0 <= k < |outcomes| ==> outcomes[k].Done?
    ensures Run(jsons, outcomes, continueOnFail) == Ok(Flatten(seq(|outcomes|, k requires 0 <= k < |outcomes| => outcomes[k].items)))
  {
    assert Blocks(jsons, outcomes) == seq(|outcomes|, k requires 0 <= k < |outcomes| => outcomes[k].items);
    if !continueOnFail {
      assert FirstAborted(outcomes) == |outcomes|;
    }
  }

  /**
   * Under continue-on-fail, item `k`'s block sits in the output right after
   * the blocks of the items before it, whatever they did; when item `k`
   * threw, its block ends in exactly one error record carrying the item's
   * input JSON and the error message, after the records it had pushed.
   */
  lemma {:induction false} FailedItemInPlace(jsons: seq<Json>, outcomes: seq<ItemOutcome>, k: nat)
    requires |jsons| == |outcomes| && k < |outcomes|
    ensures var out := Run(jsons, outcomes, true).value;
      var at := |Flatten(Blocks(jsons, outcomes)[..k])|;
      var block := Block(jsons[k], outcomes[k]);
      at + |block| <= |out| && out[at..at + |block|] == block
    ensures outcomes[k].Aborted? ==>
      var out := Run(jsons, outcomes, true).value;
      var at := |Flatten(Blocks(jsons, outcomes)[..k])| + |outcomes[k].emitted|;
      at < |out| && out[at] == Failed(jsons[k], outcomes[k].error)
  {
    var bs := Blocks(jsons, outcomes);
    FlattenAt(bs, k);
    var pre := Flatten(bs[..k]);
    var block := bs[k];
    var out := Flatten(bs);
    assert out[|pre|..|pre| + |block|] == block;
    if outcomes[k].Aborted? {
      assert block[|outcomes[k].emitted|] == Failed(jsons[k], outcomes[k].error);
      assert out[|pre| + |outcomes[k].emitted|] == block[|outcomes[k].emitted|];
    }
  }

  /**
   * A failing first item and a good second one: with continue-on-fail the
   * output is the first item's error record followed by the second item's
   * records; without it the run throws the first error and emits nothing.
   */
  lemma {:induction false} FailedThenDone(first: Json, second: Json, e: string, items: seq<OutItem>)
    ensures Run([first, second], [Aborted([], e), Done(items)], true) == Ok([Failed(first, e)] + items)
    ensures Run([first, second], [Aborted([], e), Done(items)], false) == Err(e)
  {
    var jsons, outcomes := [first, second], [Aborted([], e), Done(items)];
    var bs := Blocks(jsons, outcomes);
    assert bs == [[] + [Failed(first, e)], items];
    assert Flatten(bs) == [Failed(first, e)] + Flatten(bs[1..]);
    assert bs[1..][1..] == [];
    assert Flatten(bs[1..]) == items + Flatten(bs[1..][1..]);
    assert Flatten(bs[1..]) == items;
    assert FirstAborted(outcomes) == 0;
  }

  /** Every failed item adds exactly one error record under continue-on-fail. */
  lemma {:induction false} ErrorRecordCount(jsons: seq<Json>, outcomes: seq<ItemOutcome>)
    requires |jsons| == |outcomes|
    requires forall k :: 0 <= k < |outcomes| ==> forall j :: 0 <= j < |outcomes[k].Pushed()| ==> outcomes[k].Pushed()[j].Page?
    ensures FailedCount(Run(jsons, outcomes, true).value) == AbortedCount(outcomes)
    decreases |outcomes|
  {
    if |outcomes| > 0 {
      RunStep(jsons, outcomes);
      ErrorRecordCount(jsons[1..], outcomes[1..]);
      assert forall k :: 1 <= k < |outcomes| ==> outcomes[k] == outcomes[1..][k - 1];
      FailedCountAppend(Block(jsons[0], outcomes[0]), Flatten(Blocks(jsons[1..], outcomes[1..])));
      var o := outcomes[0];
      assert forall j :: 0 <= j < |o.Pushed()| ==> o.Pushed()[j].Page?;
      PagesHaveNoFailed(o.Pushed());
      if o.Aborted? {
        FailedCountAppend(o.emitted, [Failed(jsons[0], o.error)]);
      }
    }
  }

  /** The number of error records in an output list. */
  function FailedCount(out: seq<OutItem>): nat {
    if |out| == 0 then 0 else (if out[0].Failed? then 1 else 0) + FailedCount(out[1..])
  }

  /** The number of items that threw. */
  function AbortedCount(outcomes: seq<ItemOutcome>): nat {
    if |outcomes| == 0 then 0 else (if outcomes[0].Aborted? then 1 else 0) + AbortedCount(outcomes[1..])
  }

  lemma {:induction false} FailedCountAppend(a: seq<OutItem>, b: seq<OutItem>)
    ensures FailedCount(a + b) == FailedCount(a) + FailedCount(b)
    decreases |a|
  {
    if |a| == 0 {
      assert a + b == b;
    } else {
      assert (a + b)[1..] == a[1..] + b;
      FailedCountAppend(a[1..], b);
    }
  }

  lemma {:induction false} PagesHaveNoFailed(items: seq<OutItem>)
    requires forall j :: 0 <= j < |items| ==> items[j].Page?
    ensures FailedCount(items) == 0
    decreases |items|
  {
    if |items| > 0 {
      PagesHaveNoFailed(items[1..]);
    }
  }
}
