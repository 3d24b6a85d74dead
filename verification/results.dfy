/** Failure-compatible wrappers shared by every module of the model. */
module Results {

  /** A value that may be absent; `None` stands for JavaScript's `NaN` or a blank field. */
  datatype Option<+T> = None | Some(value: T)

  /** The outcome of a step that may throw: `Err` carries the thrown error's message. */
  datatype Result<+T> = Ok(value: T) | Err(error: string) {

    predicate IsFailure() {
      Err?
    }

    function PropagateFailure<U>(): Result<U>
      requires Err?
    {
      Err(error)
    }

    function Extract(): T
      requires Ok?
    {
      value
    }
  }
}

/** Sequence helpers shared by the parser, the packaging loop and the batch loop. */
module Seqs {
  import opened Results

  /**
   * Runs steps in order and stops at the first that fails: all values when
   * every step succeeds, else the error of the earliest failing step.
   */
  function AllOk<T>(rs: seq<Result<T>>): (r: Result<seq<T>>)
    ensures r.Ok? <==> forall k :: 0 <= k < |rs| ==> rs[k].Ok?
    ensures r.Ok? ==> |r.value| == |rs| && forall k :: 0 <= k < |rs| ==> rs[k] == Ok(r.value[k])
    ensures r.Err? ==> exists k :: 0 <= k < |rs| && rs[k] == Err(r.error) && forall j :: 0 <= j < k ==> rs[j].Ok?
  {
    if |rs| == 0 then Ok([])
    else
      match rs[0]
      case Err(e) => Err(e)
      case Ok(v) =>
        match AllOk(rs[1..])
        case Err(e) =>
          ghost var k :| 0 <= k < |rs[1..]| && rs[1..][k] == Err(e) && forall j :: 0 <= j < k ==> rs[1..][j].Ok?;
          assert rs[k + 1] == Err(e) && forall j :: 0 <= j < k + 1 ==> rs[j].Ok?;
          Err(e)
        case Ok(vs) =>
          assert forall k :: 1 <= k < |rs| ==> rs[k] == rs[1..][k - 1];
          Ok([v] + vs)
  }

  /** The index of the first `xs[k]` on which `f` fails, or `|xs|` when it fails on none. */
  function FirstFailing<U, T>(f: U -> Result<T>, xs: seq<U>): (n: nat)
    ensures n <= |xs|
    ensures forall j :: 0 <= j < n ==> f(xs[j]).Ok?
    ensures n < |xs| ==> f(xs[n]).Err?
    decreases |xs|
  {
    if |xs| == 0 || f(xs[0]).Err? then 0
    else
      var n := FirstFailing(f, xs[1..]);
      assert forall j :: 1 <= j < |xs| ==> xs[j] == xs[1..][j - 1];
      1 + n
  }

  /** The first failure is the failure every earlier element escapes. */
  lemma FirstFailingAt<U, T>(f: U -> Result<T>, xs: seq<U>, k: nat)
    requires k < |xs| && f(xs[k]).Err?
    requires forall j :: 0 <= j < k ==> f(xs[j]).Ok?
    ensures FirstFailing(f, xs) == k
  {
  }

  /**
   * Applies `f` to each element in order and stops at the first failure:
   * all values when every application succeeds, else the earliest error.
   */
  function MapAll<U, T>(f: U -> Result<T>, xs: seq<U>): (r: Result<seq<T>>)
    ensures r.Ok? <==> FirstFailing(f, xs) == |xs|
    ensures r.Ok? ==> |r.value| == |xs| && forall k :: 0 <= k < |xs| ==> f(xs[k]) == Ok(r.value[k])
    ensures r.Err? ==> f(xs[FirstFailing(f, xs)]) == Err(r.error)
    decreases |xs|
  {
    if |xs| == 0 then Ok([])
    else
      var v :- f(xs[0]);
      var vs :- MapAll(f, xs[1..]);
      assert forall k :: 1 <= k < |xs| ==> xs[k] == xs[1..][k - 1];
      Ok([v] + vs)
  }

  function Flatten<T>(ss: seq<seq<T>>): seq<T>
  {
    if |ss| == 0 then [] else ss[0] + Flatten(ss[1..])
  }

  /** Flattening distributes over concatenation of the outer sequence. */
  lemma {:induction false} FlattenAppend<T>(a: seq<seq<T>>, b: seq<seq<T>>)
    ensures Flatten(a + b) == Flatten(a) + Flatten(b)
  {
    if |a| == 0 {
      assert a + b == b;
    } else {
      assert (a + b)[1..] == a[1..] + b;
      FlattenAppend(a[1..], b);
    }
  }

  /** Block `k` of `ss` sits in `Flatten(ss)` right after the blocks before it. */
  lemma {:induction false} FlattenAt<T>(ss: seq<seq<T>>, k: nat)
    requires k < |ss|
    ensures Flatten(ss) == Flatten(ss[..k]) + ss[k] + Flatten(ss[k + 1..])
  {
    var pre, post := ss[..k], ss[k + 1..];
    assert ss == pre + ([ss[k]] + post);
    FlattenAppend(pre, [ss[k]] + post);
    assert ([ss[k]] + post)[1..] == post;
    assert Flatten([ss[k]] + post) == ss[k] + Flatten(post);
  }
}
