/**
 * The JavaScript node: options for pdf2pic's `fromPath`, `bulk(-1)` or one
 * `convert(page)` call per requested page, the array and single-result
 * branches of the packaging, and the item loop of `execute`.
 */
module Pdf2PicNode {
  import opened Results
  import opened Seqs
  import opened Decimal
  import opened PageRange
  import opened Params
  import opened Records
  import Batch

  /** The options record handed to pdf2pic; `None` is a field left unset. */
  datatype Pdf2PicOptions = Pdf2PicOptions(
    density: int,
    saveFilename: string,
    savePath: Path,
    format: string,
    quality: Option<int>,
    width: Option<int>,
    height: Option<int>)

  /** What `bulk(-1)` resolves to: an array of results, or a single result. */
  datatype BulkResult = Listed(paths: seq<Path>) | Lone(path: Path)

  /** The image paths a `bulk(-1)` result names, a single result as a list of one. */
  function BulkPaths(b: BulkResult): seq<Path> {
    match b
    case Listed(paths) => paths
    case Lone(path) => [path]
  }

  /**
   * Everything `execute` reaches outside the model: n8n's missing-binary
   * error, the scratch directory and PDF write, pdf2pic's `bulk(-1)` and
   * `convert(page)` (each result reduced to its `path`), and the image reads.
   */
  datatype Host = Host(
    missingBinary: string -> string,
    stage: (InItem, string) -> Result<Staging>,
    bulk: (Path, Pdf2PicOptions) -> Result<BulkResult>,
    convertPage: (Path, Pdf2PicOptions, nat) -> Result<Path>,
    files: Files)

  /**
   * The converter's options: density, file stem, directory and format are
   * always passed as given; quality only for JPEG; each dimension only
   * when it is set.
   */
  function BuildOptions(p: NodeParams, tempDir: Path): (o: Pdf2PicOptions)
    ensures o.density == p.density && o.saveFilename == "page" && o.savePath == tempDir && o.format == p.format
    ensures o.quality.Some? <==> p.format == "jpeg"
    ensures o.quality.Some? ==> o.quality.value == p.quality
    ensures o.width.Some? <==> Truthy(p.width)
    ensures o.width.Some? ==> o.width.value == p.width.value
    ensures o.height.Some? <==> Truthy(p.height)
    ensures o.height.Some? ==> o.height.value == p.height.value
  {
    Pdf2PicOptions(
      p.density, "page", tempDir, p.format,
      if p.format == "jpeg" then Some(p.quality) else None,
      if Truthy(p.width) then Some(p.width.value) else None,
      if Truthy(p.height) then Some(p.height.value) else None)
  }

  /** Range mode's `convert(page)` call, as a function of the page. */
  function PageCall(host: Host, pdfPath: Path, o: Pdf2PicOptions): (call: nat -> Result<Path>)
    ensures forall page :: call(page) == host.convertPage(pdfPath, o, page)
  {
    (page: nat) => host.convertPage(pdfPath, o, page)
  }

  /**
   * The range-mode loop: one `convert(page)` per page, in order, each
   * result appended; the first failing call ends the loop.
   */
  function RenderRange(host: Host, pdfPath: Path, o: Pdf2PicOptions, pages: seq<nat>): (r: Result<seq<Path>>)
    ensures r.Ok? <==> forall k :: 0 <= k < |pages| ==> host.convertPage(pdfPath, o, pages[k]).Ok?
    ensures r.Ok? ==> |r.value| == |pages| && forall k :: 0 <= k < |pages| ==> host.convertPage(pdfPath, o, pages[k]) == Ok(r.value[k])
    ensures r.Err? ==> var k := FirstFailing(PageCall(host, pdfPath, o), pages);
      k < |pages| && host.convertPage(pdfPath, o, pages[k]) == Err(r.error)
    decreases |pages|
  {
    if |pages| == 0 then Ok([])
    else
      var first :- host.convertPage(pdfPath, o, pages[0]);
      var rest := RenderRange(host, pdfPath, o, pages[1..]);
      assert forall k :: 1 <= k < |pages| ==> pages[k] == pages[1..][k - 1];
      match rest
      case Err(e) =>
        assert FirstFailing(PageCall(host, pdfPath, o), pages) == 1 + FirstFailing(PageCall(host, pdfPath, o), pages[1..]);
        Err(e)
      case Ok(paths) => Ok([first] + paths)
  }

  /** The single-result branch: the one image is page 1 of 1, named `page_1.format`. */
  function PackageLone(base: Json, path: Path, format: string, prop: string, files: Files): (o: ItemOutcome)
    ensures o.Done? <==> files.readFile(path).Ok?
    ensures o.Done? ==> |o.items| == 1 && o.items[0].Page? && o.items[0].input == base
    ensures o.Done? ==> o.items[0].JsonObject()["pageNumber"] == JNumber(1) && o.items[0].JsonObject()["totalPages"] == JNumber(1)
    ensures o.Done? ==> o.items[0].JsonObject()["fileName"] == JString("page_1." + format)
    ensures o.Done? ==> o.items[0].BinaryObject().Keys == {prop} && o.items[0].data == files.base64(files.readFile(path).value)
    ensures o.Aborted? ==> o == Aborted([], files.readFile(path).error)
  {
    match files.readFile(path)
    case Err(e) => Aborted([], e)
    case Ok(bytes) =>
      OneIsOne(format);
      Done([Page(base, 1, 1, format, prop, files.base64(bytes))])
  }

  /** The file name of page 1. */
  lemma OneIsOne(format: string)
    ensures PageFileName(1, format) == "page_1." + format
  {
    assert NatToString(1) == "1";
  }

  /** The single-result branch is the array branch applied to a one-element array. */
  lemma {:induction false} LoneIsListOfOne(base: Json, path: Path, format: string, prop: string, files: Files)
    ensures PackageLone(base, path, format, prop, files) == Package(base, [path], format, prop, files)
  {
    var o := Package(base, [path], format, prop, files);
    assert |o.Pushed()| == ReadCount(files, [path]);
    if files.readFile(path).Ok? {
      assert o.items[0] == Page(base, 1, 1, format, prop, files.base64(files.readFile(path).value));
    }
  }

  /** The error `this.parsePageRange(...)` throws when `this` is n8n's execution context, which has no such method. */
  const NotAFunction: string := "this.parsePageRange is not a function"

  /**
   * One input item, as the body of the `try` in `execute`, with `resolved`
   * standing for what resolving the page range gives (it is only looked at
   * in range mode).
   */
  function ConvertItemWith(item: InItem, p: NodeParams, host: Host, resolved: Result<seq<nat>>): (o: ItemOutcome)
    ensures p.operation != Convert ==> o == Aborted([], UnknownOperation(p.operation))
    ensures p.operation == Convert && p.pdfBinaryProperty !in item.binaryKeys ==>
              o == Aborted([], host.missingBinary(p.pdfBinaryProperty))
    ensures forall j :: 0 <= j < |o.Pushed()| ==> o.Pushed()[j].Page? && o.Pushed()[j].input == item.json && o.Pushed()[j].prop == p.outputBinaryProperty
  {
    if p.operation != Convert then Aborted([], UnknownOperation(p.operation))
    else if p.pdfBinaryProperty !in item.binaryKeys then Aborted([], host.missingBinary(p.pdfBinaryProperty))
    else
      match host.stage(item, p.pdfBinaryProperty)
      case Err(e) => Aborted([], e)
      case Ok(st) =>
        var options := BuildOptions(p, st.tempDir);
        if p.convertAllPages then
          match host.bulk(st.pdfPath, options)
          case Err(e) => Aborted([], e)
          case Ok(Listed(paths)) => Package(item.json, paths, p.format, p.outputBinaryProperty, host.files)
          case Ok(Lone(path)) =>
            LoneIsListOfOne(item.json, path, p.format, p.outputBinaryProperty, host.files);
            PackageLone(item.json, path, p.format, p.outputBinaryProperty, host.files)
        else
          match resolved
          case Err(e) => Aborted([], e)
          case Ok(pages) => RangeMode(item, p, host, st, pages)
  }

  /** Range mode once the pages are known: one `convert(page)` per page, then the array branch. */
  function RangeMode(item: InItem, p: NodeParams, host: Host, st: Staging, pages: seq<nat>): (o: ItemOutcome)
    ensures forall j :: 0 <= j < |o.Pushed()| ==> o.Pushed()[j].Page? && o.Pushed()[j].input == item.json && o.Pushed()[j].prop == p.outputBinaryProperty
  {
    match RenderRange(host, st.pdfPath, BuildOptions(p, st.tempDir), pages)
    case Err(e) => Aborted([], e)
    case Ok(paths) => Package(item.json, paths, p.format, p.outputBinaryProperty, host.files)
  }

  /** The item body as written: range mode calls `this.parsePageRange`, which the execution context lacks. */
  function ConvertItemAsWritten(item: InItem, p: NodeParams, host: Host): (o: ItemOutcome)
    ensures p.operation != Convert ==> o == Aborted([], UnknownOperation(p.operation))
  {
    ConvertItemWith(item, p, host, Err(NotAFunction))
  }

  /** The item body with the page range parsed by the node's own parser, as the TypeScript node does. */
  function ConvertItem(item: InItem, p: NodeParams, host: Host): (o: ItemOutcome)
    ensures p.operation != Convert ==> o == Aborted([], UnknownOperation(p.operation))
    ensures p.operation == Convert && p.pdfBinaryProperty !in item.binaryKeys ==>
              o == Aborted([], host.missingBinary(p.pdfBinaryProperty))
    ensures forall j :: 0 <= j < |o.Pushed()| ==> o.Pushed()[j].Page? && o.Pushed()[j].input == item.json && o.Pushed()[j].prop == p.outputBinaryProperty
  {
    ConvertItemWith(item, p, host, ParsePageRange(p.pageRange))
  }

  /**
   * All-pages mode is one `bulk(-1)` call: its failure fails the item
   * before any record is pushed, and otherwise the images it names, a
   * single result as a list of one, go to the packaging loop. The
   * misplaced `this` is never reached here, so the code as written agrees.
   */
  lemma {:induction false} AllPagesMode(item: InItem, p: NodeParams, host: Host, st: Staging)
    requires Staged(item, p, host.stage, st) && p.convertAllPages
    ensures var call := host.bulk(st.pdfPath, BuildOptions(p, st.tempDir));
      && (call.Err? ==> ConvertItem(item, p, host) == Aborted([], call.error))
      && (call.Ok? ==> ConvertItem(item, p, host) == Package(item.json, BulkPaths(call.value), p.format, p.outputBinaryProperty, host.files))
      && ConvertItemAsWritten(item, p, host) == ConvertItem(item, p, host)
  {
    var call := host.bulk(st.pdfPath, BuildOptions(p, st.tempDir));
    if call.Ok? && call.value.Lone? {
      LoneIsListOfOne(item.json, call.value.path, p.format, p.outputBinaryProperty, host.files);
    }
  }

  /**
   * As written, range mode fails every item that reaches it, whatever the
   * page range and the document: the default `1-5` included.
   */
  lemma {:induction false} RangeModeAlwaysFailsAsWritten(item: InItem, p: NodeParams, host: Host, st: Staging)
    requires Staged(item, p, host.stage, st) && !p.convertAllPages
    ensures ConvertItemAsWritten(item, p, host) == Aborted([], NotAFunction)
  {
  }

  /** With its pages parsed, an item runs range mode on them. */
  lemma {:induction false} ParsedRangeMode(item: InItem, p: NodeParams, host: Host, st: Staging, pages: seq<nat>)
    requires Staged(item, p, host.stage, st) && !p.convertAllPages && ParsePageRange(p.pageRange) == Ok(pages)
    ensures ConvertItem(item, p, host) == RangeMode(item, p, host, st, pages)
  {
  }

  /**
   * Range mode yields one record per requested page, numbered by position:
   * record `k` is page `k + 1` of `|pages|`, whichever document page it
   * shows, once every page converts and reads.
   */
  lemma {:induction false} RangeModeNumbering(item: InItem, p: NodeParams, host: Host, st: Staging, pages: seq<nat>)
    requires forall k :: 0 <= k < |pages| ==> host.convertPage(st.pdfPath, BuildOptions(p, st.tempDir), pages[k]).Ok?
    requires forall k :: 0 <= k < |pages| ==>
      host.files.readFile(host.convertPage(st.pdfPath, BuildOptions(p, st.tempDir), pages[k]).value).Ok?
    ensures var o := RangeMode(item, p, host, st, pages);
      o.Done? && |o.items| == |pages| &&
      forall k :: 0 <= k < |pages| ==>
        o.items[k].Page? && o.items[k].pageNumber == k + 1 && o.items[k].totalPages == |pages|
  {
    var paths := RenderRange(host, st.pdfPath, BuildOptions(p, st.tempDir), pages).value;
    PackageNumbering(item.json, paths, p.format, p.outputBinaryProperty, host.files);
  }

  /**
   * The single-result branch emits exactly one record, page 1 of 1, when
   * its image reads.
   */
  lemma {:induction false} LoneResultOneRecord(item: InItem, p: NodeParams, host: Host, st: Staging, path: Path)
    requires Staged(item, p, host.stage, st) && p.convertAllPages
    requires host.bulk(st.pdfPath, BuildOptions(p, st.tempDir)) == Ok(Lone(path))
    requires host.files.readFile(path).Ok?
    ensures var o := ConvertItem(item, p, host);
      o.Done? && |o.items| == 1 &&
      o.items[0].JsonObject()["pageNumber"] == JNumber(1) && o.items[0].JsonObject()["totalPages"] == JNumber(1) &&
      o.items[0].JsonObject()["fileName"] == JString("page_1." + p.format)
  {
  }

  /**
   * `execute`: converts every item with its own parameters and returns the
   * output as one flat list. With continue-on-fail it never throws, and each
   * failed item's error record carries the error's message; without it, it
   * throws the first failing item's error. The items are converted with the
   * page-range parser in place (`ConvertItem`).
   */
  function Execute(items: seq<InItem>, params: seq<NodeParams>, continueOnFail: bool, host: Host): (r: Result<seq<OutItem>>)
    requires |params| == |items|
    ensures continueOnFail ==> r.Ok?
    ensures !continueOnFail ==> (r.Ok? <==> Batch.FirstAborted(Outcomes(items, params, host)) == |items|)
    ensures r.Ok? ==> r.value == Flatten(Batch.Blocks(Batch.Jsons(items), Outcomes(items, params, host)))
    ensures r.Err? ==>
      var os := Outcomes(items, params, host);
      var k := Batch.FirstAborted(os);
      k < |items| && os[k].Aborted? && os[k].error == r.error && forall j :: 0 <= j < k ==> os[j].Done?
  {
    Batch.Run(Batch.Jsons(items), Outcomes(items, params, host), continueOnFail)
  }

  /** An item that reaches range mode as written. */
  predicate ReachesRangeMode(item: InItem, p: NodeParams, host: Host) {
    p.operation == Convert && p.pdfBinaryProperty in item.binaryKeys &&
    host.stage(item, p.pdfBinaryProperty).Ok? && !p.convertAllPages
  }

  /**
   * `execute` as written. Without continue-on-fail, a batch with any item
   * in range mode throws; with it, the run goes on and each such item
   * leaves the error record `this.parsePageRange is not a function`
   * (`RangeItemRecordAsWritten`).
   */
  function ExecuteAsWritten(items: seq<InItem>, params: seq<NodeParams>, continueOnFail: bool, host: Host): (r: Result<seq<OutItem>>)
    requires |params| == |items|
    ensures continueOnFail ==> r.Ok?
    ensures !continueOnFail ==> (r.Ok? <==> Batch.FirstAborted(OutcomesAsWritten(items, params, host)) == |items|)
    ensures r.Ok? ==> r.value == Flatten(Batch.Blocks(Batch.Jsons(items), OutcomesAsWritten(items, params, host)))
    ensures !continueOnFail && (exists k :: 0 <= k < |items| && ReachesRangeMode(items[k], params[k], host)) ==> r.Err?
  {
    var os := OutcomesAsWritten(items, params, host);
    RangeItemsAbortAsWritten(items, params, host);
    Batch.Run(Batch.Jsons(items), os, continueOnFail)
  }

  /** As written, every item that reaches range mode throws, so no run without continue-on-fail gets past it. */
  lemma {:induction false} RangeItemsAbortAsWritten(items: seq<InItem>, params: seq<NodeParams>, host: Host)
    requires |params| == |items|
    ensures forall k :: 0 <= k < |items| && ReachesRangeMode(items[k], params[k], host) ==>
      OutcomesAsWritten(items, params, host)[k] == Aborted([], NotAFunction) &&
      Batch.FirstAborted(OutcomesAsWritten(items, params, host)) <= k
  {
    var os := OutcomesAsWritten(items, params, host);
    forall k | 0 <= k < |items| && ReachesRangeMode(items[k], params[k], host)
      ensures os[k] == Aborted([], NotAFunction) && Batch.FirstAborted(os) <= k
    {
      var st := host.stage(items[k], params[k].pdfBinaryProperty).value;
      RangeModeAlwaysFailsAsWritten(items[k], params[k], host, st);
    }
  }

  /**
   * As written, under continue-on-fail, an item that reaches range mode
   * leaves exactly the error record `this.parsePageRange is not a
   * function`, right after the records of the items before it.
   */
  lemma {:induction false} RangeItemRecordAsWritten(items: seq<InItem>, params: seq<NodeParams>, host: Host, k: nat)
    requires |params| == |items| && k < |items| && ReachesRangeMode(items[k], params[k], host)
    ensures var out := ExecuteAsWritten(items, params, true, host).value;
      var at := |Flatten(Batch.Blocks(Batch.Jsons(items), OutcomesAsWritten(items, params, host))[..k])|;
      at < |out| && out[at] == Failed(items[k].json, NotAFunction)
  {
    var js, os := Batch.Jsons(items), OutcomesAsWritten(items, params, host);
    RangeItemsAbortAsWritten(items, params, host);
    assert ExecuteAsWritten(items, params, true, host) == Batch.Run(js, os, true);
    Batch.FailedItemInPlace(js, os, k);
  }

  /** What converting each item does, with the node's parser in range mode (`OutcomeAt`). */
  function Outcomes(items: seq<InItem>, params: seq<NodeParams>, host: Host): (os: seq<ItemOutcome>)
    requires |params| == |items|
    ensures |os| == |items|
  {
    seq(|items|, k requires 0 <= k < |items| => ConvertItem(items[k], params[k], host))
  }

  /** Item `k`'s outcome is converting it with its own parameters. */
  lemma OutcomeAt(items: seq<InItem>, params: seq<NodeParams>, host: Host, k: nat)
    requires |params| == |items| && k < |items|
    ensures Outcomes(items, params, host)[k] == ConvertItem(items[k], params[k], host)
  {
  }

  /** What converting each item does as written. */
  function OutcomesAsWritten(items: seq<InItem>, params: seq<NodeParams>, host: Host): (os: seq<ItemOutcome>)
    requires |params| == |items|
    ensures |os| == |items| && forall k :: 0 <= k < |items| ==> os[k] == ConvertItemAsWritten(items[k], params[k], host)
  {
    seq(|items|, k requires 0 <= k < |items| => ConvertItemAsWritten(items[k], params[k], host))
  }

  /**
   * Under continue-on-fail, a failed item's error record sits right after
   * the records of the items before it and the records it had pushed, and
   * carries the item's input JSON and the error message; the items after
   * it are still converted.
   */
  lemma {:induction false} FailedItemRecord(items: seq<InItem>, params: seq<NodeParams>, host: Host, k: nat)
    requires |params| == |items| && k < |items|
    requires Outcomes(items, params, host)[k].Aborted?
    ensures var bs := Batch.Blocks(Batch.Jsons(items), Outcomes(items, params, host));
      var out := Execute(items, params, true, host).value;
      var o := Outcomes(items, params, host)[k];
      var at := |Flatten(bs[..k])| + |o.emitted|;
      at < |out| && out[at] == Failed(items[k].json, o.error)
  {
    var js, os := Batch.Jsons(items), Outcomes(items, params, host);
    assert Execute(items, params, true, host).value == Flatten(Batch.Blocks(js, os));
    Batch.FailedItemInPlace(js, os, k);
  }
}
