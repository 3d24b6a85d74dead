/**
 * The TypeScript node: options for pdf-poppler's `convert`, one renderer
 * call per requested page in range mode, and the item loop of `execute`.
 */
module PopplerNode {
  import opened Results
  import opened Seqs
  import opened Decimal
  import opened PageRange
  import opened Params
  import opened Records
  import Batch

  /** pdf-poppler's `size` option. */
  datatype Size = Size(width: Option<int>, height: Option<int>)

  /** The options record handed to pdf-poppler; `None` is an absent (or `null`) field. */
  datatype PopplerOptions = PopplerOptions(
    format: string,
    outDir: Path,
    outPrefix: string,
    page: Option<nat>,
    pdfFlags: Option<seq<string>>,
    size: Option<Size>,
    firstPage: Option<nat>,
    lastPage: Option<nat>)

  /**
   * Everything `execute` reaches outside the model: n8n's missing-binary
   * error, the scratch directory and PDF write, the renderer, and the
   * image reads.
   */
  datatype Host = Host(
    missingBinary: string -> string,
    stage: (InItem, string) -> Result<Staging>,
    convert: (Path, PopplerOptions) -> Result<seq<Path>>,
    files: Files)

  /** The resolution flag passed to the renderer, `-r <density>`. */
  function DensityFlag(density: int): string {
    "-r " + IntToString(density)
  }

  /**
   * The options for a whole document: the output format is PNG exactly
   * when PNG was asked for and JPEG otherwise; a resolution flag only
   * for a set density other than the renderer's own 150; a size only
   * for the dimensions that are set.
   */
  function BuildOptions(p: NodeParams, tempDir: Path): (o: PopplerOptions)
    ensures o.format == "png" <==> p.format == "png"
    ensures o.format != "png" ==> o.format == "jpeg"
    ensures o.outDir == tempDir && o.outPrefix == "page" && o.page.None?
    ensures o.firstPage.None? && o.lastPage.None?
    ensures o.pdfFlags.Some? <==> p.density != 0 && p.density != 150
    ensures o.pdfFlags.Some? ==> o.pdfFlags.value == [DensityFlag(p.density)]
    ensures o.size.Some? <==> Truthy(p.width) || Truthy(p.height)
    ensures o.size.Some? ==> (o.size.value.width.Some? <==> Truthy(p.width))
    ensures o.size.Some? ==> (o.size.value.height.Some? <==> Truthy(p.height))
    ensures o.size.Some? && o.size.value.width.Some? ==> o.size.value.width.value == p.width.value
    ensures o.size.Some? && o.size.value.height.Some? ==> o.size.value.height.value == p.height.value
  {
    var flags := if p.density != 0 && p.density != 150 then Some([DensityFlag(p.density)]) else None;
    var size :=
      if Truthy(p.width) && Truthy(p.height) then Some(Size(Some(p.width.value), Some(p.height.value)))
      else if Truthy(p.width) then Some(Size(Some(p.width.value), None))
      else if Truthy(p.height) then Some(Size(None, Some(p.height.value)))
      else None;
    PopplerOptions(if p.format == "png" then "png" else "jpeg", tempDir, "page", None, flags, size, None, None)
  }

  /** The resolution flag carries the density: its text after `-r ` reads back as the number. */
  lemma {:induction false} DensityFlagRoundTrip(density: nat)
    ensures |DensityFlag(density)| > 3 && ParseInt(DensityFlag(density)[3..]) == Some(density)
  {
    assert DensityFlag(density)[3..] == NatToString(density);
    ParseIntNatToString(density);
  }

  /** The options for one page of range mode: the document's options scoped to that page and nothing else. */
  function PageOptions(o: PopplerOptions, page: nat): (r: PopplerOptions)
    ensures r.firstPage == Some(page) && r.lastPage == Some(page)
    ensures r.(firstPage := o.firstPage, lastPage := o.lastPage) == o
  {
    o.(firstPage := Some(page), lastPage := Some(page))
  }

  /** The renderer calls range mode makes, in order: one per page. */
  function Calls(host: Host, pdfPath: Path, o: PopplerOptions, pages: seq<nat>): (cs: seq<Result<seq<Path>>>)
    ensures |cs| == |pages|
    ensures forall k :: 0 <= k < |pages| ==> cs[k] == host.convert(pdfPath, PageOptions(o, pages[k]))
  {
    seq(|pages|, k requires 0 <= k < |pages| => host.convert(pdfPath, PageOptions(o, pages[k])))
  }

  /**
   * The range-mode loop: renders each page in turn and appends its images;
   * the first failing call ends the loop and nothing rendered is kept.
   */
  function RenderRange(host: Host, pdfPath: Path, o: PopplerOptions, pages: seq<nat>): (r: Result<seq<Path>>)
    ensures r.Ok? <==> AllOk(Calls(host, pdfPath, o, pages)).Ok?
    ensures r.Ok? ==> r.value == Flatten(AllOk(Calls(host, pdfPath, o, pages)).value)
    ensures r.Err? ==> r.error == AllOk(Calls(host, pdfPath, o, pages)).error
    decreases |pages|
  {
    if |pages| == 0 then Ok([])
    else
      var cs := Calls(host, pdfPath, o, pages);
      assert cs[1..] == Calls(host, pdfPath, o, pages[1..]);
      var first :- host.convert(pdfPath, PageOptions(o, pages[0]));
      var rest :- RenderRange(host, pdfPath, o, pages[1..]);
      Ok(first + rest)
  }

  /** When every page renders to exactly one image, range mode yields one image per page, in page order. */
  lemma {:induction false} OneImagePerPage(host: Host, pdfPath: Path, o: PopplerOptions, pages: seq<nat>)
    requires forall k :: 0 <= k < |pages| ==>
      host.convert(pdfPath, PageOptions(o, pages[k])).Ok? && |host.convert(pdfPath, PageOptions(o, pages[k])).value| == 1
    ensures RenderRange(host, pdfPath, o, pages).Ok?
    ensures |RenderRange(host, pdfPath, o, pages).value| == |pages|
    ensures forall k :: 0 <= k < |pages| ==>
      RenderRange(host, pdfPath, o, pages).value[k] == host.convert(pdfPath, PageOptions(o, pages[k])).value[0]
    decreases |pages|
  {
    if |pages| > 0 {
      OneImagePerPage(host, pdfPath, o, pages[1..]);
      assert forall k :: 1 <= k < |pages| ==> pages[k] == pages[1..][k - 1];
    }
  }

  /**
   * One input item, as the body of the `try` in `execute`: an unknown
   * operation or a missing PDF throws before anything is rendered; a bad
   * page range or a failing renderer call throws before any record is
   * pushed; then the images are packaged.
   */
  function ConvertItem(item: InItem, p: NodeParams, host: Host): (o: ItemOutcome)
    ensures p.operation != Convert ==> o == Aborted([], UnknownOperation(p.operation))
    ensures p.operation == Convert && p.pdfBinaryProperty !in item.binaryKeys ==>
              o == Aborted([], host.missingBinary(p.pdfBinaryProperty))
    ensures forall j :: 0 <= j < |o.Pushed()| ==> o.Pushed()[j].Page? && o.Pushed()[j].input == item.json && o.Pushed()[j].prop == p.outputBinaryProperty
  {
    if p.operation != Convert then Aborted([], UnknownOperation(p.operation))
    else if p.pdfBinaryProperty !in item.binaryKeys then Aborted([], host.missingBinary(p.pdfBinaryProperty))
    else
      match host.stage(item, p.pdfBinaryProperty)
      case Err(e) => Aborted([], e)
      case Ok(st) =>
        var options := BuildOptions(p, st.tempDir);
        if p.convertAllPages then
          match host.convert(st.pdfPath, options)
          case Err(e) => Aborted([], e)
          case Ok(paths) => Package(item.json, paths, p.format, p.outputBinaryProperty, host.files)
        else
          match ParsePageRange(p.pageRange)
          case Err(e) => Aborted([], e)
          case Ok(pages) => RangeMode(item, p, host, st, pages)
  }

  /** Range mode once the pages are known: one renderer call per page, then the packaging loop. */
  function RangeMode(item: InItem, p: NodeParams, host: Host, st: Staging, pages: seq<nat>): (o: ItemOutcome)
    ensures forall j :: 0 <= j < |o.Pushed()| ==> o.Pushed()[j].Page? && o.Pushed()[j].input == item.json && o.Pushed()[j].prop == p.outputBinaryProperty
  {
    match RenderRange(host, st.pdfPath, BuildOptions(p, st.tempDir), pages)
    case Err(e) => Aborted([], e)
    case Ok(paths) => Package(item.json, paths, p.format, p.outputBinaryProperty, host.files)
  }

  /**
   * All-pages mode is one renderer call on the whole document: its failure
   * fails the item before any record is pushed, and its image paths go
   * straight to the packaging loop.
   */
  lemma {:induction false} AllPagesMode(item: InItem, p: NodeParams, host: Host, st: Staging)
    requires Staged(item, p, host.stage, st) && p.convertAllPages
    ensures var call := host.convert(st.pdfPath, BuildOptions(p, st.tempDir));
      && (call.Err? ==> ConvertItem(item, p, host) == Aborted([], call.error))
      && (call.Ok? ==> ConvertItem(item, p, host) == Package(item.json, call.value, p.format, p.outputBinaryProperty, host.files))
  {
  }

  /** With its pages parsed, an item runs range mode on them. */
  lemma {:induction false} ParsedRangeMode(item: InItem, p: NodeParams, host: Host, st: Staging, pages: seq<nat>)
    requires Staged(item, p, host.stage, st) && !p.convertAllPages && ParsePageRange(p.pageRange) == Ok(pages)
    ensures ConvertItem(item, p, host) == RangeMode(item, p, host, st, pages)
  {
  }

  /**
   * When each requested page renders to one image and every image reads,
   * range mode yields one record per requested page, numbered by position:
   * record `k` is page `k + 1` of `|pages|`, whichever document page it shows.
   */
  lemma {:induction false} RangeModeNumbering(item: InItem, p: NodeParams, host: Host, st: Staging, pages: seq<nat>)
    requires forall k :: 0 <= k < |pages| ==>
      var call := host.convert(st.pdfPath, PageOptions(BuildOptions(p, st.tempDir), pages[k]));
      call.Ok? && |call.value| == 1 && host.files.readFile(call.value[0]).Ok?
    ensures var o := RangeMode(item, p, host, st, pages);
      o.Done? && |o.items| == |pages| &&
      forall k :: 0 <= k < |pages| ==>
        o.items[k].Page? && o.items[k].pageNumber == k + 1 && o.items[k].totalPages == |pages|
  {
    var options := BuildOptions(p, st.tempDir);
    OneImagePerPage(host, st.pdfPath, options, pages);
    var paths := RenderRange(host, st.pdfPath, options, pages).value;
    assert forall k :: 0 <= k < |paths| ==> host.files.readFile(paths[k]).Ok?;
    PackageNumbering(item.json, paths, p.format, p.outputBinaryProperty, host.files);
  }

  /** A page range that does not parse fails the item with the parser's message, before any record is pushed. */
  lemma {:induction false} BadRangeFailsItem(item: InItem, p: NodeParams, host: Host, st: Staging)
    requires Staged(item, p, host.stage, st) && !p.convertAllPages && ParsePageRange(p.pageRange).Err?
    ensures ConvertItem(item, p, host) == Aborted([], ParsePageRange(p.pageRange).error)
  {
  }

  /** A failing renderer call in range mode drops the pages already rendered: the item pushes nothing. */
  lemma {:induction false} RenderFailureKeepsNothing(item: InItem, p: NodeParams, host: Host, st: Staging, pages: seq<nat>, k: nat)
    requires k < |pages| && host.convert(st.pdfPath, PageOptions(BuildOptions(p, st.tempDir), pages[k])).Err?
    ensures RangeMode(item, p, host, st, pages).Aborted? && RangeMode(item, p, host, st, pages).emitted == []
  {
    var cs := Calls(host, st.pdfPath, BuildOptions(p, st.tempDir), pages);
    assert cs[k].Err?;
  }

  /**
   * `execute`: converts every item with its own parameters and returns the
   * output as a single list, `[returnData]`. With continue-on-fail it never
   * throws; without it, it throws the first failing item's error.
   */
  function Execute(items: seq<InItem>, params: seq<NodeParams>, continueOnFail: bool, host: Host): (r: Result<seq<seq<OutItem>>>)
    requires |params| == |items|
    ensures continueOnFail ==> r.Ok?
    ensures !continueOnFail ==> (r.Ok? <==> Batch.FirstAborted(Outcomes(items, params, host)) == |items|)
    ensures r.Ok? ==> r.value == [Flatten(Batch.Blocks(Batch.Jsons(items), Outcomes(items, params, host)))]
    ensures r.Err? ==>
      var os := Outcomes(items, params, host);
      var k := Batch.FirstAborted(os);
      k < |items| && os[k].Aborted? && os[k].error == r.error && forall j :: 0 <= j < k ==> os[j].Done?
  {
    var outcomes := Outcomes(items, params, host);
    var out :- Batch.Run(Batch.Jsons(items), outcomes, continueOnFail);
    Ok([out])
  }

  /** What converting each item does. */
  function Outcomes(items: seq<InItem>, params: seq<NodeParams>, host: Host): (os: seq<ItemOutcome>)
    requires |params| == |items|
    ensures |os| == |items| && forall k :: 0 <= k < |items| ==> os[k] == ConvertItem(items[k], params[k], host)
  {
    seq(|items|, k requires 0 <= k < |items| => ConvertItem(items[k], params[k], host))
  }

  /**
   * Under continue-on-fail, each failed item leaves exactly one error
   * record, and the run's output holds exactly as many error records as
   * items failed.
   */
  lemma {:induction false} ExecuteErrorRecords(items: seq<InItem>, params: seq<NodeParams>, host: Host)
    requires |params| == |items|
    ensures Execute(items, params, true, host).Ok?
    ensures Batch.FailedCount(Execute(items, params, true, host).value[0]) ==
            Batch.AbortedCount(Outcomes(items, params, host))
  {
    var outcomes := Outcomes(items, params, host);
    Batch.ErrorRecordCount(Batch.Jsons(items), outcomes);
  }
}
