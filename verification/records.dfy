/**
 * The items `execute` emits, and the loop that turns the rendered image
 * paths of one input item into one output item per image.
 */
module Records {
  import opened Results
  import opened Decimal
  import opened Params

  /** A file-system path, as the renderer returns it. */
  type Path = string

  /** The raw contents of an image file. */
  type Bytes = seq<bv8>

  /** A JSON value: the node writes numbers and strings; input values are carried through untouched. */
  datatype JsonValue = JNumber(number: int) | JString(text: string) | JOther(id: nat)

  /** An item's `json` object. Key order is not modelled. */
  type Json = map<string, JsonValue>

  /** One entry of an item's `binary` object. */
  datatype Binary = Binary(data: string, mimeType: string, fileName: string, fileExtension: string)

  /** An input item: its JSON and the names of the binary properties it carries. */
  datatype InItem = InItem(json: Json, binaryKeys: set<string>)

  /**
   * An output item. A rendered page is kept as the parts it is built from:
   * the input item's JSON, its position and the number of images, the
   * output format, the binary property it goes under and the base64 image;
   * `JsonObject` and `BinaryObject` give the `json` and `binary` objects
   * n8n sees. An error record, left by continue-on-fail for a failed
   * input item, is the input JSON and the error message.
   */
  datatype OutItem =
    | Page(input: Json, pageNumber: nat, totalPages: nat, format: string, prop: string, data: string)
    | Failed(json: Json, error: string)
  {
    /** The item's `json` object: for a page, the input JSON with the page keys written over it. */
    function JsonObject(): Json {
      match this
      case Page(input, k, total, format, _, _) =>
        input["pageNumber" := JNumber(k)]["totalPages" := JNumber(total)]["fileName" := JString(PageFileName(k, format))]
      case Failed(json, _) => json
    }

    /** The item's `binary` object: for a page, the image under the output property. */
    function BinaryObject(): map<string, Binary> {
      match this
      case Page(_, k, _, format, prop, data) => map[prop := Binary(data, MimeType(format), PageFileName(k, format), format)]
      case Failed(_, _) => map[]
    }
  }

  /**
   * What converting one input item did to the output list: it either
   * finished, having pushed `items`, or threw `error` after having
   * already pushed `emitted`.
   */
  datatype ItemOutcome = Done(items: seq<OutItem>) | Aborted(emitted: seq<OutItem>, error: string) {

    /** The records this item left in the output list before it finished or threw. */
    function Pushed(): seq<OutItem> {
      match this
      case Done(items) => items
      case Aborted(emitted, _) => emitted
    }

    /** The same outcome with `item` pushed before everything else. */
    function Prepend(item: OutItem): (o: ItemOutcome)
      ensures o.Done? == this.Done? && (o.Aborted? ==> o.error == this.error)
      ensures o.Pushed() == [item] + this.Pushed()
    {
      match this
      case Done(items) => Done([item] + items)
      case Aborted(emitted, e) => Aborted([item] + emitted, e)
    }
  }

  /** Reading an image file and encoding it as base64, both outside the model. */
  datatype Files = Files(readFile: Path -> Result<Bytes>, base64: Bytes -> string)

  /** The scratch directory made for one item, and the path its PDF was written to. */
  datatype Staging = Staging(tempDir: Path, pdfPath: Path)

  /**
   * The facts about an item that let `execute` reach the renderer: the
   * operation is `convert`, the item carries the PDF under the configured
   * binary property, and `stage` wrote it out to `st`.
   */
  predicate Staged(item: InItem, p: NodeParams, stage: (InItem, string) -> Result<Staging>, st: Staging) {
    p.operation == Convert && p.pdfBinaryProperty in item.binaryKeys && stage(item, p.pdfBinaryProperty) == Ok(st)
  }

  /** The JSON keys the node writes over the input item's own. */
  const PageKeys: set<string> := {"pageNumber", "totalPages", "fileName"}

  function MimeType(format: string): (m: string)
    ensures m == "image/png" <==> format == "png"
    ensures m != "image/png" ==> m == "image/jpeg"
  {
    if format == "png" then "image/png" else "image/jpeg"
  }

  /** `page_${k}.${format}`. */
  function PageFileName(k: nat, format: string): string {
    "page_" + NatToString(k) + "." + format
  }

  /**
   * What a page record shows n8n: the input JSON's keys plus the page keys;
   * its position, the number of images and its file name under the page
   * keys; the input JSON under every other key; and exactly one binary
   * entry, the image with the format's MIME type, its file name and the
   * format as extension.
   */
  lemma PageObjects(it: OutItem)
    requires it.Page?
    ensures it.JsonObject().Keys == it.input.Keys + PageKeys
    ensures it.JsonObject()["pageNumber"] == JNumber(it.pageNumber)
    ensures it.JsonObject()["totalPages"] == JNumber(it.totalPages)
    ensures it.JsonObject()["fileName"] == JString(PageFileName(it.pageNumber, it.format))
    ensures forall key :: key in it.input.Keys - PageKeys ==> it.JsonObject()[key] == it.input[key]
    ensures it.BinaryObject().Keys == {it.prop}
    ensures it.BinaryObject()[it.prop] == Binary(it.data, MimeType(it.format), PageFileName(it.pageNumber, it.format), it.format)
  {
  }

  /** A record's file name gives back its page number, so no two images of an item share a name. */
  lemma {:induction false} PageFileNameInjective(j: nat, k: nat, format: string)
    ensures PageFileName(j, format) == PageFileName(k, format) ==> j == k
  {
    var dj, dk := NatToString(j), NatToString(k);
    var tail := "." + format;
    var nj, nk := PageFileName(j, format), PageFileName(k, format);
    assert nj == "page_" + (dj + tail) && nk == "page_" + (dk + tail);
    assert nj[5..] == dj + tail && nk[5..] == dk + tail;
    if nj == nk {
      NumeralThenDot(dj, dk, tail);
    }
  }

  /** A numeral followed by a non-digit is determined by the text it starts. */
  lemma {:induction false} NumeralThenDot(a: string, b: string, tail: string)
    requires AllDigits(a) && AllDigits(b) && |tail| >= 1 && !IsDigit(tail[0])
    requires a + tail == b + tail
    ensures a == b
  {
    var m := if |a| <= |b| then |a| else |b|;
    assert IsDigit((a + tail)[m]) <==> m < |a|;
    assert IsDigit((b + tail)[m]) <==> m < |b|;
    assert |a| == |b|;
    assert a == (a + tail)[..|a|];
    assert b == (b + tail)[..|b|];
  }

  /** How many files, from the front, read successfully: the index of the first failing read, if any. */
  function ReadCount(files: Files, rest: seq<Path>): (n: nat)
    ensures n <= |rest|
    ensures forall j :: 0 <= j < n ==> files.readFile(rest[j]).Ok?
    ensures n < |rest| ==> files.readFile(rest[n]).Err?
  {
    if |rest| == 0 || files.readFile(rest[0]).Err? then 0
    else
      var n := ReadCount(files, rest[1..]);
      assert forall j :: 1 <= j < |rest| ==> rest[j] == rest[1..][j - 1];
      1 + n
  }

  /**
   * The packaging loop over `rest`, whose first image is page `first` of
   * `total`: reads each file in turn and pushes its record, stopping at
   * the first read that fails with the records pushed so far.
   */
  function PackFrom(base: Json, rest: seq<Path>, first: nat, total: nat, format: string, prop: string, files: Files): (o: ItemOutcome)
    ensures o.Done? <==> ReadCount(files, rest) == |rest|
    ensures o.Aborted? ==> o.error == files.readFile(rest[ReadCount(files, rest)]).error
    ensures |o.Pushed()| == ReadCount(files, rest)
    ensures forall j :: 0 <= j < |o.Pushed()| ==>
              o.Pushed()[j].Page? && o.Pushed()[j] == Page(base, first + j, total, format, prop, o.Pushed()[j].data)
    decreases |rest|
  {
    if |rest| == 0 then Done([])
    else
      var read := files.readFile(rest[0]);
      if read.Err? then Aborted([], read.error)
      else
        var item := Page(base, first, total, format, prop, files.base64(read.value));
        var tail := PackFrom(base, rest[1..], first + 1, total, format, prop, files);
        assert ReadCount(files, rest) == 1 + ReadCount(files, rest[1..]);
        tail.Prepend(item)
  }

  /** Record `j` of the packaging loop holds the image read from `rest[j]`. */
  lemma {:induction false} PackFromData(base: Json, rest: seq<Path>, first: nat, total: nat, format: string, prop: string, files: Files, j: nat)
    requires j < ReadCount(files, rest)
    ensures PackFrom(base, rest, first, total, format, prop, files).Pushed()[j].data == files.base64(files.readFile(rest[j]).value)
    decreases j
  {
    var tail := PackFrom(base, rest[1..], first + 1, total, format, prop, files);
    assert ReadCount(files, rest) == 1 + ReadCount(files, rest[1..]);
    if j > 0 {
      PackFromData(base, rest[1..], first + 1, total, format, prop, files, j - 1);
      assert rest[1..][j - 1] == rest[j];
    }
  }

  /** The packaging loop over all of `paths`: the image at index `k` becomes page `k + 1` of `|paths|`. */
  function Package(base: Json, paths: seq<Path>, format: string, prop: string, files: Files): (o: ItemOutcome)
    ensures o.Done? <==> forall k :: 0 <= k < |paths| ==> files.readFile(paths[k]).Ok?
    ensures o.Done? ==> |o.items| == |paths|
    ensures o.Aborted? ==> |o.emitted| < |paths| && files.readFile(paths[|o.emitted|]) == Err(o.error)
    ensures o.Aborted? ==> forall j :: 0 <= j < |o.emitted| ==> files.readFile(paths[j]).Ok?
    ensures forall j :: 0 <= j < |o.Pushed()| ==>
              o.Pushed()[j].Page? && o.Pushed()[j].input == base && o.Pushed()[j].format == format && o.Pushed()[j].prop == prop
  {
    PackFrom(base, paths, 1, |paths|, format, prop, files)
  }

  /**
   * Every record of a finished item names its position, not the source
   * page: record `k` is page `k + 1` of `|paths|` and holds the image read
   * from `paths[k]`; no two records share a file name.
   */
  lemma {:induction false} PackageNumbering(base: Json, paths: seq<Path>, format: string, prop: string, files: Files)
    requires Package(base, paths, format, prop, files).Done?
    ensures var items := Package(base, paths, format, prop, files).items;
      |items| == |paths| &&
      forall k :: 0 <= k < |items| ==>
        && items[k].Page? && items[k].input == base
        && items[k].pageNumber == k + 1 && items[k].totalPages == |paths|
        && items[k].data == files.base64(files.readFile(paths[k]).value)
    ensures var items := Package(base, paths, format, prop, files).items;
      forall j, k :: 0 <= j < k < |items| ==>
        PageFileName(items[j].pageNumber, format) != PageFileName(items[k].pageNumber, format)
  {
    var o := Package(base, paths, format, prop, files);
    assert o.items == o.Pushed();
    forall k | 0 <= k < |o.items| {
      PackFromData(base, paths, 1, |paths|, format, prop, files, k);
    }
    forall j, k | 0 <= j < k < |o.items|
      ensures PageFileName(o.items[j].pageNumber, format) != PageFileName(o.items[k].pageNumber, format)
    {
      PageFileNameInjective(j + 1, k + 1, format);
    }
  }

  /**
   * Record `k` of a finished item as n8n sees it: page `k + 1` of
   * `|paths|`, named `page_{k+1}.format`, the image read from `paths[k]`
   * with the format's MIME type and extension, and the input JSON under
   * every other key.
   */
  lemma PackagedPage(base: Json, paths: seq<Path>, format: string, prop: string, files: Files, k: nat)
    requires Package(base, paths, format, prop, files).Done? && k < |paths|
    ensures var it := Package(base, paths, format, prop, files).items[k];
      var json, binary := it.JsonObject(), it.BinaryObject();
      && it.Page? && it.pageNumber == k + 1 && PageKeys <= json.Keys && binary.Keys == {prop}
      && json["pageNumber"] == JNumber(k + 1)
      && json["totalPages"] == JNumber(|paths|)
      && json["fileName"] == JString(PageFileName(k + 1, format))
      && binary[prop] == Binary(files.base64(files.readFile(paths[k]).value), MimeType(format), PageFileName(k + 1, format), format)
      && (forall key :: key in base.Keys - PageKeys ==> json[key] == base[key])
  {
    var o := Package(base, paths, format, prop, files);
    assert o.items == o.Pushed();
    PackFromData(base, paths, 1, |paths|, format, prop, files, k);
    PageObjects(o.items[k]);
  }

  /** A read failure keeps the records of the images before it: the first `k` records of the finished list. */
  lemma {:induction false} PackageAbortKeepsPrefix(base: Json, paths: seq<Path>, format: string, prop: string, files: Files, k: nat)
    requires k < |paths| && files.readFile(paths[k]).Err?
    requires forall j :: 0 <= j < k ==> files.readFile(paths[j]).Ok?
    ensures var o := Package(base, paths, format, prop, files);
      o == Aborted(o.emitted, files.readFile(paths[k]).error) && |o.emitted| == k &&
      forall j :: 0 <= j < k ==>
        o.emitted[j] == Page(base, j + 1, |paths|, format, prop, files.base64(files.readFile(paths[j]).value))
  {
    var o := Package(base, paths, format, prop, files);
    assert ReadCount(files, paths) == k;
    assert o.emitted == o.Pushed();
    forall j | 0 <= j < k {
      PackFromData(base, paths, 1, |paths|, format, prop, files, j);
    }
  }
}
