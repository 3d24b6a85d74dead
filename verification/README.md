# Pdf2Image node: a Dafny model

This project models the n8n community node Pdf2Image. The node takes a PDF from an
input item's binary data and renders its pages to PNG or JPEG images. Each image
becomes one output item: the input JSON plus `pageNumber`, `totalPages` and
`fileName`, with the image under the chosen output binary property.

The repository ships the node twice:

- `Pdf2Image.node.ts` renders with pdf-poppler.
- `Pdf2Image.node.js` renders with pdf2pic.

The two share the page-range parser, the per-image packaging, and the
per-item `try`/`catch` with n8n's continue-on-fail switch. They differ in the
renderer options, in how range mode calls the renderer, in the `.js`
single-result branch, and in the shape of the value `execute` returns.

The modules follow that structure:

- `Results`, `Seqs`: `Option`/`Result`, and helpers over sequences of results.
- `JsText`: JavaScript's `trim` and `split` on one character.
- `Decimal`: decimal numerals and `parseInt(s, 10)`.
- `PageRange`: `parsePageRange`.
- `PageRangeLaws`: properties of `parsePageRange` over all inputs.
- `PageRangeExamples`: the parser on concrete specs.
- `Params`: the node parameters.
- `Records`: output items and the image-packaging loop.
- `Batch`: the item loop with continue-on-fail.
- `PopplerNode`: the `.ts` node.
- `Pdf2PicNode`: the `.js` node.

An output item is kept as the parts it is built from. A page record holds
the input JSON, its position, the number of images, the format, the output
property and the base64 data. `JsonObject` and `BinaryObject` give the
`json` and `binary` objects n8n sees (`Records.PageObjects`). An error
record holds the input JSON and the error message.

Everything outside the node is a parameter. This covers the temporary
directory and the PDF write, the renderer, file reads, base64 encoding and
n8n's missing-binary error. Each is a total function in a `Host` or `Files`
value, so every property holds for every behaviour of them.

Some of the node's behaviour at the edges, as the code has it:

- **An empty page range is an error.** `"".split(',')` is `[""]`, and
  `parseInt("")` is `NaN`. So `""` fails with `Invalid page number: `
  (`PageRangeExamples.EmptySpecRejected`). It does not mean "no pages".
- **A failed image read does not replace the item's earlier records.** The
  images read before it have already been pushed and stay in the output.
  Under continue-on-fail the error record follows them
  (`Records.PackageAbortKeepsPrefix`, `Batch.FailedItemInPlace`).
- **`totalPages` counts rendered images, not requested pages.** It equals the
  number of requested pages when, for example, each renderer call yields
  exactly one image (`PopplerNode.RangeModeNumbering`). A single pdf-poppler call may
  return several paths.
- **`pageNumber` is a position, not a page number.** It is the image's
  position in the list (1, 2, …), not the document page it shows.
- **A range uses only its first two hyphen pieces.** `1-2-3` reads as
  `1-2`, because the destructuring assignment ignores the rest.
- **Text after a number is ignored.** `2abc` reads as page 2, because
  `parseInt` stops at the first non-digit.
- **The `.ts` reads `quality` and never uses it.** `Pdf2Image.node.ts:202`
  reads the parameter, but the pdf-poppler options carry no quality, so
  `PopplerNode.BuildOptions` has no quality field.

## Model

| member | source | states |
|---|---|---|
| JsText.Trim | nodes/Pdf2Image/Pdf2Image.node.ts:326 | `trim` leaves text with no whitespace at either end, never longer than its input |
| JsText.TrimPadded | nodes/Pdf2Image/Pdf2Image.node.ts:326 | whitespace on both sides of trimmed text is exactly what `trim` removes |
| JsText.TrimIsInfix | nodes/Pdf2Image/Pdf2Image.node.ts:326 | what `trim` keeps is a contiguous part of the input, and everything it drops is whitespace |
| JsText.TrimIdempotent | nodes/Pdf2Image/Pdf2Image.node.ts:326 | trimming twice is trimming once |
| JsText.Split | nodes/Pdf2Image/Pdf2Image.node.ts:323 | `split` returns at least one piece; no piece holds the separator; joining the pieces with the separator gives back the input; there is one piece exactly when the separator does not occur |
| JsText.SplitJoin | nodes/Pdf2Image/Pdf2Image.node.ts:323 | splitting a join of separator-free pieces gives the pieces back |
| JsText.SplitAtFirst | nodes/Pdf2Image/Pdf2Image.node.ts:330 | the text before the first separator is the first piece, and the rest splits independently |
| Decimal.NatToString | nodes/Pdf2Image/Pdf2Image.node.ts:269 | the numeral JavaScript prints for a page number: non-empty, all digits, `0` for zero and no leading zero otherwise, and its value is the number |
| Decimal.ParseInt | nodes/Pdf2Image/Pdf2Image.node.ts:330-339 | `parseInt(s, 10)` gives a number exactly when, after leading whitespace, the text starts with a digit or with `+` and a digit; its value is stated by `Decimal.ParseIntNumeral`, `Decimal.ParseIntNaN` and `Decimal.ParseIntNatToString` |
| Decimal.ParseIntNumeral | nodes/Pdf2Image/Pdf2Image.node.ts:339 | `parseInt` skips leading whitespace and an optional `+`, then reads the maximal run of digits, ignoring what follows |
| Decimal.ParseIntNaN | nodes/Pdf2Image/Pdf2Image.node.ts:339-341 | `parseInt` gives `NaN` when no digit follows the whitespace and optional sign |
| Decimal.ParseIntNatToString | nodes/Pdf2Image/Pdf2Image.node.ts:339 | a printed page number reads back as the same number |
| PageRange.ParseToken | nodes/Pdf2Image/Pdf2Image.node.ts:326-344 | one comma piece, trimmed: it reads as a range exactly when it holds `-`, and an accepted range never runs backwards; a piece without `-` is accepted exactly when `parseInt` reads a number from it, and that number is its page; a rejected piece is reported by its trimmed text, as `Invalid page range` when it holds `-` and as `Invalid page number` otherwise; which one-hyphen pieces are accepted is stated by `PageRangeLaws.OneHyphenPiece`, and round trips by `PageRangeLaws.SinglePageRoundTrip` and `PageRangeLaws.RangeRoundTrip` |
| PageRange.TokenNamesPages | nodes/Pdf2Image/Pdf2Image.node.ts:328-343 | an accepted piece names at least one page |
| PageRange.ParseTokens | nodes/Pdf2Image/Pdf2Image.node.ts:325-345 | all pieces are read in order; the list fails exactly when some piece fails, and the first failing piece supplies the error; on success token `k` is what piece `k` reads as |
| PageRange.Interval | nodes/Pdf2Image/Pdf2Image.node.ts:334-336 | the range loop pushes `b - a + 1` pages, `a, a+1, …, b`, and nothing when `a > b` |
| PageRange.Expand | nodes/Pdf2Image/Pdf2Image.node.ts:334-343 | what one piece pushes is exactly the set of pages it names |
| PageRange.Dedup | nodes/Pdf2Image/Pdf2Image.node.ts:347 | `new Set` keeps every value once and loses none |
| PageRange.Sort | nodes/Pdf2Image/Pdf2Image.node.ts:347 | the numeric sort returns an ascending permutation of its input |
| PageRange.InsertPermutes | nodes/Pdf2Image/Pdf2Image.node.ts:347 | inserting a value into a sorted list adds exactly that value and loses nothing, so the sort is a permutation |
| PageRange.ParsePageRange | nodes/Pdf2Image/Pdf2Image.node.ts:321-348 | a spec is accepted exactly when every comma piece is; the error is the first bad piece's error; the result is strictly ascending, non-empty, and holds exactly the pages the pieces name |
| PageRangeLaws.StrictlyAscendingUnique | nodes/Pdf2Image/Pdf2Image.node.ts:347 | a sorted list without repeats is determined by its set of values, so the parser's output is determined by the pages named |
| PageRangeLaws.ParsePageRangeOfPieces | nodes/Pdf2Image/Pdf2Image.node.ts:321-348 | comma-joined pieces that read as given tokens parse to the one ascending, repeat-free list of the pages those tokens name |
| PageRangeLaws.OnePieceSpec | nodes/Pdf2Image/Pdf2Image.node.ts:321-348 | a spec without a comma reads as exactly the pages its one piece pushes, or fails with that piece's error |
| PageRangeLaws.FirstBadPieceDecides | nodes/Pdf2Image/Pdf2Image.node.ts:325-345 | the earliest unreadable piece decides the whole spec's error, whatever follows it |
| PageRangeLaws.SinglePageRoundTrip | nodes/Pdf2Image/Pdf2Image.node.ts:339-343 | a printed page number, with any whitespace around it, reads as that single page |
| PageRangeLaws.RangeRoundTrip | nodes/Pdf2Image/Pdf2Image.node.ts:328-336 | `a-b`, with whitespace allowed around the piece and around the hyphen, reads as the range `a..b` when `a <= b` and fails with `Invalid page range` naming the trimmed piece otherwise |
| PageRangeLaws.TrailingTextIgnored | nodes/Pdf2Image/Pdf2Image.node.ts:326-343 | a number followed by any hyphen-free text that does not start with a digit, trailing whitespace included, reads as that page |
| PageRangeLaws.OneHyphenPiece | nodes/Pdf2Image/Pdf2Image.node.ts:328-333 | a piece with one hyphen is accepted exactly when both trimmed sides read as numbers and start <= end; it is then the range between them, otherwise `Invalid page range: ` with the piece |
| PageRangeLaws.NonNumericPieceRejected | nodes/Pdf2Image/Pdf2Image.node.ts:328-342 | a piece whose trimmed text is empty, or starts with anything but a digit or `+`, is rejected |
| PageRangeLaws.TrailingHyphenRejected | nodes/Pdf2Image/Pdf2Image.node.ts:330-333 | a piece ending in its only hyphen (`3-`) is rejected for its missing end |
| PageRangeLaws.ExtraRangePiecesIgnored | nodes/Pdf2Image/Pdf2Image.node.ts:326-336 | anything after a second hyphen in a range is ignored: for any hyphen-free `a` and `b` and any `rest`, whitespace included, `a-b-rest` is accepted exactly when `a-b` is, as the same range |
| PageRangeLaws.ReadBack | nodes/Pdf2Image/Pdf2Image.node.ts:321-348 | printing any non-empty list of pages with commas and parsing it gives the list's sorted, repeat-free form |
| PageRangeLaws.ParsePageRangeIdempotent | nodes/Pdf2Image/Pdf2Image.node.ts:321-348 | a parse result printed with commas parses back to itself |
| PageRangeExamples.SinglePageExample | nodes/Pdf2Image/Pdf2Image.node.ts:339-343 | `3` parses to `[3]` |
| PageRangeExamples.PageListExample | nodes/Pdf2Image/Pdf2Image.node.ts:321-348 | `1,3,5` parses to `[1, 3, 5]` |
| PageRangeExamples.RangeExample | nodes/Pdf2Image/Pdf2Image.node.ts:328-336 | `1-3` parses to `[1, 2, 3]` |
| PageRangeExamples.OverlapExample | nodes/Pdf2Image/Pdf2Image.node.ts:347 | `1-3,2,5` parses to `[1, 2, 3, 5]`: overlaps are merged |
| PageRangeExamples.BackwardsRangeRejected | nodes/Pdf2Image/Pdf2Image.node.ts:331-333 | `5-2` fails with `Invalid page range: 5-2` |
| PageRangeExamples.EmptySpecRejected | nodes/Pdf2Image/Pdf2Image.node.ts:339-341 | the empty spec fails with `Invalid page number: ` |
| PageRangeExamples.WordRejected | nodes/Pdf2Image/Pdf2Image.node.ts:339-341 | `x` fails with `Invalid page number: x` |
| PageRangeExamples.MissingStartRejected | nodes/Pdf2Image/Pdf2Image.node.ts:331-333 | `-3` fails with `Invalid page range: -3` |
| PageRangeExamples.MissingEndRejected | nodes/Pdf2Image/Pdf2Image.node.ts:331-333 | `3-` fails with `Invalid page range: 3-` |
| PageRangeExamples.TrailingCommaRejected | nodes/Pdf2Image/Pdf2Image.node.ts:323-341 | `1,` fails on its empty last piece with `Invalid page number: ` |
| PageRangeExamples.ExtraPiecesExample | nodes/Pdf2Image/Pdf2Image.node.ts:330 | `1-2-3` parses to `[1, 2]` |
| PageRangeExamples.TrailingTextExample | nodes/Pdf2Image/Pdf2Image.node.ts:339 | `2abc` parses to `[2]` |
| Records.MimeType | nodes/Pdf2Image/Pdf2Image.node.ts:273 | the MIME type is `image/png` exactly for the `png` format, and `image/jpeg` for every other format |
| Records.PageObjects | nodes/Pdf2Image/Pdf2Image.node.ts:269-288 | a page record's JSON has the input's keys plus `pageNumber`, `totalPages` and `fileName`, with its position, the image count and `page_{k}.{format}` under those keys and the input's value under every other key; its binary object has exactly one entry, under the output property, holding the image's data, MIME type, file name and extension |
| Records.PageFileNameInjective | nodes/Pdf2Image/Pdf2Image.node.ts:269 | `page_{k}.{format}` determines `k` |
| Records.PackFrom | nodes/Pdf2Image/Pdf2Image.node.ts:265-291 | the packaging loop pushes one record per image read, in order, and stops at the first failed read with that read's error |
| Records.Package | nodes/Pdf2Image/Pdf2Image.node.ts:265-291 | packaging finishes exactly when every image reads, with one record per image; otherwise it throws the error of the first image that fails to read |
| Records.PackageNumbering | nodes/Pdf2Image/Pdf2Image.node.ts:265-291 | record `k` is page `k + 1` of all images, built on the input JSON, and holds the image read from path `k`; no two records share a file name |
| Records.PackagedPage | nodes/Pdf2Image/Pdf2Image.node.ts:265-291 | as n8n sees it, record `k` carries `pageNumber` `k + 1`, `totalPages` the image count and `fileName` `page_{k+1}.{format}` over the input's other JSON keys, and one binary entry with image `k`'s data, the format's MIME type and extension |
| Records.PackageAbortKeepsPrefix | nodes/Pdf2Image/Pdf2Image.node.ts:265-291 | when image `k` is the first that fails to read, the item throws that error with exactly the records of images `0..k-1` already pushed |
| Batch.FirstAborted | nodes/Pdf2Image/Pdf2Image.node.ts:195-316 | the first item that threw: every item before it finished |
| Batch.Run | nodes/Pdf2Image/Pdf2Image.node.ts:195-318 | with continue-on-fail every item runs and the output is each item's records followed by an error record if it threw; without it the run fails exactly when some item throws, with the first such item's error |
| Batch.RunAllDone | nodes/Pdf2Image/Pdf2Image.node.ts:195-318 | when no item throws, the output is every item's records in input order, whatever the switch |
| Batch.FailedItemInPlace | nodes/Pdf2Image/Pdf2Image.node.ts:306-312 | under continue-on-fail, a failed item's error record, carrying its input JSON and error, follows the earlier items' output and the records it had pushed |
| Batch.FailedThenDone | nodes/Pdf2Image/Pdf2Image.node.ts:306-314 | a failing first item and a good second item: with continue-on-fail the output is the error record then the second item's records; without it the run throws the first item's error |
| Batch.ErrorRecordCount | nodes/Pdf2Image/Pdf2Image.node.ts:306-312 | under continue-on-fail the output holds exactly one error record per failed item |
| PopplerNode.BuildOptions | nodes/Pdf2Image/Pdf2Image.node.ts:223-242 | pdf-poppler's options: `png` exactly when PNG is asked for, else `jpeg`; prefix `page` in the temporary directory; a resolution flag exactly for a set density other than 150; a size exactly when width or height is set, with each dimension present exactly when it is set |
| PopplerNode.DensityFlagRoundTrip | nodes/Pdf2Image/Pdf2Image.node.ts:232 | the resolution flag `-r <density>` carries the density as a number |
| PopplerNode.PageOptions | nodes/Pdf2Image/Pdf2Image.node.ts:254-258 | a page's options are the document's options with first and last page set to that page, and nothing else changed |
| PopplerNode.RenderRange | nodes/Pdf2Image/Pdf2Image.node.ts:253-261 | range mode makes one renderer call per page, in order, and concatenates their images; it fails exactly when some call fails, with the first failure's error |
| PopplerNode.OneImagePerPage | nodes/Pdf2Image/Pdf2Image.node.ts:253-261 | when each call gives exactly one image, range mode yields one image per requested page, in page order |
| PopplerNode.ConvertItem | nodes/Pdf2Image/Pdf2Image.node.ts:197-304 | an unknown operation, or a missing PDF property, throws before anything is rendered, with the matching message; an item only pushes page records built on its JSON under the output property; the two modes are stated by `PopplerNode.AllPagesMode`, `PopplerNode.ParsedRangeMode` and `PopplerNode.BadRangeFailsItem` |
| PopplerNode.RangeMode | nodes/Pdf2Image/Pdf2Image.node.ts:251-291 | range mode only pushes page records built on the item's JSON, under the output property |
| PopplerNode.AllPagesMode | nodes/Pdf2Image/Pdf2Image.node.ts:246-248 | with `convertAllPages` on, a failing renderer call fails the item with its error and nothing pushed; otherwise the item is the packaging loop over the images the call returns |
| PopplerNode.ParsedRangeMode | nodes/Pdf2Image/Pdf2Image.node.ts:246-251 | an item that reaches the renderer with `convertAllPages` off and a page range that parses runs range mode on exactly the parsed pages |
| PopplerNode.RangeModeNumbering | nodes/Pdf2Image/Pdf2Image.node.ts:251-291 | in range mode, with one image per page and every read succeeding, the item yields one record per requested page; record `k` is page `k + 1` of the number of requested pages |
| PopplerNode.BadRangeFailsItem | nodes/Pdf2Image/Pdf2Image.node.ts:251 | a page range that does not parse fails the item with the parser's message, before any record is pushed |
| PopplerNode.RenderFailureKeepsNothing | nodes/Pdf2Image/Pdf2Image.node.ts:253-261 | when any renderer call in range mode fails, range mode fails with nothing pushed |
| PopplerNode.Execute | nodes/Pdf2Image/Pdf2Image.node.ts:191-319 | with continue-on-fail `execute` never throws; without it, it throws exactly when some item throws, with the first such item's error, every earlier item having finished; when it returns, its result is one list holding each item's block of records in input order, where a failed item's block ends with its error record |
| PopplerNode.ExecuteErrorRecords | nodes/Pdf2Image/Pdf2Image.node.ts:306-312 | under continue-on-fail the output holds as many error records as items failed |
| Pdf2PicNode.BuildOptions | nodes/Pdf2Image/Pdf2Image.node.js:210-227 | pdf2pic's options: the density and format as given, file stem `page` in the temporary directory; quality exactly for `jpeg`; width and height exactly when set |
| Pdf2PicNode.RenderRange | nodes/Pdf2Image/Pdf2Image.node.js:241-244 | range mode makes one convert call per page, in order, keeping one result each; it fails exactly when some call fails, with the first failure's error |
| Pdf2PicNode.PackageLone | nodes/Pdf2Image/Pdf2Image.node.js:278-304 | a single result becomes one record, page 1 of 1, named `page_1.{format}`, or the item throws the read error with nothing pushed |
| Pdf2PicNode.LoneIsListOfOne | nodes/Pdf2Image/Pdf2Image.node.js:248-304 | the single-result branch is the array branch applied to a one-element array |
| Pdf2PicNode.ConvertItemAsWritten | nodes/Pdf2Image/Pdf2Image.node.js:184-317 | the item body with range mode calling `this.parsePageRange`: an unknown operation throws `Unknown operation` |
| Pdf2PicNode.RangeModeAlwaysFailsAsWritten | nodes/Pdf2Image/Pdf2Image.node.js:238 | as written, every item that reaches range mode fails with `this.parsePageRange is not a function`, before anything is rendered |
| Pdf2PicNode.ConvertItem | nodes/Pdf2Image/Pdf2Image.node.js:184-317 | with the parser in place: an unknown operation, or a missing PDF property, throws with the matching message; an item only pushes page records built on its JSON under the output property; the two modes are stated by `Pdf2PicNode.AllPagesMode` and `Pdf2PicNode.ParsedRangeMode` |
| Pdf2PicNode.RangeMode | nodes/Pdf2Image/Pdf2Image.node.js:236-277 | range mode only pushes page records built on the item's JSON, under the output property |
| Pdf2PicNode.AllPagesMode | nodes/Pdf2Image/Pdf2Image.node.js:233-235 | with `convertAllPages` on, a failing `bulk(-1)` fails the item with its error and nothing pushed; otherwise the item is the packaging loop over the images it names, a single result counting as a list of one; the code as written agrees here |
| Pdf2PicNode.ParsedRangeMode | nodes/Pdf2Image/Pdf2Image.node.js:233-238 | with the parser in place, an item that reaches the converter with `convertAllPages` off and a page range that parses runs range mode on exactly the parsed pages |
| Pdf2PicNode.RangeModeNumbering | nodes/Pdf2Image/Pdf2Image.node.js:236-277 | in range mode, when every page converts and reads, the item yields one record per requested page, numbered by position out of the number of requested pages |
| Pdf2PicNode.LoneResultOneRecord | nodes/Pdf2Image/Pdf2Image.node.js:233-304 | when `bulk` gives a single result and it reads, the item yields exactly one record, page 1 of 1, named `page_1.{format}` |
| Pdf2PicNode.Execute | nodes/Pdf2Image/Pdf2Image.node.js:178-332 | with the parser in place: with continue-on-fail `execute` never throws; without it, it throws exactly when some item throws, with the first such item's error, every earlier item having finished; when it returns, its result is each item's block of records in input order, where a failed item's block ends with its error record |
| Pdf2PicNode.ExecuteAsWritten | nodes/Pdf2Image/Pdf2Image.node.js:178-332 | as written: without continue-on-fail, any batch holding an item that reaches range mode throws; otherwise the same output shape as `Execute` |
| Pdf2PicNode.RangeItemsAbortAsWritten | nodes/Pdf2Image/Pdf2Image.node.js:238 | as written, every item that reaches range mode throws `this.parsePageRange is not a function`, so no run without continue-on-fail gets past it |
| Pdf2PicNode.RangeItemRecordAsWritten | nodes/Pdf2Image/Pdf2Image.node.js:319-325 | as written, under continue-on-fail each item that reaches range mode leaves exactly the error record `this.parsePageRange is not a function`, right after the earlier items' output |
| Pdf2PicNode.FailedItemRecord | nodes/Pdf2Image/Pdf2Image.node.js:319-325 | under continue-on-fail a failed item's error record, with its input JSON and error message, follows the earlier output and the records it had pushed |

## Left out

- **File-system work.** The temporary directory name (`Date.now()`), `mkdir`, writing the PDF and the cleanup in `finally` are not modelled. They are one host function that may fail. Cleanup errors are swallowed and leave no trace in the output.
- **The renderers.** pdf-poppler's `convert`, pdf2pic's `fromPath`/`bulk`/`convert`, `fs.readFile` and base64 encoding are host functions. The model states nothing about image contents.
- **Renderer calls after a failure.** The host is pure, so later calls have no modelled effect.
- **n8n itself.** `getNodeParameter` defaults, `assertBinaryData` (reduced to "is the property present" plus its error message), `getBinaryDataBuffer` and the node description tables are outside the model.
- **The other files.** The test scripts and the `pdf-poppler.d.ts` declarations are not part of this model.
- **JavaScript numbers.** Page numbers are unbounded naturals. `parseInt` on a very long digit run loses precision in JavaScript, and a huge range exhausts memory; neither is modelled. Density, quality, width and height are integers, not floating point.
- **`parseInt`'s `-` sign.** The sign is not modelled. The parser only calls `parseInt` on text without `-`.
- **JSON key order.** Output JSON is a map. Only the keys and values are modelled.
- **Error wrapping.** In the `.ts` error record the error is wrapped in `NodeOperationError`; the model keeps only the message.
- **The pdf-poppler `size` option.** It is passed through, and its effect on the images is not modelled.
- **pdf2pic result fields.** A result is reduced to its `path`. The `.js` range mode packs one result per call, so it only reaches the array branch.
- **PopplerNode.RangeModeNumbering:** numbering is proved only when each renderer call yields one image. With several images per call the general statement is `Records.PackageNumbering`.
- **PageRange.ParsePageRange:** the result holds exactly the pages the pieces name, in ascending order, without repeats. It does not restate the intermediate list with repeats that the source builds before `new Set`.

## Findings

| source | as written | input that shows it | evidently intended | confidence | as-written member | corrected member |
|---|---|---|---|---|---|---|
| nodes/Pdf2Image/Pdf2Image.node.js:238 | range mode calls `this.parsePageRange(pageRange)`. n8n runs `execute` with its execution context as `this`, and that context has no `parsePageRange` method. | any item with `convertAllPages` false, e.g. the default page range `1-5`: the item fails with `this.parsePageRange is not a function` | parse with the node's own parser, as `Pdf2Image.node.ts:251` does with `Pdf2Image.parsePageRange` | high, not executed | Pdf2PicNode.ConvertItemAsWritten (with Pdf2PicNode.RangeModeAlwaysFailsAsWritten, Pdf2PicNode.ExecuteAsWritten and Pdf2PicNode.RangeItemRecordAsWritten) | Pdf2PicNode.ConvertItem (with Pdf2PicNode.ParsedRangeMode, Pdf2PicNode.RangeModeNumbering and Pdf2PicNode.Execute) |
