/** The node's per-item parameters, as `getNodeParameter` hands them to `execute`. */
module Params {

  /** A numeric field the user may leave blank (`''`). */
  datatype NumberParam = Blank | Number(value: int)

  /** JavaScript truthiness of a numeric field: blank and zero are falsy. */
  predicate Truthy(p: NumberParam) {
    p.Number? && p.value != 0
  }

  /** The parameters one item is converted with. */
  datatype NodeParams = NodeParams(
    operation: string,
    pdfBinaryProperty: string,
    format: string,
    quality: int,
    density: int,
    width: NumberParam,
    height: NumberParam,
    convertAllPages: bool,
    pageRange: string,
    outputBinaryProperty: string)

  /** The one operation the node knows. */
  const Convert: string := "convert"

  /** The error thrown for any other operation. */
  function UnknownOperation(operation: string): string {
    "Unknown operation: " + operation
  }
}
