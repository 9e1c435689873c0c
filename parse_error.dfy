/** `ParseError`: the error record that `parse` throws. */
module ParseErrors {

  /**
   * An error with its message, the fixed name "ParseError", a 1-indexed line
   * span, a column span and a stable code meant for translations.
   */
  datatype ParseError = ParseError(
    name: string,
    message: string,
    startLineNumber: nat,
    endLineNumber: nat,
    startColumn: nat,
    endColumn: nat,
    code: string)

  /** `new ParseError(message, startLineNumber, endLineNumber, startColumn, endColumn, code)`. */
  function NewParseError(message: string, startLineNumber: nat, endLineNumber: nat,
                         startColumn: nat, endColumn: nat, code: string): (e: ParseError)
    ensures e.name == "ParseError"
    ensures e.message == message && e.code == code
    ensures e.startLineNumber == startLineNumber && e.endLineNumber == endLineNumber
    ensures e.startColumn == startColumn && e.endColumn == endColumn
  {
    ParseError("ParseError", message, startLineNumber, endLineNumber, startColumn, endColumn, code)
  }

  const EDGE_LABEL_WITHOUT_PARENT := "EDGE_LABEL_WITHOUT_PARENT"
  const MULTIPLE_POINTERS_ON_SAME_LINE := "MULTIPLE_POINTERS_ON_SAME_LINE"
  const POINTER_AND_CONTAINER_ON_SAME_LINE := "POINTER_AND_CONTAINER_ON_SAME_LINE"
  const NODE_AND_POINTER_ON_SAME_LINE := "NODE_AND_POINTER_ON_SAME_LINE"
  const DUPLICATE_NODE_ID := "DUPLICATE_NODE_ID"
  const DUPLICATE_EDGE_ID := "DUPLICATE_EDGE_ID"

  /** The six codes `parse` can throw. */
  predicate IsParseCode(code: string) {
    code == EDGE_LABEL_WITHOUT_PARENT || code == MULTIPLE_POINTERS_ON_SAME_LINE
    || code == POINTER_AND_CONTAINER_ON_SAME_LINE || code == NODE_AND_POINTER_ON_SAME_LINE
    || code == DUPLICATE_NODE_ID || code == DUPLICATE_EDGE_ID
  }
}
