/** The exceptions the theme-overlay pipeline raises, one constructor per .NET
    exception type; each carries the message the source composes. */
module Errors {
  import opened Wrappers

  /** Line and column reported by the XML reader's line-info capability. */
  datatype LineInfo = LineInfo(line: int, column: int)

  datatype Error =
    /** HighlightingDefinitionInvalidException. When `at` is present the message
        is additionally formatted with that reader position. */
    | HighlightingDefinitionInvalid(message: string, at: Option<LineInfo>)
    /** NotSupportedException, raised for an in-namespace element the parser does not know. */
    | NotSupported(message: string)
    /** InvalidOperationException (frozen object, empty stack, no matching element). */
    | InvalidOperation(message: string)
    /** ArgumentNullException for the named parameter. */
    | ArgumentNull(parameter: string)
    /** ArgumentException from Dictionary.Add with a key that is already present. */
    | DuplicateKey(key: string)
    /** KeyNotFoundException from a dictionary indexer. */
    | KeyNotFound(key: string)
    /** NullReferenceException from dereferencing a null reference. */
    | NullReference
    /** FileNotFoundException for a missing embedded resource. */
    | FileNotFound(message: string)
    /** FormatException from a value converter that rejects its input. */
    | Format(input: string)
    /** ArgumentOutOfRangeException for an unsupported global style: the source passes
        its sentence as the parameter name and the style's TypeName as the message (`actualValue`). */
    | ArgumentOutOfRange(parameter: string, actualValue: Option<string>)
}
