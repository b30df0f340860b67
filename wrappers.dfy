/** Failure-carrying results and the error kinds of the table engine. */
module Wrappers {

  datatype Option<+T> = None | Some(value: T)

  /** What a Java method of the engine can throw.  The checked exceptions keep their
      message; every unchecked Java runtime failure (null dereference, index out of
      bounds, concurrent modification, failed cast) is one outcome, and a builder
      chain walk that never returns is another. */
  datatype Error =
    | SelectError(msg: string)
    | OperationError(msg: string)
    | ParserError(msg: string)
    | ExportError(msg: string)
    | ImportError(msg: string)
    | DslError(cause: Error)
    | GenericError(msg: string)
    | RuntimeFailure
    | Diverges

  datatype Result<+T> = Ok(value: T) | Err(error: Error) {
    predicate IsFailure() { Err? }
    function PropagateFailure<U>(): Result<U> requires Err? { Err(error) }
    function Extract(): T requires Ok? { value }
  }

  datatype Outcome = Pass | Fail(error: Error) {
    predicate IsFailure() { Fail? }
    function PropagateFailure<U>(): Result<U> requires Fail? { Err(error) }
  }

  /** The text `getMessage()` gives for each checked exception: every exception class
      of the engine prefixes its own label (SelectException reuses "Import Error:"). */
  function Message(e: Error): (m: string)
  {
    match e
    case SelectError(s) => "Import Error: " + s
    case OperationError(s) => "Operation Error: " + s
    case ParserError(s) => "Parsing Error: " + s
    case ExportError(s) => "Export Error: " + s
    case ImportError(s) => "Import Error: " + s
    case DslError(c) => "DSL Error: " + Message(c)
    case GenericError(s) => s
    case RuntimeFailure => "runtime failure"
    case Diverges => "no result"
  }

  /** Java's `String.valueOf` of a possibly-null string, as string concatenation uses it. */
  function OrNull(s: Option<string>): string
  {
    match s
    case Some(v) => v
    case None => "null"
  }
}
