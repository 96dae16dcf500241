/** Option and Result, with the error kinds the client can report.
    `Result` supports Dafny's `:-` so that a chain of parses stops at the
    first failure, the way each `if err != nil { return nil, err }` does. */
module Wrappers {

  datatype Option<+T> = None | Some(value: T)

  /** Every way a call into the client can fail. */
  datatype Error =
    | TransportError(message: string)   // the GET, a non-200 status or the CSV reader failed
    | MalformedRow(row: seq<string>)    // wrong number of fields in a CSV row
    | TimeParseError(text: string)      // text is not a valid 14-digit timestamp
    | IntParseError(text: string)       // strconv.ParseInt(text, 10, 64) failed
    | FloatParseError(text: string)     // strconv.ParseFloat(text, 64) failed
    | UnknownTickType(tag: string)      // tick tag other than "T" or "Q"
    | IndexOutOfRange                   // the Go code would panic on a slice or index

  datatype Result<+T> = Success(value: T) | Failure(error: Error) {
    predicate IsFailure() {
      Failure?
    }

    function PropagateFailure<U>(): Result<U>
      requires Failure?
    {
      Failure(error)
    }

    function Extract(): T
      requires Success?
    {
      value
    }
  }
}
