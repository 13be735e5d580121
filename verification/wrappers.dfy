/** Failure-carrying values used wherever the extension awaits something that
    can throw: an HTTP reply, a tool result, a file read. */
module Wrappers {

  /** A value that may be absent: JavaScript's `undefined` / `null`. */
  datatype Option<+T> = None | Some(value: T) {

    /** The value, or `default` when absent. */
    function GetOr(default: T): T {
      match this
      case Some(v) => v
      case None => default
    }
  }

  /** The outcome of an awaited call: its value, or the error it threw. */
  datatype Result<+R, +E> = Success(value: R) | Failure(error: E)

  /** A thrown value: an `Error` with its message, or anything else. */
  datatype Thrown = ErrorValue(message: string) | NonErrorValue {

    /** `error instanceof Error ? error.message : fallback`. */
    function MessageOr(fallback: string): string {
      match this
      case ErrorValue(m) => m
      case NonErrorValue => fallback
    }
  }
}
