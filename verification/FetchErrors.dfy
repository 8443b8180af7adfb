/** Thrown values, and the abort controllers that remember the first of them (packages/hub/src/fetch.ts). */
module FetchErrors {
  import opened Wrappers

  /** A thrown value.  `FetchFailure` wraps another one with context and is itself a hub error. */
  datatype Error = Raw(id: int) | Hub(id: int) | AbortError(id: int) | NotTight | FetchFailure(cause: Error)

  predicate IsAborted(error: Error, signal: Option<Error>) {
    error.AbortError? || signal == Some(error)
  }

  /** What a failed read surfaces as: hub errors and cancellations unchanged, the rest with context. */
  function Surfaced(error: Error, signal: Option<Error>): Error {
    if error.Hub? || error.FetchFailure? || IsAborted(error, signal) then error else FetchFailure(error)
  }

  /** An abort controller keeps its first reason. */
  function Abort(controller: Option<Error>, reason: Error): Option<Error> {
    if controller.Some? then controller else Some(reason)
  }
}
