/**
  The error values the request pipeline produces and inspects.
  errors.go is not part of this model: the shape of imagor's Error struct (a message and an
  HTTP status code) and the messages and codes of its sentinels are assumed.
 */
module Errors {
  import opened Base

  /**
    A non-nil Go error as the core distinguishes it: one of imagor's own `Error` values,
    `context.Canceled`, or any other error (an I/O error from a backend, say).
    A nil error is `None` of an `Option<Error>`.
   */
  datatype Error =
    | Error(message: string, code: int)
    | Canceled
    | Other(message: string)

  /** A stage declines the request: the next stage should be tried. */
  const ErrPass := Error("pass", 400)
  /** No stage could resolve the resource. */
  const ErrNotFound := Error("not found", 404)
  /** The request's signature does not match. */
  const ErrHashMismatch := Error("hash mismatch", 403)

  /** A Pass that reaches the end of a chain is reported as not found. */
  function PassToNotFound(e: Error): (r: Error)
    ensures r != ErrPass
    ensures e != ErrPass ==> r == e
  {
    if e == ErrPass then ErrNotFound else e
  }

  /** An error that is neither nil nor Pass: the processor chain records it. */
  predicate IsHard(e: Option<Error>) {
    e.Some? && e.value != ErrPass
  }

  /**
    `WrapError` applied to a possibly nil error. WrapError's body is not part of this model,
    so its effect on a non-nil error is the parameter `wrap`; a nil error stays nil.
   */
  function Wrapped(wrap: Error -> Error, e: Option<Error>): Option<Error>
  {
    match e
    case None => None
    case Some(x) => Some(wrap(x))
  }
}
