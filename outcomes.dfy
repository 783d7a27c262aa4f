/** Values that every layer passes around: optional values, the values a
    JavaScript `throw` can carry, and the settled result of an awaited call. */
module Outcomes {

  datatype Option<+T> = None | Some(value: T)

  /** What a rejected promise or a `throw` carries. The source only ever
      distinguishes an `Error` instance (whose `message` it reads) from any
      other thrown value (for which each catch block has a fixed fallback). */
  datatype Thrown = ErrorValue(message: string) | OtherValue

  /** The settled state of an awaited call: it resolved with a value or it
      threw. */
  datatype Outcome<+T> = Ok(value: T) | Threw(thrown: Thrown)

  /** `error instanceof Error ? error.message : fallback`, the message every
      catch block of the UI layer shows. */
  function MessageOr(t: Thrown, fallback: string): string
  {
    match t
    case ErrorValue(message) => message
    case OtherValue => fallback
  }

  /** `throw new Error(message)`. */
  function Fail<T>(message: string): Outcome<T>
  {
    Threw(ErrorValue(message))
  }
}
