/**
 * How a run of one of the tools can end. Python raises an exception where the
 * input runs out under `next()`, where a name was never bound, where `max`
 * gets fewer than two arguments, or where a WIG declaration is malformed;
 * the model returns the exception kind instead, together with whatever had
 * already been printed.
 */
module Outcome {

  datatype Option<+T> = None | Some(value: T)

  /** A value, or the exception raised instead of computing it. */
  datatype Result<+T> = Ok(value: T) | Err(error: PyError)

  datatype PyError =
    | StopIteration      // `next(f)` past the end of the input
    | UnboundLocalError  // the length counter was never chosen
    | TypeError          // `max(*keys)` called with fewer than two keys
    | KeyError           // a WIG declaration lacks a required key
    | IndexError         // a WIG declaration token has no '='
    | ValueError         // `int()` of a text that is not a decimal numeral
}
