/** Optional values and the exceptions the two libraries throw. */
module Wrappers {

  datatype Option<+T> = None | Some(value: T)

  /** What a call returns, or the exception it throws instead. */
  datatype Result<+T> = Ok(value: T) | Err(error: Thrown)

  /** The exceptions raised by the modelled code. */
  datatype Thrown =
    /** A root id that names no element of the document, or a missing root element. */
    | MissingRoot
    /** `ElementManager.children` was given something that is not a `Component`. */
    | NotAComponent
    /** A JavaScript `TypeError`: a method called on a value that lacks it, or a
        property written on `undefined`. */
    | TypeError
    /** The supplied random draws ran out before a free name was drawn. JavaScript's
        `Math.random` never runs out, so the source has no such outcome. */
    | OutOfDraws
}
