/** Values that may be absent, and computations that may throw. Shared by every module of the model. */
module Outcomes {

  /** JavaScript's `null`/`undefined` versus a present value. */
  datatype Option<+T> = None | Some(value: T) {

    /** The present value, or `default` when absent. */
    function GetOr(default: T): T {
      match this
      case Some(v) => v
      case None => default
    }
  }

  /** What the modelled code throws: one constructor per `throw` site or runtime error it runs into. */
  datatype Thrown =
    | UnrecognizedSign(sign: string)      // rollDie: a term whose sign is neither "+" nor "-"
    | UnrecognizedSuffix(suffix: string)  // setAbilitySuffix: a suffix other than '', 'Mod', 'Save'
    | ReferenceError(name: string)        // a name that is not in scope is evaluated
    | TypeError                           // a property of `undefined` is read, or a non-function is called

  /** A computation that either returns a value or throws. */
  datatype Outcome<+T> = Success(value: T) | Failure(error: Thrown)
}
