/** Option, Result and the exceptions the leaderboard code raises. */
module Wrappers {

  datatype Option<+T> = None | Some(value: T)

  /** The JavaScript exceptions the leaderboard can raise. */
  datatype Error =
    | VirtualClass                  // `new` applied to the abstract base class
    | Assertion                     // a failed `assert.ok` on the arguments
    | NotAFunction(callee: string)  // TypeError: calling a property that is not a function
    | WrongArity(command: string)   // Redis's error reply to a command with too few arguments

  /** A value or the exception that rejected the call. */
  datatype Result<+T> = Ok(value: T) | Err(error: Error)

  /** Success without a value, or the exception that rejected the call. */
  datatype Outcome = Pass | Fail(error: Error)
}
