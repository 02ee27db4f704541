/** Option and Result, the two failure-carrying wrappers the model uses. */
module Wrappers {

  datatype Option<+T> = None | Some(value: T)

  /** Why a synchronous JavaScript TypeError was thrown. */
  datatype Error =
    | NotIndexable(key: string)   // `cond[0]` on null or undefined
    | NoConstructorName(key: string)  // `cond.constructor.name` with an own constructor that is null or undefined
    | NotAnArray(key: string)     // `cond.map` on something that is not an array
    | NotAString(position: nat)   // `keys[index].match` on something that is not a string

  datatype Result<+T> = Ok(value: T) | Fail(error: Error)
}
