/** Bytes, optional values, and the exceptions of the JSON library as results.  An error carries the number
    that the library puts into its message (`[json.exception.out_of_range.401]` and so on). */
module Wrappers {

  type u8 = x: int | 0 <= x < 256

  datatype Option<+T> = None | Some(value: T)

  datatype Error =
    | ParseError(id: nat)
    | OutOfRange(id: nat)
    | TypeError(id: nat)
    | OtherError(id: nat)
    | AssertionFailure // a JSON_ASSERT that does not hold

  datatype Result<+T> = Ok(value: T) | Err(error: Error) {
    predicate IsFailure() { Err? }

    function PropagateFailure<U>(): Result<U>
      requires Err?
    {
      Err(error)
    }

    function Extract(): T
      requires Ok?
    {
      value
    }
  }
}
