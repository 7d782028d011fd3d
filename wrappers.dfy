/** Failure-compatible result type standing in for Python's exceptions. */
module Wrappers {

  /** The exception kinds raised by the modelled code. */
  datatype Error =
    | IndexError                      // `token[0]` on an empty string, `split("/")[-2]` on one segment
    | KeyError(key: string)           // `d[key]` or `d.pop(key)` for an absent key
    | ValueError                      // unpacking too few values, `list.index` of an absent value
    | AttributeError(name: string)    // `obj.name` for an attribute the object does not have
    | TypeError                       // a list or dict used as a dict key, or `None[key]`
    | ClientError(message: string)    // botocore's ClientError, by its error message
    | WaiterError                     // a stack waiter that gave up

  datatype Option<+T> = None | Some(value: T)

  datatype Result<+T> = Ok(value: T) | Err(error: Error) {
    predicate IsFailure() { Err? }

    function PropagateFailure<U>(): Result<U>
      requires Err?
    {
      Err(error)
    }

    function Extract(): T
      requires Ok?
    {
      value
    }
  }
}
