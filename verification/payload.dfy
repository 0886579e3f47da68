/** Payloads shared by both engines.

    The source boxes values either in a template parameter `R` (where `void`
    means "no value") or in a `QVariant`; both are collapsed into one value
    type whose `Void` case stands for the absent value. Errors are opaque. */
module Payload {

  /** A fulfilment or progress value. `Void` is the value of a `void`
      promise and the empty `QVariant`. */
  datatype Value = Void | Data(n: int)

  /** An opaque rejection reason (a `std::exception` or a `QPromiseException`). */
  datatype Exception = Exception(what: string)

  /** What a handler does: returns normally with a value, or throws. */
  datatype Outcome = Ok(value: Value) | Err(error: Exception)

  datatype Option<T> = None | Some(value: T)

  /** The handler that passes its input on unchanged: `makePropagation` and
      `propagate` in the template engine, `propagateValue` in the Qt
      engine. */
  function Propagate(): (f: Value -> Outcome)
    ensures forall v :: f(v) == Ok(v)
  {
    v => Ok(v)
  }
}
