/** How a call made from the Python services ends: it returns a value, or it raises.
    Two kinds of raise matter to the handlers. An ordinary exception (`ValueError`,
    `TypeError`, `KeyError`, `requests` errors, ...) is caught by `except Exception`.
    A Rust panic inside the extension module surfaces as pyo3's `PanicException`, which
    derives from `BaseException`, so `except Exception` lets it through. */
module Python {

  datatype Exception =
    | Error(message: string)   // a subclass of `Exception`; `str(e)` is `message`
    | Panic(message: string)   // pyo3's `PanicException`

  datatype Outcome<+T> = Returned(value: T) | Raised(exception: Exception) {

    predicate IsFailure() {
      Raised?
    }

    function PropagateFailure<U>(): Outcome<U>
      requires Raised?
    {
      Raised(exception)
    }

    function Extract(): T
      requires Returned?
    {
      value
    }
  }

  /** `raise ValueError(message)` and friends. */
  function Fail<T>(message: string): Outcome<T> {
    Raised(Error(message))
  }

  /** A Rust `panic!` crossing the pyo3 boundary. */
  function Abort<T>(message: string): Outcome<T> {
    Raised(Panic(message))
  }
}
