/** Failure-compatible wrappers for the outcomes of the modelled JavaScript operations.
    A JavaScript exception becomes an `Err` carrying the kind of error thrown. */
module Results {

  /** The kinds of exception the modelled code can throw. */
  datatype JsError =
    | TypeError       // `in` on a primitive, `forEach` of a non-array, `new`/`instanceof` of a non-class,
                      // `String`/`Number` of an object whose own `toString` is not a function
    | ReferenceError  // reading an unbound identifier

  datatype Option<+T> = None | Some(value: T)

  datatype Result<+T> = Ok(value: T) | Err(error: JsError) {

    predicate IsFailure() {
      Err?
    }

    function PropagateFailure<U>(): Result<U>
      requires Err?
    {
      Err(error)
    }

    function Extract(): T
      requires Ok?
    {
      value
    }
  }
}
