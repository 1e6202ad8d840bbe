/** Failure-carrying values shared by every module of the model: the Python
    source signals errors by raising, which the model turns into `Err`. */
module Results {

  datatype Option<+T> = None | Some(value: T)

  datatype Result<+T, +E> = Ok(value: T) | Err(error: E) {

    predicate IsFailure() {
      Err?
    }

    function PropagateFailure<U>(): Result<U, E>
      requires Err?
    {
      Err(error)
    }

    function Extract(): T
      requires Ok?
    {
      value
    }

    /** The same outcome with the error re-labelled. */
    function MapFailure<F>(relabel: E -> F): (r: Result<T, F>)
      ensures Ok? <==> r.Ok?
      ensures Ok? ==> r.value == value
      ensures Err? ==> r.error == relabel(error)
    {
      match this
      case Ok(v) => Ok(v)
      case Err(e) => Err(relabel(e))
    }
  }
}
