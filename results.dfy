/** Outcomes of the shuttle controller's functions: a value, or the Python
    failure the source would run into. */
module Results {

  datatype Fault =
    | MissingKey(key: int)        // KeyError on the position-keyed timetable dict
    | IndexOutOfRange(index: int) // IndexError on the `times_` list of a record
    | NoneReturned                // the function fell off its end and returned None

  datatype Result<+T> = Ok(value: T) | Err(fault: Fault) {
    predicate IsFailure() {
      Err?
    }

    function PropagateFailure<U>(): Result<U>
      requires Err?
    {
      Err(fault)
    }

    function Extract(): T
      requires Ok?
    {
      value
    }
  }

  datatype Option<+T> = None | Some(value: T)
}
