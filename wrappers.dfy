/** Option and the outcome of a computation that may panic. */
module Wrappers {

  datatype Option<+T> = None | Some(value: T)

  /** The result of Rust code that either returns a value or panics
      (`panic!`, `unreachable!`, `unwrap()` on `None`, an index out of range,
      an `expect` that fails). Every such panic is the same outcome here: the
      model does not distinguish panic messages. */
  datatype Outcome<+T> = Ok(value: T) | Panic {

    predicate IsFailure() {
      Panic?
    }

    function PropagateFailure<U>(): Outcome<U>
      requires Panic?
    {
      Panic
    }

    function Extract(): T
      requires Ok?
    {
      value
    }
  }

  /** `opt.unwrap()`: the value, or a panic on `None`. */
  function Unwrap<T>(opt: Option<T>): (r: Outcome<T>)
    ensures r.Ok? <==> opt.Some?
    ensures r.Ok? ==> r.value == opt.value
  {
    match opt
    case Some(v) => Ok(v)
    case None => Panic
  }
}
