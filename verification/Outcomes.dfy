/** A Go call that either returns or panics. */
module Outcomes {

  datatype Outcome<+T> = Ok(value: T) | Panic
  {
    predicate IsFailure() { Panic? }

    function PropagateFailure<U>(): Outcome<U>
      requires Panic?
    {
      Panic
    }

    function Extract(): T
      requires Ok?
    {
      value
    }
  }
}
