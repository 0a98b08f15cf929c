/** Absent values, results and the Java exceptions the modelled code can throw. */
module Outcomes {

  /** A Java reference that may be null. */
  datatype Option<+T> = None | Some(value: T)

  /** The value an operation returns, or the exception it throws. */
  datatype Result<+T> = Ok(value: T) | Err(error: Error) {
    predicate IsFailure() { Err? }

    function PropagateFailure<U>(): Result<U>
      requires Err?
    {
      Err(error)
    }

    function Extract(): T
      requires Ok?
    {
      value
    }
  }

  /** The exceptions thrown by the modelled code, with the messages it gives them. */
  datatype Error =
    | NullPointer
    | IllegalState(message: string)
    | IllegalArgument(message: string)
    | NoSuchElement(message: string)
    | Runtime(message: string)
    | IO(message: string)
    | IdenticalLevels(level: int)
    | IndexOutOfBounds(index: int, length: int)

  /** Objects.requireNonNull */
  function RequireNonNull<T>(x: Option<T>): (r: Result<T>)
    ensures r.Ok? <==> x.Some?
    ensures r.Ok? ==> r.value == x.value
    ensures r.Err? ==> r.error == NullPointer
  {
    match x
    case Some(v) => Ok(v)
    case None => Err(NullPointer)
  }
}
