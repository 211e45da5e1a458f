/** Failure-compatible wrappers for the values the interpreter either returns or throws. */
module Results {

  datatype Option<T> = None | Some(value: T)

  /** What a call of the interpreter can throw.
      Thrown carries the string the source throws itself ("Unbound variable: X", ...);
      HostTypeError is the TypeError the JavaScript host raises when the code reads
      a property of null or undefined (for example `this.cdr.get(...)` at the end of a list). */
  datatype Fault = Thrown(message: string) | HostTypeError

  datatype Result<T> = Ok(value: T) | Err(error: Fault) {
    predicate IsFailure() { Err? }

    function PropagateFailure<U>(): Result<U>
      requires Err?
    {
      Err(error)
    }

    function Extract(): T
      requires Ok?
    {
      value
    }
  }
}
