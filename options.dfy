/** An optional value, usable with `:-` so that a chain of Python calls that may
    raise can be written as a sequence of steps that stop at the first failure. */
module Options {

  datatype Option<+T> = None | Some(value: T) {

    predicate IsFailure() {
      None?
    }

    function PropagateFailure<U>(): Option<U>
      requires None?
    {
      None
    }

    function Extract(): T
      requires Some?
    {
      value
    }
  }
}
