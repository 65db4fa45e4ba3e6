/** Error outcomes of the modelled code, named after the Python exceptions the
    source raises, and a failure-compatible result wrapper. */
module Errors {

  datatype Error =
    | ZeroDivisionError  // 1.0 / len(self.targets) on an empty tied list
    | TypeError          // reduce() of an empty list; too few PslxLine arguments
    | IndexError         // types[i] past the 18 scalar types; line[-5] of a short row
    | ValueError         // int() of a string that is not a decimal integer
    | StopIteration      // next() on an exhausted or ended reader

  datatype Result<+T> = Ok(value: T) | Err(error: Error) {
    predicate IsFailure() { Err? }

    function PropagateFailure<U>(): Result<U>
      requires Err?
    {
      Err(error)
    }

    function Extract(): T
      requires Ok?
    {
      value
    }
  }
}
