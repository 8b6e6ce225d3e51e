/** Failure-carrying values shared by the model: the JavaScript code signals
    failure by rejecting a promise or throwing, which the model turns into
    these datatypes. */
module Wrappers {

  datatype Option<+T> = None | Some(value: T)

  /** What a rejected step carries. `ReduceOfEmptyArray` is the TypeError thrown
      by `Array.prototype.reduce` called without a seed on an empty array; every
      other error comes from an external collaborator and is passed on as is. */
  datatype Error = ReduceOfEmptyArray | External(reason: string)

  /** A step that produces no value: it either passes or fails with an error. */
  datatype Outcome = Pass | Fail(error: Error)

  /** A step that produces a value or fails with an error. */
  datatype Result<+T> = Ok(value: T) | Err(error: Error) {
    function ToOutcome(): (o: Outcome)
      ensures o.Pass? <==> Ok?
      ensures o.Fail? ==> o.error == error
    {
      match this
      case Ok(_) => Pass
      case Err(e) => Fail(e)
    }
  }
}
