/** Small value types shared by the models. */
module Basics {

  datatype Option<+T> = None | Some(value: T) {
    predicate IsFailure() { None? }

    function PropagateFailure<U>(): Option<U>
      requires None?
    {
      None
    }

    function Extract(): T
      requires Some?
    {
      value
    }
  }

  /** The outcome of an operation that may fail; the error text is not modelled. */
  datatype Result<+T> = Ok(value: T) | Err

  /** What an upstream registry answers (registry.CurrentResponse). */
  datatype CurrentResponse = CurrentResponse(id: string, tag: string, artifactURL: string, slot: string)
}
