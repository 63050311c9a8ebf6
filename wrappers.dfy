/** Option and result types shared by the whole model. */
module Wrappers {

  /** An optional value: the second-level label of a record may be absent. */
  datatype Option<+T> = None | Some(value: T)

  /** The one failure the modelled code can run into: a list indexed with an
      absent (`None`) label, which raises a `TypeError` in the Python code. */
  datatype Error = AbsentLabelIndexed

  /** The outcome of an operation that either produces a value or raises. */
  datatype Result<+T> = Ok(value: T) | Err(error: Error)
}
