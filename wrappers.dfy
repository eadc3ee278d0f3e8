/** Option and Result values used in place of Python's None and raised exceptions. */
module Wrappers {

  datatype Option<+T> = None | Some(value: T)

  /** `Err` carries the message an exception would have carried (`str(e)`). */
  datatype Result<+T> = Ok(value: T) | Err(msg: string)
}
