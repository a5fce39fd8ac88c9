/** Option and Result values that stand in for nullable values and for the
    exceptions and fatal errors of the tool. */
module Outcomes {

  datatype Option<+T> = None | Some(value: T)

  /** `Err` carries the message the tool would log before exiting. */
  datatype Result<+T> = Ok(value: T) | Err(message: string)
}
