/** Result shapes shared by the model: an optional value, and the outcome of an
    operation that checks a condition with a run-time assertion (a failed
    assertion aborts the program; here it is a value the caller can see). */
module Outcomes {

  datatype Option<+T> = None | Some(value: T)

  datatype Checked<+T> = Ok(value: T) | AssertionFailed
}
