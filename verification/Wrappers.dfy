/** Results shared by the models: values that may be missing, and calls that may be refused. */
module Wrappers {

  datatype Option<+T> = None | Some(value: T)

  /** WrongInputCount stands for the exception about the number of inputs. */
  datatype Outcome<+T> = Ok(value: T) | WrongInputCount
}
