/** Option and Result: the values that stand for Python's None and for a raised exception. */
module Wrappers {

  datatype Option<+T> = None | Some(value: T)

  /** `Err` stands for an exception the Python code does not catch; `why` names it. */
  datatype Result<+T> = Ok(value: T) | Err(why: string)
}
