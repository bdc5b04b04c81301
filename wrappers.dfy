/** Option and Result values standing for Python's `None` returns and for the
    error dictionaries (`{'success': False, 'error': ...}`) of the tools. */
module Wrappers {

  datatype Option<+T> = None | Some(value: T)

  datatype Result<+T> = Ok(value: T) | Err(error: string)
}
