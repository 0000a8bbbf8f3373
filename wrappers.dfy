/** Optional values and Python-style failures shared by the whole model. */
module Wrappers {

  /** Python's `None` versus a present value. */
  datatype Option<+T> = None | Some(value: T)

  /** The Python exceptions the modelled code can raise. */
  datatype PyError =
    | IndexError      // a list index past the end, e.g. `find_all(...)[1]`
    | AttributeError  // an attribute of `None`, e.g. `find("p").contents` when nothing was found
    | ValueError      // a tuple unpacking with the wrong number of values
    | TypeError       // calling something that is not callable

  /** A value, or the exception that the Python code would raise instead. */
  datatype Result<+T> = Ok(value: T) | Raised(error: PyError)
}
