/** Option and Result values shared by the annotator model. */
module Wrappers {

  /** A Python value that may be `None`. */
  datatype Option<+T> = None | Some(value: T)

  /** The outcome of a pandas label lookup: a value, or the `KeyError` raised
      for an index label that the series does not have. */
  datatype Result<+T> = Ok(value: T) | KeyError(missing: int)
}
