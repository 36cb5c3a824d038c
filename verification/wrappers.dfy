/** Failure-compatible wrappers shared by the whole model. */
module Wrappers {

  /** Python's `None` or a value. */
  datatype Option<+T> = None | Some(value: T)

  /** A value, or the exception that was raised instead of producing it. */
  datatype Result<+T, +E> = Ok(value: T) | Err(error: E)

  /** A JSON field that holds either one item or a list of them
      (`q` of a translate request, `translatedText` of its answer). */
  datatype OneOrMany<+T> = One(item: T) | Many(items: seq<T>)
}
