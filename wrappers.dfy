/** Option and Result values shared by the other modules. */
module Wrappers {

  datatype Option<T> = None | Some(value: T)

  /** The outcome of a step that the widget code would abort by throwing. */
  datatype Result<T> = Ok(value: T) | Err(reason: string)
}
