/** The optional value used for document fields that can be absent. */
module Wrappers {

  /** `None` stands for a field that is `undefined` (absent from the document or the request body). */
  datatype Option<+T> = None | Some(value: T)
}
