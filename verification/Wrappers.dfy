/** An optional value: JavaScript's `undefined`, SQL's NULL, or a thrown error with no payload. */
module Wrappers {

  datatype Option<+T> = None | Some(value: T)
}
