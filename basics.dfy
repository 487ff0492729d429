/** Values shared by the whole model: optional JavaScript values and their truthiness. */
module Basics {

  /** A value that may be `undefined`/`null` in the source. */
  datatype Option<+T> = None | Some(value: T)

  /** Document identifiers are kept as opaque strings (MongoDB's `_id` in text form). */
  type Id = string

  /** JavaScript truthiness of a possibly absent string: `undefined`, `null` and `""` are falsy. */
  predicate Truthy(s: Option<string>) {
    s.Some? && s.value != ""
  }
}
