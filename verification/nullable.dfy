/** A value that may be missing: C#'s `string?` and TypeScript's optional fields. */
module Nullable {

  datatype Option<+T> = None | Some(value: T)
}
