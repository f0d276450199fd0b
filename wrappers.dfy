/** The optional values of the TypeScript code (`T | null`, `T | undefined`). */
module Wrappers {

  datatype Option<+T> = None | Some(value: T)
}
