/** What several models share. */
module Basics {

  datatype Option<T> = None | Some(value: T)

  type byte = x | 0 <= x < 256
}
