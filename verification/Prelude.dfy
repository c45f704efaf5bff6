/** What several modules share. */
module Prelude {

  datatype Option<T> = None | Some(value: T)
}
