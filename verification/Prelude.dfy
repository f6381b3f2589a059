/** Small shared vocabulary: optional values. */
module Prelude {
  datatype Option<+T> = None | Some(value: T)
}
