/** PHP's `null` next to a value: a slot, field or parse result that may be absent. */
module Wrappers {

  datatype Option<+T> = None | Some(value: T)

}
