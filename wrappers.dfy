/** The optional result the books and the load balancer return. */
module Wrappers {
  datatype Option<+T> = None | Some(value: T)
}
