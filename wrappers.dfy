/** The absent-or-present value that `get_cpu_usage` returns (`None` or a float). */
module Wrappers {

  datatype Option<+T> = None | Some(value: T)
}
