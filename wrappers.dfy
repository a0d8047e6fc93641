/** An optional result: `None` where the program stops early or a step has
    nothing to run. */
module Wrappers {

  datatype Option<+T> = None | Some(value: T)

}
