/** An optional value: `None` marks an operation the modelled program does not allow
    (for instance a resource barrier whose before-state is not the resource's state). */
module Wrappers {

  datatype Option<+T> = None | Some(value: T)

}
