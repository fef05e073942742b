/** An optional value, used wherever the firmware reads something that may
    be absent (a sensor read that fails, a static local that has not been
    initialised yet). */
module Wrappers {

  datatype Option<+T> = None | Some(value: T)
}
