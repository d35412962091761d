/** The conventional option type, used wherever the firmware returns NULL or leaves a field untouched. */
module Wrappers {

  datatype Option<+T> = None | Some(value: T)

}
