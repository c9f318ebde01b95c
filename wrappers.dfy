/** A value that may be missing: an unset document field, a lookup that found nothing. */
module Wrappers {

  datatype Option<+T> = None | Some(value: T)
}
