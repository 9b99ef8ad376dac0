/** The optional value used for pandas' missing (NaN) lag entries and for the
    run's first failure. */
module Wrappers {

  datatype Option<+T> = None | Some(value: T)
}
