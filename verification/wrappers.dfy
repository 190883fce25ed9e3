/** The nullable values of the source (`string | null`, `number | null`,
    `Company | null`) are modelled as an Option. */
module Wrappers {

  datatype Option<+T> = None | Some(value: T)
}
