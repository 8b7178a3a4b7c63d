/** The optional-value datatype shared by the table and spinner models. */
module Wrappers {

  /** None stands for Go's nil (an absent error), Some for a present value. */
  datatype Option<+T> = None | Some(value: T)
}
