/** The optional-value type used for nullable results throughout the model. */
module Wrappers {

  /** `None` stands for `std::nullopt` or a null `shared_ptr`. */
  datatype Option<+T> = None | Some(value: T)
}
