/** Small value wrappers shared by the form's rule modules. */
module Wrappers {

  /** An optional value; `None` stands for JavaScript's `null`, `undefined` or `NaN`. */
  datatype Option<+T> = None | Some(value: T)

  /** The outcome of a form-field validator: `true` in the source, or the error message it returns. */
  datatype Validation = Valid | Invalid(message: string)
}
