/** Small value wrappers shared by the evaluation engine model. */
module Wrappers {

  /** Python's optional value: `None` or a present value. */
  datatype Option<+T> = None | Some(value: T)

  /**
   * How a task's dictionary holds an optional source field: the key may be
   * missing, bound to `None`, bound to the empty string, or bound to a value.
   * The evaluators treat the first three alike ("not applicable").
   */
  datatype Field<+T> = Absent | NoneValue | EmptyString | Given(value: T)
}
