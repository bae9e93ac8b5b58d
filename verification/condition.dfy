/** Vocabulary shared by the host platform's coupon conditions: the optional values a
    back-office form delivers, the two validation errors, and the equality operator. */
module Condition {

  /** A PHP value that may be null: `None` is what an array lookup on a missing key yields. */
  datatype Option<+T> = None | Some(value: T)

  /** The two exceptions a condition raises while its parameters are being validated;
      each carries the name of the offending input. */
  datatype ConditionError =
    | InvalidConditionOperator(input: string)
    | InvalidConditionValue(input: string)

  /** The outcome of a validating setter: it either stores its parameters or raises. */
  datatype Outcome = Pass | Fail(error: ConditionError)

  /** `Operators::EQUAL`, the symbol the back-office form submits for equality. */
  const EQUAL: string := "=="

  /** `isOperatorLegit`: the submitted operator is one of those the input allows.
      A null operator is never legit. */
  predicate IsOperatorLegit(op: Option<string>, available: seq<string>)
  {
    op.Some? && op.value in available
  }
}
