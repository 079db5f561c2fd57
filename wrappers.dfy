/** Failure-compatible outcome types shared by every decoder of the model.
    The C++ aborts the process on a failed XASSERT/XERROR; the model returns `Err`. */
module Wrappers {

  datatype Option<+T> = None | Some(value: T)

  /** Why a decode step stopped. `StreamOverrun` is the bit reader's own failure,
      `FormatViolation` a failed consistency assertion, `UnsupportedFeature` an
      `XERROR` on a bit-grammar branch the decoder refuses, `UndefinedBehaviour`
      an access the C++ leaves undefined (out-of-range index, uninitialised data). */
  datatype Error =
    | StreamOverrun
    | FormatViolation(reason: string)
    | UnsupportedFeature(reason: string)
    | UndefinedBehaviour(reason: string)

  datatype Result<+T> = Ok(value: T) | Err(error: Error) {
    predicate IsFailure() {
      Err?
    }

    function PropagateFailure<U>(): Result<U>
      requires Err?
    {
      Err(error)
    }

    function Extract(): T
      requires Ok?
    {
      value
    }
  }

  /** Unit outcome, for steps that only check or only change state. */
  datatype Outcome = Pass | Fail(error: Error) {
    predicate IsFailure() {
      Fail?
    }

    function PropagateFailure<U>(): Result<U>
      requires Fail?
    {
      Err(error)
    }
  }

  function Need(condition: bool, error: Error): (o: Outcome)
    ensures o.Pass? <==> condition
  {
    if condition then Pass else Fail(error)
  }
}
