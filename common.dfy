/**
 * Failure-carrying results and the error taxonomy shared by the expression
 * engine and the solver (the exception classes of common.h).
 *
 * C++ exceptions become explicit `Failure` values: every operation that can
 * throw returns a `Result`, and `:-` propagates a failure to the caller just as
 * an uncaught exception would.
 */
module Common {

  datatype Option<+T> = None | Some(value: T)

  datatype Result<+T, +E> = Success(value: T) | Failure(error: E) {
    predicate IsFailure() {
      Failure?
    }

    function PropagateFailure<U>(): Result<U, E>
      requires Failure?
    {
      Failure(error)
    }

    function Extract(): T
      requires Success?
    {
      value
    }
  }

  /** The result of an operation that only succeeds or fails. */
  datatype Outcome<+E> = Pass | Fail(error: E) {
    predicate IsFailure() {
      Fail?
    }

    function PropagateFailure<U>(): Result<U, E>
      requires Fail?
    {
      Failure(error)
    }
  }

  /**
   * MathError: a failure of evaluation, differentiation or solving. The message
   * text of the C++ exception is kept only as far as it tells the kinds apart.
   */
  datatype MathError =
    | UndefinedVariable(name: string)  // an environment lookup missed
    | DomainError                      // a trapped divide-by-zero or invalid operation
    | Stuck(iteration: nat)            // the Jacobian had no inverse at this iteration
    | NoSolution                       // the iteration budget ran out
}
