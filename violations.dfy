/**
 * What a constraint validator reports: the violations it adds to the
 * validation context in one call, or the exception it throws instead.
 */
module Violations {
  import opened Wrappers

  /** Error codes of the Text constraint (Constraints/Text.php). */
  const IS_BLANK_ERROR: string := "c1051bb4-d103-4f74-8988-acbcafc7fdc3"
  const TOO_SHORT_ERROR: string := "9ff3fdc4-b214-49db-8718-39c315e33d45"
  const TOO_LONG_ERROR: string := "d94b19cc-114f-4f44-9cc4-4138e80a87b9"
  const INVALID_CHARACTERS_ERROR: string := "35e6a710-aa2e-4719-b58e-24b35749b767"

  /** Error code of the Phone constraint (Constraints/Phone.php). */
  const REGEX_FAILED_ERROR: string := "de1e3db3-5ed4-4941-aae4-59f3667cc3a3"

  /**
   * One violation: its code, its message key and, for the length checks,
   * the `{{ limit }}` parameter.
   */
  datatype Violation = Violation(code: string, message: string, limit: Option<int>)

  /** The exceptions the validators and the Text constructor throw. */
  datatype Exception =
    | UnexpectedValue   // the value cannot be read as a string
    | InvalidArgument   // a normalizer option that is not callable
    | InvalidOptions    // an option the constraint has no property for
    | TypeError         // `preg_match` given a value it cannot take as a string
    | NormalizerError   // the normalizer's no-argument call, or calling what it returns, fails

  /**
   * A callable normalizer, as both validators call it: with no arguments,
   * applying what that call returns to the value.  `Makes(apply)` is a
   * callable whose call returns a callable with the effect `apply`;
   * `MakesNothing` is one whose call throws (a one-argument callable such as
   * `trim` is refused its missing argument) or returns a value PHP cannot
   * call.
   */
  datatype Normalizer<!T> = Makes(apply: T -> T) | MakesNothing

  /** A normalizer is set and its no-argument call does not give a callable. */
  predicate FactoryFails<T>(n: Option<Normalizer<T>>) {
    n.Some? && n.value.MakesNothing?
  }

  /** The violations one `validate` call adds, or what it throws. */
  datatype Outcome = Added(violations: seq<Violation>) | Threw(exception: Exception)

  /** The five error codes are distinct, so a violation's code says which check failed. */
  lemma CodesDistinct()
    ensures |{IS_BLANK_ERROR, TOO_SHORT_ERROR, TOO_LONG_ERROR, INVALID_CHARACTERS_ERROR, REGEX_FAILED_ERROR}| == 5
  {
    assert IS_BLANK_ERROR[0] == 'c' && TOO_SHORT_ERROR[0] == '9' && INVALID_CHARACTERS_ERROR[0] == '3';
    assert TOO_LONG_ERROR[0] == 'd' && TOO_LONG_ERROR[1] == '9' && REGEX_FAILED_ERROR[1] == 'e';
  }
}
