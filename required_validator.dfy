/**
 * `RequiredValidator::validate`: the null and blank guards alone.  The
 * Required constraint's own code and defaults are not part of this model,
 * so its properties, code included, are fields of a plain value.
 */
module RequiredValidator {
  import opened Wrappers
  import opened PhpValues
  import opened Violations

  /** The properties of a Required constraint the validator reads. */
  datatype Required = Required(required: bool, allowNull: bool, requiredMessage: string, blankCode: string)

  /** `validate($value, $constraint)`. */
  function Validate(value: PhpValue, c: Required): (o: Outcome)
    ensures o.Added? && |o.violations| <= 1
    ensures o.violations != [] <==> c.required && IsBlank(value) && !(c.allowNull && value == Null)
    ensures o.violations != [] ==> o.violations[0] == Violation(c.blankCode, c.requiredMessage, None)
  {
    if c.allowNull && value == Null then
      Added([])
    else if c.required && IsBlank(value) then
      Added([Violation(c.blankCode, c.requiredMessage, None)])
    else
      Added([])
  }

  /**
   * A required false, null, "" or empty array is reported as blank, null
   * only when it is not allowed; "0", 0, true and every other value pass.
   */
  lemma BlankValues(value: PhpValue, c: Required)
    requires c.required
    ensures value in {Bool(false), Str(""), Arr(0)} ==> |Validate(value, c).violations| == 1
    ensures value == Null ==> (|Validate(value, c).violations| == 1 <==> !c.allowNull)
    ensures value !in {Null, Bool(false), Str(""), Arr(0)} ==> Validate(value, c) == Added([])
    ensures value in {Str("0"), Int(0)} ==> Validate(value, c) == Added([])
  {
  }

  /** A constraint that is not required never reports anything. */
  lemma NotRequiredPasses(value: PhpValue, c: Required)
    requires !c.required
    ensures Validate(value, c) == Added([])
  {
  }
}
