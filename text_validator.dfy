/**
 * `TextValidator::validate`: a chain of guarded early returns over the
 * constraint's properties that adds at most one violation.
 */
module TextValidator {
  import opened Wrappers
  import opened PhpValues
  import opened Violations
  import opened TextConstraint

  /**
   * `mb_check_encoding($s, $charset)` and `mb_strlen($s, $charset)`: the
   * multibyte string extension, taken as given.
   */
  datatype Encoding = Encoding(check: (string, string) -> bool, strlen: (string, string) -> nat)

  /** PHP's loose `==` on two bounds that are integers or null: null equals 0. */
  predicate LooselyEqual(a: Option<int>, b: Option<int>): (e: bool)
    ensures a.Some? && b.Some? ==> (e <==> a.value == b.value)
    ensures a.None? && b.None? ==> e
    ensures a.None? && b.Some? ==> (e <==> b.value == 0)
    ensures a.Some? && b.None? ==> (e <==> a.value == 0)
  {
    OrDefault(a, 0) == OrDefault(b, 0)
  }

  /**
   * The string the length checks measure: the cast value, given to what the
   * normalizer's no-argument call returns.
   */
  function Normalized(s: string, normalizer: Option<Normalizer<string>>): string {
    if normalizer.Some? && normalizer.value.Makes? then normalizer.value.apply(s) else s
  }

  /** The length checks on a validly encoded string of `n` characters. */
  function CheckLength(n: nat, c: Text): (vs: seq<Violation>)
    reads c
    ensures |vs| <= 1
    ensures vs == [] <==> (c.max.None? || n <= c.max.value) && (c.min.None? || c.min.value <= n)
    ensures vs != [] && vs[0].code == TOO_LONG_ERROR ==> c.max.Some? && n > c.max.value && vs[0].limit == c.max
    ensures vs != [] && vs[0].code == TOO_SHORT_ERROR ==> c.min.Some? && n < c.min.value && vs[0].limit == c.min
    ensures vs != [] ==> vs[0].code in {TOO_LONG_ERROR, TOO_SHORT_ERROR}
  {
    if c.max.Some? && n > c.max.value then
      [Violation(TOO_LONG_ERROR, if LooselyEqual(c.min, c.max) then c.exactMessage else c.maxMessage, c.max)]
    else if c.min.Some? && n < c.min.value then
      [Violation(TOO_SHORT_ERROR, if LooselyEqual(c.min, c.max) then c.exactMessage else c.minMessage, c.min)]
    else
      []
  }

  /** `validate($value, $constraint)`. */
  function Validate(value: PhpValue, c: Text, enc: Encoding): (o: Outcome)
    reads c
    ensures o.Added? ==> |o.violations| <= 1
    ensures o.Threw? <==>
              !(c.allowNull && value == Null) && !(c.required && IsBlank(value)) &&
              (!IsStringable(value) || FactoryFails(c.normalizer))
    ensures o.Threw? ==> o.exception == if IsStringable(value) then NormalizerError else UnexpectedValue
  {
    if c.allowNull && value == Null then
      Added([])
    else if c.required && IsBlank(value) then
      Added([Violation(IS_BLANK_ERROR, c.requiredMessage, None)])
    else if !IsStringable(value) then
      Threw(UnexpectedValue)
    else if FactoryFails(c.normalizer) then
      Threw(NormalizerError)
    else
      var s := Normalized(ToText(value), c.normalizer);
      if !enc.check(s, c.charset) then
        Added([Violation(INVALID_CHARACTERS_ERROR, c.charsetMessage, None)])
      else
        Added(CheckLength(enc.strlen(s, c.charset), c))
  }

  /** A null value passes when the constraint allows null. */
  lemma NullAllowed(c: Text, enc: Encoding)
    requires c.allowNull
    ensures Validate(Null, c, enc) == Added([])
  {
  }

  /**
   * A required value that is false, null, "" or the empty array gets the
   * one blank violation, unless it is a null the constraint allows; "0" and
   * 0 never do.
   */
  lemma BlankRejected(value: PhpValue, c: Text, enc: Encoding)
    requires c.required && !(c.allowNull && value == Null)
    ensures value in {Null, Bool(false), Str(""), Arr(0)} ==>
              Validate(value, c, enc) == Added([Violation(IS_BLANK_ERROR, c.requiredMessage, None)])
    ensures value in {Str("0"), Int(0)} ==> (Validate(value, c, enc).Threw? <==> FactoryFails(c.normalizer))
    ensures value in {Str("0"), Int(0)} && Validate(value, c, enc).Added? ==>
              forall v :: v in Validate(value, c, enc).violations ==> v.code != IS_BLANK_ERROR
  {
  }

  /**
   * A normalizer whose no-argument call fails, as a one-argument callable
   * such as `trim` does, throws on every castable value that gets past the
   * null and blank guards, although the constructor accepts it as callable.
   */
  lemma FailingNormalizerThrows(value: PhpValue, c: Text, enc: Encoding)
    requires !(c.allowNull && value == Null) && !(c.required && IsBlank(value)) && IsStringable(value)
    requires FactoryFails(c.normalizer)
    ensures Validate(value, c, enc) == Threw(NormalizerError)
  {
  }

  /**
   * Null is neither a scalar nor an object: when the constraint neither
   * allows nor requires it, it is thrown out as an unexpected value.
   */
  lemma NullNeitherAllowedNorRequired(c: Text, enc: Encoding)
    requires !c.allowNull && !c.required
    ensures Validate(Null, c, enc) == Threw(UnexpectedValue)
  {
  }

  /**
   * A string the charset check rejects gets the one invalid-characters
   * violation, whatever its length and the bounds.
   */
  lemma InvalidCharsetSkipsLength(value: PhpValue, c: Text, enc: Encoding)
    requires IsStringable(value) && !(c.required && IsBlank(value)) && !FactoryFails(c.normalizer)
    requires !enc.check(Normalized(ToText(value), c.normalizer), c.charset)
    ensures Validate(value, c, enc) == Added([Violation(INVALID_CHARACTERS_ERROR, c.charsetMessage, None)])
  {
  }

  /** The length of a value that reaches the length checks. */
  function MeasuredLength(value: PhpValue, c: Text, enc: Encoding): nat
    requires IsStringable(value)
    reads c
  {
    enc.strlen(Normalized(ToText(value), c.normalizer), c.charset)
  }

  /**
   * The value reaches the length checks: not blank-required, castable, with
   * a normalizer (if any) whose call succeeds, and validly encoded.
   */
  predicate ReachesLength(value: PhpValue, c: Text, enc: Encoding)
    reads c
  {
    !(c.required && IsBlank(value)) && IsStringable(value) && !FactoryFails(c.normalizer) &&
    enc.check(Normalized(ToText(value), c.normalizer), c.charset)
  }

  /**
   * A value that reaches the length checks passes exactly when its length
   * is within the bounds that are set.
   */
  lemma ValidIffWithinBounds(value: PhpValue, c: Text, enc: Encoding)
    requires ReachesLength(value, c, enc)
    ensures Validate(value, c, enc) == Added([]) <==>
              (c.max.None? || MeasuredLength(value, c, enc) <= c.max.value) &&
              (c.min.None? || c.min.value <= MeasuredLength(value, c, enc))
  {
  }

  /**
   * Too long: the too-long violation with the maximum as its limit, worded
   * as an exact-length mismatch when the bounds are loosely equal.
   */
  lemma TooLong(value: PhpValue, c: Text, enc: Encoding)
    requires ReachesLength(value, c, enc)
    requires c.max.Some? && MeasuredLength(value, c, enc) > c.max.value
    ensures Validate(value, c, enc).violations ==
              [Violation(TOO_LONG_ERROR, if LooselyEqual(c.min, c.max) then c.exactMessage else c.maxMessage, c.max)]
  {
  }

  /**
   * Too short, and not too long: the too-short violation with the minimum
   * as its limit, worded as an exact-length mismatch when the bounds are
   * loosely equal.
   */
  lemma TooShort(value: PhpValue, c: Text, enc: Encoding)
    requires ReachesLength(value, c, enc)
    requires c.min.Some? && MeasuredLength(value, c, enc) < c.min.value
    requires c.max.None? || MeasuredLength(value, c, enc) <= c.max.value
    ensures Validate(value, c, enc).violations ==
              [Violation(TOO_SHORT_ERROR, if LooselyEqual(c.min, c.max) then c.exactMessage else c.minMessage, c.min)]
  {
  }

  /**
   * A string both above the maximum and below the minimum (bounds the wrong
   * way round) reports only that it is too long.
   */
  lemma TooLongWins(value: PhpValue, c: Text, enc: Encoding)
    requires ReachesLength(value, c, enc)
    requires c.max.Some? && c.min.Some? && c.max.value < MeasuredLength(value, c, enc) < c.min.value
    ensures |Validate(value, c, enc).violations| == 1
    ensures Validate(value, c, enc).violations[0].code == TOO_LONG_ERROR
  {
  }

  /**
   * With a maximum of 0 and no minimum, the loose comparison `null == 0`
   * makes a too-long string report the exact-length message.
   */
  lemma ZeroMaxUsesExactMessage(value: PhpValue, c: Text, enc: Encoding)
    requires ReachesLength(value, c, enc)
    requires c.min == None && c.max == Some(0) && MeasuredLength(value, c, enc) > 0
    ensures Validate(value, c, enc).violations == [Violation(TOO_LONG_ERROR, c.exactMessage, Some(0))]
  {
  }

  /**
   * A constraint built from a `length` option has equal bounds, so every
   * length violation it reports uses the exact-length message.
   */
  lemma EqualBoundsUseExactMessage(value: PhpValue, c: Text, enc: Encoding)
    requires c.min.Some? && c.min == c.max
    ensures Validate(value, c, enc).Added? ==>
              forall v :: v in Validate(value, c, enc).violations && v.code in {TOO_LONG_ERROR, TOO_SHORT_ERROR} ==>
                v.message == c.exactMessage && v.limit == c.min
  {
    CodesDistinct();
  }
}
