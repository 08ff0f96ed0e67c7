/**
 * `PhoneValidator::validate`: the null and blank guards, the cast to a
 * string, and the phone-number pattern, with the constraint's normalizer
 * applied both to the raw value and to the cast string.
 */
module PhoneValidator {
  import opened Wrappers
  import opened PhpStrings
  import opened PhpValues
  import opened Violations
  import opened PhonePattern

  const PHONE_REQUIRED_MESSAGE: string := "lcv.required"
  const INVALID_PHONE_MESSAGE: string := "lcv.invalid_phone"

  /** The properties of a Phone constraint the validator reads. */
  datatype Phone = Phone(
    required: bool,
    allowNull: bool,
    normalizer: Option<Normalizer<PhpValue>>,
    requiredMessage: string,
    invalidMessage: string)

  /** A Phone constraint declared without options. */
  const DefaultPhone := Phone(true, false, None, PHONE_REQUIRED_MESSAGE, INVALID_PHONE_MESSAGE)

  /** What the normalizer's no-argument call returns, applied to a value, when there is one. */
  function Normalize(c: Phone, v: PhpValue): PhpValue {
    if c.normalizer.Some? && c.normalizer.value.Makes? then c.normalizer.value.apply(v) else v
  }

  /**
   * The string `preg_match` matches its subject as: what `(string)` gives
   * for a stringable value, "" for null, and a type error otherwise.
   */
  function Subject(v: PhpValue): (r: Option<string>)
    ensures r.None? <==> !IsStringable(v) && v != Null
    ensures IsStringable(v) ==> r == Some(ToText(v))
  {
    if IsStringable(v) then Some(ToText(v)) else if v == Null then Some("") else None
  }

  /** `validate($value, $constraint)`. */
  function Validate(value: PhpValue, c: Phone): (o: Outcome)
    ensures o.Added? ==> |o.violations| <= 1
    ensures o.Added? && o.violations != [] ==> o.violations[0].code in {IS_BLANK_ERROR, REGEX_FAILED_ERROR}
    ensures c.allowNull && value == Null ==> o == Added([])
    ensures o == Threw(NormalizerError) <==> PastGuards(value, c) && FactoryFails(c.normalizer)
  {
    if c.allowNull && value == Null then
      Added([])
    else if c.required && IsBlank(value) then
      Added([Violation(IS_BLANK_ERROR, c.requiredMessage, None)])
    else if FactoryFails(c.normalizer) then
      Threw(NormalizerError)
    else
      var raw := Normalize(c, value);
      if !IsStringable(raw) then
        Threw(UnexpectedValue)
      else
        var subject := Subject(Normalize(c, Str(ToText(raw))));
        if subject.None? then
          Threw(TypeError)
        else if Recognize(subject.value) then
          Added([])
        else
          Added([Violation(REGEX_FAILED_ERROR, c.invalidMessage, None)])
  }

  /** The value gets past the null and blank guards. */
  predicate PastGuards(value: PhpValue, c: Phone) {
    !(c.allowNull && value == Null) && !(c.required && IsBlank(value))
  }

  /** A required blank value gets the one blank violation, with the Text constraint's code. */
  lemma BlankRejected(value: PhpValue, c: Phone)
    requires c.required && !(c.allowNull && value == Null) && IsBlank(value)
    ensures Validate(value, c) == Added([Violation(IS_BLANK_ERROR, c.requiredMessage, None)])
  {
  }

  /**
   * Without a normalizer, a value past the guards passes exactly when it
   * can be cast to a string and the phone pattern matches that string; it
   * is thrown out exactly when it cannot be cast; otherwise it gets the one
   * pattern violation.
   */
  lemma PassesIffPatternMatches(value: PhpValue, c: Phone)
    requires c.normalizer.None? && PastGuards(value, c)
    ensures Validate(value, c).Threw? <==> !IsStringable(value)
    ensures Validate(value, c) == Added([]) <==> IsStringable(value) && PatternMatches(ToText(value))
    ensures IsStringable(value) && !PatternMatches(ToText(value)) ==>
              Validate(value, c) == Added([Violation(REGEX_FAILED_ERROR, c.invalidMessage, None)])
  {
    if IsStringable(value) {
      RecognizeIsPattern(ToText(value));
    }
  }

  /**
   * The normalizer's result decides: a value whose normalized form cannot
   * be cast is thrown out even when the value itself is a string.
   */
  lemma NormalizerResultIsCast(value: PhpValue, c: Phone)
    requires c.normalizer.Some? && c.normalizer.value.Makes? && PastGuards(value, c)
    requires !IsStringable(c.normalizer.value.apply(value))
    ensures Validate(value, c) == Threw(UnexpectedValue)
  {
  }

  /** Whatever passes (and is not an allowed null) is a string of phone characters with two digits. */
  lemma PassedShape(value: PhpValue, c: Phone)
    requires c.normalizer.None? && PastGuards(value, c) && Validate(value, c) == Added([])
    ensures IsStringable(value)
    ensures forall m :: 0 <= m < |ToText(value)| ==> PhoneChar(ToText(value)[m])
    ensures exists i, j :: 0 <= i < j < |ToText(value)| && IsDigit(ToText(value)[i]) && IsDigit(ToText(value)[j])
  {
    AcceptedChars(ToText(value));
    AcceptedHasTwoDigits(ToText(value));
  }

  /** A string with a letter in it gets the pattern violation. */
  lemma LetterRejected(s: string, c: Phone, m: nat)
    requires c.normalizer.None? && s != "" && m < |s| && IsLetter(s[m])
    ensures Validate(Str(s), c) == Added([Violation(REGEX_FAILED_ERROR, c.invalidMessage, None)])
  {
    AcceptedChars(s);
  }

  /** A single digit, "0" included, gets the pattern violation. */
  lemma SingleDigitRejected(d: char, c: Phone)
    requires c.normalizer.None? && IsDigit(d)
    ensures Validate(Str([d]), c) == Added([Violation(REGEX_FAILED_ERROR, c.invalidMessage, None)])
  {
    if Recognize([d]) {
      AcceptedHasTwoDigits([d]);
    }
  }

  /** A run of two or more digits passes. */
  lemma DigitRunPasses(s: string, c: Phone)
    requires c.normalizer.None? && |s| >= 2 && AllDigits(s)
    ensures Validate(Str(s), c) == Added([])
  {
    DigitRunAccepted(s);
  }
}
