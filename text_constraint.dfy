/**
 * The Text constraint: its options, their defaults, and the constructor
 * that turns a `length` option into equal `min` and `max` bounds before the
 * options are copied onto the constraint's properties.
 */
module TextConstraint {
  import opened Wrappers
  import opened Violations

  /** A `normalizer` option: a callable, or a value PHP cannot call. */
  datatype NormalizerOption =
    | Callable(normalizer: Normalizer<string>)
    | NotCallable

  /**
   * The options array passed to the constructor, one entry per option the
   * constraint knows plus `length`; `None` is an option that is not set.
   */
  datatype TextOptions = TextOptions(
    required: Option<bool>,
    allowNull: Option<bool>,
    min: Option<int>,
    max: Option<int>,
    length: Option<int>,
    normalizer: Option<NormalizerOption>,
    charset: Option<string>,
    requiredMessage: Option<string>,
    maxMessage: Option<string>,
    minMessage: Option<string>,
    exactMessage: Option<string>,
    charsetMessage: Option<string>)

  /** A constraint declared without options. */
  const NoOptions := TextOptions(None, None, None, None, None, None, None, None, None, None, None, None)

  const DEFAULT_CHARSET: string := "UTF-8"
  const REQUIRED_MESSAGE: string := "lcv.required"
  const MAX_MESSAGE: string := "lcv.max_length_limit_mismatch"
  const MIN_MESSAGE: string := "lcv.min_length_limit_mismatch"
  const EXACT_MESSAGE: string := "lcv.exactly_length_limit_mismatch"
  const CHARSET_MESSAGE: string := "lcv.charset_mismatch"

  /** The given option, or the property's default when it is not set. */
  function OrDefault<T>(o: Option<T>, default: T): T {
    if o.Some? then o.value else default
  }

  /** The callable a normalizer option holds, if any. */
  function CallableOf(o: Option<NormalizerOption>): Option<Normalizer<string>> {
    if o.Some? && o.value.Callable? then Some(o.value.normalizer) else None
  }

  /** The constraint: its properties are set once, by the constructor. */
  class Text {
    var required: bool
    var allowNull: bool
    var max: Option<int>
    var min: Option<int>
    var normalizer: Option<Normalizer<string>>
    var charset: string
    var requiredMessage: string
    var maxMessage: string
    var minMessage: string
    var exactMessage: string
    var charsetMessage: string

    /**
     * The parent constructor: every property starts at its default and each
     * option that is set overrides it.
     */
    constructor (opts: TextOptions)
      ensures required == OrDefault(opts.required, true)
      ensures allowNull == OrDefault(opts.allowNull, false)
      ensures max == opts.max && min == opts.min
      ensures normalizer == CallableOf(opts.normalizer)
      ensures charset == OrDefault(opts.charset, DEFAULT_CHARSET)
      ensures requiredMessage == OrDefault(opts.requiredMessage, REQUIRED_MESSAGE)
      ensures maxMessage == OrDefault(opts.maxMessage, MAX_MESSAGE)
      ensures minMessage == OrDefault(opts.minMessage, MIN_MESSAGE)
      ensures exactMessage == OrDefault(opts.exactMessage, EXACT_MESSAGE)
      ensures charsetMessage == OrDefault(opts.charsetMessage, CHARSET_MESSAGE)
    {
      required := OrDefault(opts.required, true);
      allowNull := OrDefault(opts.allowNull, false);
      max := opts.max;
      min := opts.min;
      normalizer := CallableOf(opts.normalizer);
      charset := OrDefault(opts.charset, DEFAULT_CHARSET);
      requiredMessage := OrDefault(opts.requiredMessage, REQUIRED_MESSAGE);
      maxMessage := OrDefault(opts.maxMessage, MAX_MESSAGE);
      minMessage := OrDefault(opts.minMessage, MIN_MESSAGE);
      exactMessage := OrDefault(opts.exactMessage, EXACT_MESSAGE);
      charsetMessage := OrDefault(opts.charsetMessage, CHARSET_MESSAGE);
    }
  }

  /**
   * `length` without `min` and `max` becomes `min = max = length` and is
   * removed; otherwise the options are left as given.
   */
  method RewriteLength(options: TextOptions) returns (opts: TextOptions)
    ensures opts.length.None? <==> options.length.None? || (options.min.None? && options.max.None?)
    ensures options.length.Some? && options.min.None? && options.max.None? ==>
              opts.min == opts.max == options.length
    ensures options.length.None? || options.min.Some? || options.max.Some? ==>
              opts.min == options.min && opts.max == options.max
    ensures opts.required == options.required && opts.allowNull == options.allowNull
    ensures opts.normalizer == options.normalizer && opts.charset == options.charset
    ensures opts.requiredMessage == options.requiredMessage && opts.maxMessage == options.maxMessage
    ensures opts.minMessage == options.minMessage && opts.exactMessage == options.exactMessage
    ensures opts.charsetMessage == options.charsetMessage
  {
    opts := options;
    if opts.length.Some? && opts.min.None? && opts.max.None? {
      opts := opts.(min := opts.length, max := opts.length);
      opts := opts.(length := None);
    }
  }

  /**
   * `new Text($options)`: the `length` rewrite, then the parent constructor,
   * which rejects a `length` that is still there, then the normalizer check.
   */
  method NewText(options: TextOptions) returns (r: Result<Text, Exception>)
    ensures r.Failure? <==>
              (options.length.Some? && (options.min.Some? || options.max.Some?)) ||
              (options.normalizer.Some? && options.normalizer.value.NotCallable?)
    ensures r.Failure? && options.length.Some? && (options.min.Some? || options.max.Some?) ==>
              r.error == InvalidOptions
    ensures r.Failure? && (options.length.None? || (options.min.None? && options.max.None?)) ==>
              r.error == InvalidArgument
    ensures r.Success? ==> fresh(r.value)
    ensures r.Success? && options.length.Some? ==>
              r.value.min == r.value.max == options.length
    ensures r.Success? && options.length.None? ==>
              r.value.min == options.min && r.value.max == options.max
    ensures r.Success? ==> r.value.normalizer == CallableOf(options.normalizer)
    ensures r.Success? ==>
              r.value.required == OrDefault(options.required, true) &&
              r.value.allowNull == OrDefault(options.allowNull, false) &&
              r.value.charset == OrDefault(options.charset, DEFAULT_CHARSET)
  {
    var opts := RewriteLength(options);
    if opts.length.Some? {
      return Failure(InvalidOptions);
    }
    var t := new Text(opts);
    if opts.normalizer.Some? && opts.normalizer.value.NotCallable? {
      return Failure(InvalidArgument);
    }
    return Success(t);
  }
}
