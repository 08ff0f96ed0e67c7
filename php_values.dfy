/**
 * The PHP values a form field can hold when a constraint validator sees it,
 * and the three PHP operations the validators apply to them: the "blank"
 * test `false === $v || (empty($v) && '0' != $v)`, the type guard
 * `is_scalar($v) || (is_object($v) && method_exists($v, '__toString'))`, and
 * the `(string)` cast.
 */
module PhpValues {
  import opened PhpStrings

  /**
   * An array is represented by its number of entries, an object by whether
   * it has `__toString` and what that returns; floats are not modelled.
   */
  datatype PhpValue =
    | Null
    | Bool(b: bool)
    | Int(i: int)
    | Str(s: string)
    | Arr(size: nat)
    | Obj(hasToString: bool, text: string)

  /** PHP's `empty()`: null, false, 0, "", "0" and the empty array. */
  predicate Empty(v: PhpValue) {
    match v
    case Null => true
    case Bool(b) => !b
    case Int(i) => i == 0
    case Str(s) => s == "" || s == "0"
    case Arr(n) => n == 0
    case Obj(_, _) => false
  }

  /**
   * `'0' == $v` under PHP's loose comparison, on the values `empty()`
   * accepts: null is compared as "", false as the boolean of '0', 0
   * numerically, strings as strings and an array is never equal to a string.
   */
  predicate LooselyZeroString(v: PhpValue)
    requires Empty(v)
  {
    match v
    case Null => false
    case Bool(_) => true
    case Int(_) => true
    case Str(s) => s == "0"
    case Arr(_) => false
  }

  /**
   * The "required" test the three validators share.  It holds for exactly
   * false, null, "" and the empty array; "0" and 0 are not blank.
   */
  predicate IsBlank(v: PhpValue): (b: bool)
    ensures b <==> v == Null || v == Bool(false) || v == Str("") || v == Arr(0)
    ensures v == Str("0") || v == Int(0) ==> !b
  {
    v == Bool(false) || (Empty(v) && !LooselyZeroString(v))
  }

  /** Scalars and objects with `__toString` can be cast to a string. */
  predicate IsStringable(v: PhpValue): (b: bool)
    ensures b <==> v.Bool? || v.Int? || v.Str? || (v.Obj? && v.hasToString)
  {
    match v
    case Null => false
    case Bool(_) => true
    case Int(_) => true
    case Str(_) => true
    case Arr(_) => false
    case Obj(m, _) => m
  }

  /** `(string) $v`: true is "1", false is "", integers print in decimal. */
  function ToText(v: PhpValue): (s: string)
    requires IsStringable(v)
    ensures v.Str? ==> s == v.s
    ensures v.Int? && PHP_INT_MIN <= v.i <= PHP_INT_MAX ==> IntVal(s) == v.i
    ensures v.Bool? ==> (s == "" <==> !v.b)
  {
    match v
    case Bool(b) => if b then "1" else ""
    case Int(i) =>
      if PHP_INT_MIN <= i <= PHP_INT_MAX then IntValOfIntToString(i); IntToString(i)
      else IntToString(i)
    case Str(s) => s
    case Obj(_, t) => t
  }
}
