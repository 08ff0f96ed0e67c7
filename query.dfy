/**
 * The request's query parameters (`$request->query`) in their order, and the
 * configuration keys the paginators read them by.
 */
module Query {
  import opened Wrappers
  import opened PhpStrings

  /** A query value: a string, an array of `[k]=v` entries, or an object with `getId()`. */
  datatype QueryValue =
    | Scalar(text: string)
    | Entries(items: seq<(string, string)>)
    | Ref(refId: string)

  type Params = seq<(string, QueryValue)>

  /** `$query->get($key)`: the value stored under the key, null when absent. */
  function Get(q: Params, key: string): (v: Option<QueryValue>)
    ensures v.Some? <==> exists i :: 0 <= i < |q| && q[i].0 == key
    ensures v.Some? ==> (key, v.value) in q
  {
    if q == [] then None
    else if q[0].0 == key then Some(q[0].1)
    else
      var v := Get(q[1..], key);
      assert forall i :: 0 < i < |q| ==> q[i] == q[1..][i - 1];
      v
  }

  /** `$query->has($key)`. */
  predicate Has(q: Params, key: string) {
    Get(q, key).Some?
  }

  /** PHP truthiness of a query value (null when absent). */
  predicate Truthy(v: Option<QueryValue>) {
    match v
    case None => false
    case Some(Scalar(t)) => t != "" && t != "0"
    case Some(Entries(items)) => items != []
    case Some(Ref(_)) => true
  }

  /** `intval` / `(int)` of a query value: arrays give 0 or 1, objects 1. */
  function IntCast(v: QueryValue): int {
    match v
    case Scalar(t) => IntVal(t)
    case Entries(items) => if items == [] then 0 else 1
    case Ref(_) => 1
  }

  /**
   * `in_array($value, $list)` with PHP's loose comparison for the cases that
   * arise here: null equals only the empty string, a string equals a list
   * entry under loose string equality (numeric strings by value), and an
   * array or an object equals no string.
   */
  predicate LooseIn(v: Option<QueryValue>, list: seq<string>) {
    match v
    case None => "" in list
    case Some(Scalar(t)) => LooseMember(t, list)
    case Some(Entries(_)) => false
    case Some(Ref(_)) => false
  }

  /** The scan `in_array` makes for a string: each entry in turn, compared loosely. */
  predicate LooseMember(t: string, list: seq<string>) {
    list != [] && (LooseStringEq(t, list[0]) || LooseMember(t, list[1..]))
  }

  /** The scan finds t exactly when some entry is loosely equal to it. */
  lemma {:induction false} LooseMemberIff(t: string, list: seq<string>)
    ensures LooseMember(t, list) <==> exists x :: x in list && LooseStringEq(t, x)
  {
    if list != [] {
      LooseMemberIff(t, list[1..]);
      assert forall x :: x in list <==> x == list[0] || x in list[1..];
    }
  }

  /** An entry of the list, given exactly, is found. */
  lemma LooseInExact(t: string, list: seq<string>)
    requires t in list
    ensures LooseIn(Some(Scalar(t)), list)
  {
    LooseStringEqReflexive(t);
    LooseMemberIff(t, list);
  }

  /** The descendant values the bundle configures when none are given. */
  const DefaultDescendantValues: seq<string> := ["-1", "desc", "DESC", "descendent", "DESCENDENT"]

  /** Against the default descendant values, other spellings of -1 match as well. */
  lemma DefaultDescendantSpellings()
    ensures LooseIn(Some(Scalar("-01")), DefaultDescendantValues)
    ensures LooseIn(Some(Scalar("-1.0")), DefaultDescendantValues)
    ensures LooseIn(Some(Scalar(" -1")), DefaultDescendantValues)
  {
    assert "-1" in DefaultDescendantValues;
    LooseLeadingZero();
    LooseZeroFraction();
    LooseLeadingSpace();
  }

  /** A non-numeric string matches only by its exact text. */
  lemma LooseInNonNumeric(t: string, list: seq<string>)
    requires !IsNumeric(t)
    ensures LooseIn(Some(Scalar(t)), list) <==> t in list
  {
    LooseMemberIff(t, list);
  }

  /** A spelling with trailing garbage, or in other letter case, matches none of them. */
  lemma DefaultDescendantMisses()
    ensures !LooseIn(Some(Scalar("-1x")), DefaultDescendantValues)
    ensures !LooseIn(Some(Scalar("Desc")), DefaultDescendantValues)
  {
    NotNumericTrailingGarbage();
    LooseInNonNumeric("-1x", DefaultDescendantValues);
    NotNumericDesc();
    LooseInNonNumeric("Desc", DefaultDescendantValues);
  }

  /** The `sort_options` and `pagination_options` keys. */
  datatype Config = Config(
    orderByKey: string,
    orderKey: string,
    descendantValues: seq<string>,
    limitKey: string,
    startingAfterKey: string,
    endingBeforeKey: string)

  predicate IsCursorKey(cfg: Config, key: string) {
    key == cfg.startingAfterKey || key == cfg.endingBeforeKey
  }
}
