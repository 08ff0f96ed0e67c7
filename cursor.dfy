/**
 * Cursor resolution (`getSkipData`), which both paginators implement with
 * the same code: choose the skip mode from the query and load the anchor
 * document by its identifier.
 */
module Cursor {
  import opened Wrappers
  import opened PhpStrings
  import opened Records
  import opened Query

  datatype SkipMode = NoSkip | StartingAfter | EndingBefore

  datatype SkipData = SkipData(mode: SkipMode, anchor: Option<Record>)

  /**
   * What a page request can fail with: the two `ApiException`s (HTTP 500),
   * a sort property without reflection data, and a `$limit` stage the
   * aggregation framework refuses.
   */
  datatype PageError =
    | InvalidPaginationFilter(filter: string, document: string)
    | DocumentNotFound(id: QueryValue)
    | UnknownSortProperty(field: string)
    | InvalidLimit(limit: int)

  /** The message key each error carries. */
  function MessageKey(e: PageError): string {
    match e
    case InvalidPaginationFilter(_, _) => "lcv.invalid_pagination_filter"
    case DocumentNotFound(_) => "lcv.document_not_found"
    case UnknownSortProperty(_) => "reflection: property does not exist"
    case InvalidLimit(_) => "$limit must be positive"
  }

  /**
   * `getSkipData`: `starting_after` wins over `ending_before`; the anchor is
   * found by the identifier the query value casts to, and a missing anchor
   * is an error.
   */
  function GetSkipData(store: seq<Record>, q: Params, cfg: Config): (r: Result<SkipData, PageError>)
    ensures !Has(q, cfg.startingAfterKey) && !Has(q, cfg.endingBeforeKey) ==>
      r == Success(SkipData(NoSkip, None))
    ensures Has(q, cfg.startingAfterKey) ==> r.Success? ==> r.value.mode == StartingAfter
    ensures !Has(q, cfg.startingAfterKey) && Has(q, cfg.endingBeforeKey) ==> r.Success? ==> r.value.mode == EndingBefore
    ensures r.Success? && r.value.mode != NoSkip ==>
      var raw := Get(q, if r.value.mode == StartingAfter then cfg.startingAfterKey else cfg.endingBeforeKey).value;
      r.value.anchor.Some? && r.value.anchor.value in store && r.value.anchor.value.id == IntCast(raw)
    ensures r.Failure? <==>
      (Has(q, cfg.startingAfterKey) || Has(q, cfg.endingBeforeKey)) &&
      var raw := Get(q, if Has(q, cfg.startingAfterKey) then cfg.startingAfterKey else cfg.endingBeforeKey).value;
      (forall x :: x in store ==> x.id != IntCast(raw)) && r == Failure(DocumentNotFound(raw))
  {
    if Has(q, cfg.startingAfterKey) || Has(q, cfg.endingBeforeKey) then
      var key := if Has(q, cfg.startingAfterKey) then cfg.startingAfterKey else cfg.endingBeforeKey;
      var mode := if Has(q, cfg.startingAfterKey) then StartingAfter else EndingBefore;
      var raw := Get(q, key).value;
      match FindById(store, IntCast(raw))
      case None => Failure(DocumentNotFound(raw))
      case Some(anchor) => Success(SkipData(mode, Some(anchor)))
    else
      Success(SkipData(NoSkip, None))
  }

  /**
   * A cursor written as the decimal identifier of a stored record resolves to
   * that record: the `starting_after` value a next link carries leads back to
   * the record it was taken from.
   */
  lemma CursorResolves(store: seq<Record>, q: Params, cfg: Config, x: Record)
    requires DistinctIds(store) && x in store && PHP_INT_MIN <= x.id <= PHP_INT_MAX
    requires Get(q, cfg.startingAfterKey) == Some(Scalar(IntToString(x.id)))
    ensures GetSkipData(store, q, cfg) == Success(SkipData(StartingAfter, Some(x)))
  {
    IntValOfIntToString(x.id);
    FindByIdOfMember(store, x);
  }
}
