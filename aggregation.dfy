/**
 * The aggregation-pipeline paginator (Pagination/AggregationPaginator.php):
 * the caller's pipeline, extended with a seek `$match`, a `$sort` on the
 * sort field alone and a `$limit`; a `$group` stage for count and bounds.
 */
module AggregationPaginator {
  import opened Wrappers
  import opened Records
  import opened Sorting
  import opened Query
  import opened PhpStrings
  import opened Cursor
  import opened NextData
  import Paginator

  /** `getSortData`'s result: `order` is 1 (ascending) or -1 (descending). */
  datatype SortData = SortData(orderBy: string, order: int)

  /**
   * `getSortData`: the requested field when it is one of the available sort
   * fields (loosely), `id` otherwise; -1 exactly when the order token is a
   * descendant value, negated when paging backwards.
   */
  function GetSortData(available: seq<string>, q: Params, cfg: Config, mode: SkipMode): (sd: SortData)
    ensures !LooseIn(Get(q, cfg.orderByKey), available) ==> sd.orderBy == "id"
    ensures LooseIn(Get(q, cfg.orderByKey), available) ==> exists x :: x in available && LooseStringEq(sd.orderBy, x)
    ensures LooseIn(Get(q, cfg.orderByKey), available) && Get(q, cfg.orderByKey).Some? ==>
      sd.orderBy == Get(q, cfg.orderByKey).value.text
    ensures sd.order == 1 || sd.order == -1
    ensures mode != EndingBefore ==> (sd.order == -1 <==> LooseIn(Get(q, cfg.orderKey), cfg.descendantValues))
    ensures mode == EndingBefore ==> (sd.order == 1 <==> LooseIn(Get(q, cfg.orderKey), cfg.descendantValues))
  {
    var requested := Get(q, cfg.orderByKey);
    // a null parameter that loosely matches becomes the empty array key
    var orderBy := if !LooseIn(requested, available) then "id" else if requested.Some? then requested.value.text else "";
    assert LooseIn(requested, available) ==> exists x :: x in available && LooseStringEq(orderBy, x) by {
      if LooseIn(requested, available) {
        if requested.Some? {
          LooseMemberIff(orderBy, available);
        } else {
          LooseStringEqReflexive("");
        }
      }
    }
    var order := if LooseIn(Get(q, cfg.orderKey), cfg.descendantValues) then -1 else 1;
    SortData(orderBy, if mode == EndingBefore then (if order == -1 then 1 else -1) else order)
  }

  /** The direction a `$sort` value of 1 or -1 stands for. */
  function DirOf(order: int): Direction {
    if order == 1 then Asc else Desc
  }

  /**
   * Both paginators read the order token the same way: the aggregation
   * paginator's 1/-1 is the sign of the query-builder paginator's direction.
   */
  lemma DirectionsAgree(meta: Metadata, forbidden: seq<string>, available: seq<string>, q: Params, cfg: Config, mode: SkipMode)
    ensures GetSortData(available, q, cfg, mode).order == Sign(Paginator.GetSortData(meta, forbidden, q, cfg, mode).order)
    ensures DirOf(GetSortData(available, q, cfg, mode).order) == Paginator.GetSortData(meta, forbidden, q, cfg, mode).order
  {
  }

  /** The pipeline stages the paginator works with. */
  datatype Stage =
    | MatchStage(criteria: seq<Criterion>)
    | SortStage(field: string, dir: Direction)
    | LimitStage(n: int)

  /**
   * Running stages over a stream of documents.  `$sort` on one field keeps
   * ties in their incoming order (MongoDB leaves it unspecified); a `$limit`
   * that is not positive is rejected.
   */
  function RunStages(docs: seq<Record>, stages: seq<Stage>): Result<seq<Record>, PageError>
    decreases |stages|
  {
    if stages == [] then Success(docs)
    else
      match stages[0]
      case MatchStage(cs) => RunStages(Select(docs, cs), stages[1..])
      case SortStage(f, d) => RunStages(Sort(docs, [(f, d)]), stages[1..])
      case LimitStage(n) => if n <= 0 then Failure(InvalidLimit(n)) else RunStages(Window(docs, Some(n)), stages[1..])
  }

  /** A pipeline fails exactly when one of its `$limit` stages is not positive. */
  lemma {:induction false} RunStagesFails(docs: seq<Record>, stages: seq<Stage>)
    ensures RunStages(docs, stages).Failure? <==>
      exists i :: 0 <= i < |stages| && stages[i].LimitStage? && stages[i].n <= 0
    decreases |stages|
  {
    if stages != [] && !(stages[0].LimitStage? && stages[0].n <= 0) {
      var rest := stages[1..];
      var next := match stages[0]
        case MatchStage(cs) => Select(docs, cs)
        case SortStage(f, d) => Sort(docs, [(f, d)])
        case LimitStage(n) => Window(docs, Some(n));
      assert RunStages(docs, stages) == RunStages(next, rest);
      RunStagesFails(next, rest);
      if RunStages(next, rest).Failure? {
        var k :| 0 <= k < |rest| && rest[k].LimitStage? && rest[k].n <= 0;
        assert stages[k + 1] == rest[k];
      }
      if exists i :: 0 <= i < |stages| && stages[i].LimitStage? && stages[i].n <= 0 {
        var i :| 0 <= i < |stages| && stages[i].LimitStage? && stages[i].n <= 0;
        assert rest[i - 1] == stages[i];
      }
    }
  }

  /** A pipeline ending in a `$limit` that is not positive fails. */
  lemma RunLastLimitFails(docs: seq<Record>, a: seq<Stage>, n: int)
    requires n <= 0
    ensures RunStages(docs, a + [LimitStage(n)]).Failure?
  {
    RunStagesAppend(docs, a, [LimitStage(n)]);
  }

  /** Every stage only keeps or reorders documents. */
  lemma {:induction false} RunStagesMembers(docs: seq<Record>, stages: seq<Stage>)
    requires RunStages(docs, stages).Success?
    ensures forall x :: x in RunStages(docs, stages).value ==> x in docs
    ensures DistinctIds(docs) ==> DistinctIds(RunStages(docs, stages).value)
    decreases |stages|
  {
    if stages != [] {
      match stages[0]
      case MatchStage(cs) =>
        RunStagesMembers(Select(docs, cs), stages[1..]);
        if DistinctIds(docs) { SelectDistinct(docs, cs); }
      case SortStage(f, d) =>
        RunStagesMembers(Sort(docs, [(f, d)]), stages[1..]);
        SortMembers(docs, [(f, d)]);
        if DistinctIds(docs) { SortDistinct(docs, [(f, d)]); }
      case LimitStage(n) =>
        var w := Window(docs, Some(n));
        RunStagesMembers(w, stages[1..]);
        assert forall x :: x in w ==> x in docs;
    }
  }

  lemma {:induction false} RunStagesAppend(docs: seq<Record>, a: seq<Stage>, b: seq<Stage>)
    ensures RunStages(docs, a + b) ==
      match RunStages(docs, a)
      case Failure(e) => Failure(e)
      case Success(mid) => RunStages(mid, b)
    decreases |a|
  {
    if a == [] {
      assert a + b == b;
    } else {
      assert (a + b)[1..] == a[1..] + b;
      match a[0]
      case MatchStage(cs) => RunStagesAppend(Select(docs, cs), a[1..], b);
      case SortStage(f, d) => RunStagesAppend(Sort(docs, [(f, d)]), a[1..], b);
      case LimitStage(n) =>
        if n > 0 {
          RunStagesAppend(Window(docs, Some(n)), a[1..], b);
        }
    }
  }

  /** The `$group` stage: count, first and last of the stream; no output for an empty stream. */
  datatype GroupResult = GroupResult(count: nat, first: Record, last: Record)

  function Group(docs: seq<Record>): (g: Option<GroupResult>)
    ensures g.None? <==> docs == []
    ensures g.Some? ==> g.value.count == |docs| && g.value.first == docs[0] && g.value.last == docs[|docs| - 1]
  {
    if docs == [] then None else Some(GroupResult(|docs|, docs[0], docs[|docs| - 1]))
  }

  /** The `$limit` stage `applyLimit` appends: the parameter through `intval`, when truthy. */
  function LimitStages(q: Params, cfg: Config): seq<Stage> {
    var raw := Get(q, cfg.limitKey);
    if Truthy(raw) then [LimitStage(IntCast(raw.value))] else []
  }

  /** `applyLimit`, appending to the pipeline passed by reference. */
  method ApplyLimit(aggregation: seq<Stage>, q: Params, cfg: Config) returns (result: seq<Stage>)
    ensures result == aggregation + LimitStages(q, cfg)
    ensures |result| <= |aggregation| + 1 && result[..|aggregation|] == aggregation
  {
    result := aggregation;
    var raw := Get(q, cfg.limitKey);
    if Truthy(raw) {
      result := result + [LimitStage(IntCast(raw.value))];
    }
  }

  /** The seek `$match` stage, when a cursor is given. */
  function SeekStages(sd: SortData, skip: SkipData): seq<Stage>
    requires skip.mode != NoSkip ==> skip.anchor.Some?
  {
    if skip.mode != NoSkip then [MatchStage([Paginator.SeekCriterion(sd.orderBy, DirOf(sd.order), skip.anchor.value)])] else []
  }

  /**
   * The result of `paginate`.  The anchor is looked up first; the rest
   * depends only on the sort data and the cursor found.
   */
  function PageOf(store: seq<Record>, meta: Metadata, aggregation: seq<Stage>, available: seq<string>,
                  env: Paginator.Env): (r: Result<Paginator.Page, PageError>)
    ensures GetSkipData(store, env.query, env.cfg).Failure? ==> r == Failure(GetSkipData(store, env.query, env.cfg).error)
  {
    match GetSkipData(store, env.query, env.cfg)
    case Failure(e) => Failure(e)
    case Success(skip) => PageFor(store, meta, aggregation, GetSortData(available, env.query, env.cfg, skip.mode), skip, env)
  }

  /**
   * The count pipeline (caller's stages, `$sort`, `$group`) gives the total
   * and the boundary documents; reading the sort property of the anchor
   * fails for a field the document does not map; then the page pipeline
   * runs.
   */
  function PageFor(store: seq<Record>, meta: Metadata, aggregation: seq<Stage>, sd: SortData, skip: SkipData,
                   env: Paginator.Env): Result<Paginator.Page, PageError>
    requires skip.mode != NoSkip ==> skip.anchor.Some?
  {
    match RunStages(store, aggregation + [SortStage(sd.orderBy, DirOf(sd.order))])
    case Failure(e) => Failure(e)
    case Success(counted) =>
      if skip.mode != NoSkip && sd.orderBy != "id" && sd.orderBy !in meta.fields then
        Failure(UnknownSortProperty(sd.orderBy))
      else
        match RunStages(store, aggregation + DataStages(sd, skip, env.query, env.cfg))
        case Failure(e) => Failure(e)
        case Success(batch) => Success(Assemble(batch, Group(counted), skip.mode, env))
  }

  /** The stages `paginate` appends to the caller's pipeline for the page itself. */
  function DataStages(sd: SortData, skip: SkipData, q: Params, cfg: Config): seq<Stage>
    requires skip.mode != NoSkip ==> skip.anchor.Some?
  {
    SeekStages(sd, skip) + [SortStage(sd.orderBy, DirOf(sd.order))] + LimitStages(q, cfg)
  }

  /**
   * The page `paginate` returns for the page pipeline's output and the
   * `$group` result: boundary documents only when the count is positive,
   * the batch reversed when paging backwards, the copied query string
   * rebuilt with `&` between all pairs.
   */
  function Assemble(batch: seq<Record>, group: Option<GroupResult>, mode: SkipMode, env: Paginator.Env): (p: Paginator.Page)
    ensures p.data == if mode == EndingBefore then Reverse(batch) else batch
    ensures p.total == if group.Some? then group.value.count else 0
    ensures var first := if group.Some? && group.value.count > 0 then Some(group.value.first) else None;
      var last := if group.Some? && group.value.count > 0 then Some(group.value.last) else None;
      var flags := ComputeFlags(p.data, mode, first, last);
      p.hasNext == flags.hasNext && p.hasPrev == flags.hasPrev
    ensures Links(p.nextUrl, p.prevUrl) ==
      PaginationUrls(env.origin + Serialize(env.query, env.cfg, true, true), p.data, Has(env.query, env.cfg.limitKey),
                     mode, !p.hasPrev, !p.hasNext, env.cfg)
  {
    var total := if group.Some? then group.value.count else 0;
    var first := if total > 0 then Some(group.value.first) else None;
    var last := if total > 0 then Some(group.value.last) else None;
    var data := if mode == EndingBefore then Reverse(batch) else batch;
    var next := ProvideNextData(data, mode, first, last, Has(env.query, env.cfg.limitKey),
                                env.origin + Serialize(env.query, env.cfg, true, true), env.cfg);
    Paginator.Page(data, total, next.flags.hasNext, next.flags.hasPrev, next.links.next, next.links.prev)
  }

  lemma PageOfFound(store: seq<Record>, meta: Metadata, aggregation: seq<Stage>, available: seq<string>,
                    env: Paginator.Env)
    requires GetSkipData(store, env.query, env.cfg).Success?
    ensures var skip := GetSkipData(store, env.query, env.cfg).value;
      (skip.mode != NoSkip ==> skip.anchor.Some?) &&
      PageOf(store, meta, aggregation, available, env) ==
        PageFor(store, meta, aggregation, GetSortData(available, env.query, env.cfg, skip.mode), skip, env)
  {
  }

  lemma SeqAssoc(a: seq<Stage>, b: seq<Stage>, c: seq<Stage>)
    ensures a + b + c == a + (b + c)
  {
  }

  /** `paginate`: builds the two pipelines step by step and assembles the result. */
  method Paginate(store: seq<Record>, meta: Metadata, aggregation0: seq<Stage>, available: seq<string>,
                  env: Paginator.Env) returns (r: Result<Paginator.Page, PageError>)
    ensures r == PageOf(store, meta, aggregation0, available, env)
  {
    var aggregation := aggregation0;
    var skipResult := GetSkipData(store, env.query, env.cfg);
    if skipResult.Failure? {
      return Failure(skipResult.error);
    }
    var sd := GetSortData(available, env.query, env.cfg, skipResult.value.mode);
    PageOfFound(store, meta, aggregation0, available, env);
    var countAggregation := aggregation + [SortStage(sd.orderBy, DirOf(sd.order))];
    var countResult := RunStages(store, countAggregation);
    if countResult.Failure? {
      return Failure(countResult.error);
    }
    var group := Group(countResult.value);
    // the cursor is read a second time; the request has not changed
    skipResult := GetSkipData(store, env.query, env.cfg);
    var skip := skipResult.value;
    if skip.mode != NoSkip {
      if sd.orderBy != "id" && sd.orderBy !in meta.fields {
        return Failure(UnknownSortProperty(sd.orderBy));
      }
      var seek := Paginator.SeekCriterion(sd.orderBy, DirOf(sd.order), skip.anchor.value);
      aggregation := aggregation + [MatchStage([seek])];
    }
    assert aggregation == aggregation0 + SeekStages(sd, skip);
    aggregation := aggregation + [SortStage(sd.orderBy, DirOf(sd.order))];
    aggregation := ApplyLimit(aggregation, env.query, env.cfg);
    assert aggregation == aggregation0 + DataStages(sd, skip, env.query, env.cfg) by {
      SeqAssoc(aggregation0, SeekStages(sd, skip) + [SortStage(sd.orderBy, DirOf(sd.order))], LimitStages(env.query, env.cfg));
      SeqAssoc(aggregation0, SeekStages(sd, skip), [SortStage(sd.orderBy, DirOf(sd.order))]);
    }
    var dataResult := RunStages(store, aggregation);
    if dataResult.Failure? {
      return Failure(dataResult.error);
    }
    var page := AssemblePage(dataResult.value, group, skip.mode, env);
    r := Success(page);
  }

  /** The end of `paginate`: boundary documents, reversal, and `provideNextData`. */
  method AssemblePage(batch: seq<Record>, group: Option<GroupResult>, mode: SkipMode, env: Paginator.Env)
    returns (page: Paginator.Page)
    ensures page == Assemble(batch, group, mode, env)
  {
    var total := if group.Some? then group.value.count else 0;
    var first: Option<Record> := None;
    var last: Option<Record> := None;
    if total > 0 {
      first := Some(group.value.first);
      last := Some(group.value.last);
    }
    var data := batch;
    if mode == EndingBefore {
      data := Reverse(data);
    }
    var prefix := BuildQueryUrl(env.origin, env.query, env.cfg, true);
    var next := ProvideNextData(data, mode, first, last, Has(env.query, env.cfg.limitKey), prefix, env.cfg);
    page := Paginator.Page(data, total, next.flags.hasNext, next.flags.hasPrev, next.links.next, next.links.prev);
  }

  /** Every record satisfies no criteria at all. */
  lemma {:induction false} SelectNone(xs: seq<Record>)
    ensures Select(xs, []) == xs
  {
    if xs != [] {
      SelectNone(xs[1..]);
      assert MatchesAll(xs[0], []);
    }
  }

  /** No two records of the set agree on the sort field (two nulls agree). */
  predicate UniqueValues(xs: seq<Record>, f: string) {
    forall r, s :: r in xs && s in xs && r != s ==> FieldValue(r, f) != FieldValue(s, f)
  }

  /** With unique identifiers, `id` is such a field. */
  lemma IdsAreUnique(xs: seq<Record>)
    requires DistinctIds(xs)
    ensures UniqueValues(xs, "id")
  {
    forall r, s | r in xs && s in xs && r != s ensures FieldValue(r, "id") != FieldValue(s, "id") {
      DistinctIdsDiffer(xs, r, s);
    }
  }

  /** Between records with different sort values the tie-breaker never decides. */
  lemma NotAfterWithoutTies(x: Record, y: Record, f: string, d: Direction)
    requires x == y || FieldValue(x, f) != FieldValue(y, f)
    ensures NotAfter(x, y, [(f, d)]) <==> NotAfter(x, y, Paginator.SortStages(f, d))
  {
    if x != y {
      var st := Paginator.SortStages(f, d);
      Paginator.ComponentOrder(x, y, f, d);
      Paginator.StagesOrder(x, y, f, d);
      assert [(f, d)][1..] == [];
      assert Key(x, [(f, d)]) == Component(x, f, d);
      assert Key(y, [(f, d)]) == Component(y, f, d);
      assert Key(x, st)[..2] == Component(x, f, d);
      assert Key(y, st)[..2] == Component(y, f, d);
    }
  }

  lemma {:induction false} InsertWithoutTies(x: Record, ys: seq<Record>, f: string, d: Direction)
    requires forall y :: y in ys ==> x == y || FieldValue(x, f) != FieldValue(y, f)
    ensures Insert(x, ys, [(f, d)]) == Insert(x, ys, Paginator.SortStages(f, d))
  {
    if ys != [] {
      NotAfterWithoutTies(x, ys[0], f, d);
      InsertWithoutTies(x, ys[1..], f, d);
    }
  }

  /**
   * `$sort` on the field alone orders a set without ties exactly as the
   * query-builder paginator's field-then-identifier sort does.
   */
  lemma {:induction false} SortWithoutTies(xs: seq<Record>, f: string, d: Direction)
    requires UniqueValues(xs, f)
    ensures Sort(xs, [(f, d)]) == Sort(xs, Paginator.SortStages(f, d))
  {
    if xs != [] {
      var rest := xs[1..];
      assert forall y :: y in rest ==> y in xs;
      SortWithoutTies(rest, f, d);
      SortMembers(rest, [(f, d)]);
      InsertWithoutTies(xs[0], Sort(rest, [(f, d)]), f, d);
    }
  }

  /** The last record of the composite sort is the one `getLastDocument` would return. */
  lemma SortedLastIsMaximum(base: seq<Record>, f: string, d: Direction)
    requires DistinctIds(base) && base != []
    ensures Sort(base, Paginator.SortStages(f, d))[|base| - 1] == Paginator.LastUnder(base, f, d).value
  {
    var st := Paginator.SortStages(f, d);
    var top := Sort(base, st)[|base| - 1];
    var hi := Paginator.LastUnder(base, f, d).value;
    Paginator.BoundariesAreExtremes(base, f, d);
    SortMembers(base, st);
    assert top in Sort(base, st);
    if top != hi {
      SortLastIsGreatest(base, st, hi);
      LexLtAsymmetric(Key(top, st), Key(hi, st));
      LexLtIrreflexive(Key(top, st));
    }
  }

  lemma RunSeek(base: seq<Record>, sd: SortData, skip: SkipData)
    requires skip.mode != NoSkip ==> skip.anchor.Some?
    ensures RunStages(base, SeekStages(sd, skip)) ==
      Success(Select(base, Paginator.SeekList(Paginator.SortData(sd.orderBy, DirOf(sd.order)), skip)))
  {
    if skip.mode == NoSkip {
      SelectNone(base);
    } else {
      var cs := [Paginator.SeekCriterion(sd.orderBy, DirOf(sd.order), skip.anchor.value)];
      assert SeekStages(sd, skip) == [MatchStage(cs)];
      assert [MatchStage(cs)][1..] == [];
    }
  }

  lemma RunSortThenLimit(xs: seq<Record>, f: string, d: Direction, lim: seq<Stage>)
    requires lim == [] || (|lim| == 1 && lim[0].LimitStage? && lim[0].n > 0)
    ensures RunStages(xs, [SortStage(f, d)] + lim) ==
      Success(Window(Sort(xs, [(f, d)]), if lim == [] then None else Some(lim[0].n)))
  {
    var sorted := Sort(xs, [(f, d)]);
    var stages := [SortStage(f, d)] + lim;
    assert stages[0] == SortStage(f, d) && stages[1..] == lim;
    assert RunStages(xs, stages) == RunStages(sorted, lim);
    if lim != [] {
      var n := lim[0].n;
      assert lim[1..] == [];
      assert RunStages(sorted, lim) == RunStages(Window(sorted, Some(n)), []);
    }
  }

  /** The page pipeline after the caller's stages: seek, sort on the field alone, limit. */
  lemma PagePipeline(base: seq<Record>, sd: SortData, skip: SkipData, lim: seq<Stage>)
    requires skip.mode != NoSkip ==> skip.anchor.Some?
    requires lim == [] || (|lim| == 1 && lim[0].LimitStage? && lim[0].n > 0)
    ensures var psd := Paginator.SortData(sd.orderBy, DirOf(sd.order));
      var cands := Select(base, Paginator.SeekList(psd, skip));
      RunStages(base, SeekStages(sd, skip) + [SortStage(sd.orderBy, DirOf(sd.order))] + lim) ==
        Success(Window(Sort(cands, [(sd.orderBy, DirOf(sd.order))]), if lim == [] then None else Some(lim[0].n)))
  {
    var sort := SortStage(sd.orderBy, DirOf(sd.order));
    var seek := SeekStages(sd, skip);
    RunStagesAppend(base, seek, [sort] + lim);
    assert seek + [sort] + lim == seek + ([sort] + lim);
    RunSeek(base, sd, skip);
    RunSortThenLimit(RunStages(base, seek).value, sd.orderBy, DirOf(sd.order), lim);
  }

  /** A successful page means the caller's pipeline ran. */
  lemma PageForBase(store: seq<Record>, meta: Metadata, aggregation: seq<Stage>, sd: SortData, skip: SkipData,
                    env: Paginator.Env)
    requires skip.mode != NoSkip ==> skip.anchor.Some?
    requires PageFor(store, meta, aggregation, sd, skip, env).Success?
    ensures RunStages(store, aggregation).Success?
    ensures RunStages(store, aggregation + [SortStage(sd.orderBy, DirOf(sd.order))]) ==
      Success(Sort(RunStages(store, aggregation).value, [(sd.orderBy, DirOf(sd.order))]))
  {
    RunStagesAppend(store, aggregation, [SortStage(sd.orderBy, DirOf(sd.order))]);
    RunSort(RunStages(store, aggregation).value, sd.orderBy, DirOf(sd.order));
  }

  /** A successful page means the appended `$limit`, if any, is positive. */
  lemma PageForLimit(store: seq<Record>, meta: Metadata, aggregation: seq<Stage>, sd: SortData, skip: SkipData,
                     env: Paginator.Env)
    requires skip.mode != NoSkip ==> skip.anchor.Some?
    requires PageFor(store, meta, aggregation, sd, skip, env).Success?
    ensures var lim := LimitStages(env.query, env.cfg);
      lim == [] || (|lim| == 1 && lim[0].LimitStage? && lim[0].n > 0)
  {
    var lim := LimitStages(env.query, env.cfg);
    if lim != [] && lim[0].n <= 0 {
      var front := SeekStages(sd, skip) + [SortStage(sd.orderBy, DirOf(sd.order))];
      assert aggregation + DataStages(sd, skip, env.query, env.cfg) == (aggregation + front) + [LimitStage(lim[0].n)];
      RunLastLimitFails(store, aggregation + front, lim[0].n);
    }
  }

  /** What a successful page is made of: the page pipeline's output and the count pipeline's bounds. */
  lemma PageForParts(store: seq<Record>, meta: Metadata, aggregation: seq<Stage>, sd: SortData, skip: SkipData,
                     env: Paginator.Env)
    requires skip.mode != NoSkip ==> skip.anchor.Some?
    requires PageFor(store, meta, aggregation, sd, skip, env).Success?
    ensures RunStages(store, aggregation).Success?
    ensures var base := RunStages(store, aggregation).value;
      var lim := LimitStages(env.query, env.cfg);
      (lim == [] || (|lim| == 1 && lim[0].LimitStage? && lim[0].n > 0)) &&
      RunStages(base, DataStages(sd, skip, env.query, env.cfg)).Success? &&
      PageFor(store, meta, aggregation, sd, skip, env).value ==
        Assemble(RunStages(base, DataStages(sd, skip, env.query, env.cfg)).value,
                 Group(Sort(base, [(sd.orderBy, DirOf(sd.order))])), skip.mode, env)
  {
    PageForBase(store, meta, aggregation, sd, skip, env);
    PageForLimit(store, meta, aggregation, sd, skip, env);
    RunStagesAppend(store, aggregation, DataStages(sd, skip, env.query, env.cfg));
  }

  lemma RunSort(xs: seq<Record>, f: string, d: Direction)
    ensures RunStages(xs, [SortStage(f, d)]) == Success(Sort(xs, [(f, d)]))
  {
    assert [SortStage(f, d)][1..] == [];
  }

  /** The count the page reports is the size of the caller's pipeline output, whatever the cursor. */
  lemma TotalIgnoresCursor(store: seq<Record>, meta: Metadata, aggregation: seq<Stage>, available: seq<string>,
                           env: Paginator.Env)
    requires PageOf(store, meta, aggregation, available, env).Success?
    ensures RunStages(store, aggregation).Success?
    ensures PageOf(store, meta, aggregation, available, env).value.total == |RunStages(store, aggregation).value|
  {
    PageOfCursor(store, meta, aggregation, available, env);
    var skip := GetSkipData(store, env.query, env.cfg).value;
    var sd := GetSortData(available, env.query, env.cfg, skip.mode);
    PageForParts(store, meta, aggregation, sd, skip, env);
  }

  /** The sort data of a cursor request, read back in the order the client asked for. */
  lemma RequestedOrder(available: seq<string>, q: Params, cfg: Config, mode: SkipMode)
    ensures GetSortData(available, q, cfg, mode).orderBy == GetSortData(available, q, cfg, NoSkip).orderBy
    ensures Paginator.UserDirection(DirOf(GetSortData(available, q, cfg, mode).order), mode) ==
      DirOf(GetSortData(available, q, cfg, NoSkip).order)
  {
  }

  /** `paginate` after a successful cursor lookup. */
  lemma PageOfCursor(store: seq<Record>, meta: Metadata, aggregation: seq<Stage>, available: seq<string>,
                     env: Paginator.Env)
    requires PageOf(store, meta, aggregation, available, env).Success?
    ensures GetSkipData(store, env.query, env.cfg).Success?
    ensures var skip := GetSkipData(store, env.query, env.cfg).value;
      (skip.mode != NoSkip ==> skip.anchor.Some?) &&
      PageOf(store, meta, aggregation, available, env) ==
        PageFor(store, meta, aggregation, GetSortData(available, env.query, env.cfg, skip.mode), skip, env)
  {
  }

  /** Without ties, the `$group` bounds are the query-builder paginator's boundary documents. */
  lemma BoundsWithoutTies(base: seq<Record>, f: string, d: Direction)
    requires DistinctIds(base) && UniqueValues(base, f)
    ensures var g := Group(Sort(base, [(f, d)]));
      (if g.Some? && g.value.count > 0 then Some(g.value.first) else None) ==
        (if |base| > 0 then Paginator.FirstUnder(base, f, d) else None) &&
      (if g.Some? && g.value.count > 0 then Some(g.value.last) else None) ==
        (if |base| > 0 then Paginator.LastUnder(base, f, d) else None)
  {
    SortWithoutTies(base, f, d);
    if base != [] {
      SortedLastIsMaximum(base, f, d);
    }
  }

  /** Without ties, the page pipeline returns the query-builder paginator's page query. */
  lemma DataWithoutTies(base: seq<Record>, sd: SortData, skip: SkipData, q: Params, cfg: Config)
    requires skip.mode != NoSkip ==> skip.anchor.Some?
    requires UniqueValues(base, sd.orderBy)
    requires var lim := LimitStages(q, cfg); lim == [] || (|lim| == 1 && lim[0].LimitStage? && lim[0].n > 0)
    ensures RunStages(base, DataStages(sd, skip, q, cfg)).Success?
    ensures var batch := RunStages(base, DataStages(sd, skip, q, cfg)).value;
      var lim := LimitStages(q, cfg);
      (if skip.mode == EndingBefore then Reverse(batch) else batch) ==
        Paginator.FetchPage(base, [], Paginator.SortData(sd.orderBy, DirOf(sd.order)), skip,
                            if lim == [] then None else Some(lim[0].n))
  {
    var f, d := sd.orderBy, DirOf(sd.order);
    var psd := Paginator.SortData(f, d);
    PagePipeline(base, sd, skip, LimitStages(q, cfg));
    var seek := Paginator.SeekList(psd, skip);
    SelectUnique(base, seek, f);
    SortWithoutTies(Select(base, seek), f, d);
    assert [] + seek == seek;
  }

  lemma SelectUnique(xs: seq<Record>, cs: seq<Criterion>, f: string)
    requires UniqueValues(xs, f)
    ensures UniqueValues(Select(xs, cs), f)
  {
  }

  /**
   * Without ties on the sort field, the page is the query-builder
   * paginator's page query over the pipeline's output, and its flags are
   * computed from that paginator's boundary documents.
   */
  lemma SameAsQueryBuilder(store: seq<Record>, meta: Metadata, aggregation: seq<Stage>, sd: SortData, skip: SkipData,
                           env: Paginator.Env)
    requires DistinctIds(store) && (skip.mode != NoSkip ==> skip.anchor.Some?)
    requires PageFor(store, meta, aggregation, sd, skip, env).Success?
    requires RunStages(store, aggregation).Success? && UniqueValues(RunStages(store, aggregation).value, sd.orderBy)
    ensures var p := PageFor(store, meta, aggregation, sd, skip, env).value;
      var base := RunStages(store, aggregation).value;
      var psd := Paginator.SortData(sd.orderBy, DirOf(sd.order));
      var lim := LimitStages(env.query, env.cfg);
      var limit := if lim == [] then None else Some(lim[0].n);
      var first := if |base| > 0 then Paginator.FirstUnder(base, psd.orderBy, psd.order) else None;
      var last := if |base| > 0 then Paginator.LastUnder(base, psd.orderBy, psd.order) else None;
      DistinctIds(base) &&
      p.data == Paginator.FetchPage(base, [], psd, skip, limit) &&
      p.hasNext == ComputeFlags(p.data, skip.mode, first, last).hasNext &&
      p.hasPrev == ComputeFlags(p.data, skip.mode, first, last).hasPrev
  {
    PageForParts(store, meta, aggregation, sd, skip, env);
    var base := RunStages(store, aggregation).value;
    RunStagesMembers(store, aggregation);
    DataWithoutTies(base, sd, skip, env.query, env.cfg);
    BoundsWithoutTies(base, sd.orderBy, DirOf(sd.order));
  }

  /**
   * A page as a window of a set in an order: every record of it lies on the
   * cursor's side of the anchor, the page is strictly increasing, and a
   * record of the set on the cursor's side that the page leaves out lies
   * beyond the whole page (when it agrees with the anchor on whether the
   * field f is null).
   */
  predicate WindowExact(data: seq<Record>, base: seq<Record>, skip: SkipData, us: SortList, f: string)
    requires skip.mode != NoSkip ==> skip.anchor.Some?
  {
    (forall x :: x in data ==> x in base && Paginator.InRange(x, skip, us)) &&
    (forall i, j :: 0 <= i < j < |data| ==> Before(data[i], data[j], us)) &&
    (forall r, x ::
      (r in base && r !in data && Paginator.InRange(r, skip, us) && Paginator.SameNullness(r, skip, f) && x in data) ==>
      if skip.mode == EndingBefore then Before(r, x, us) else Before(x, r, us))
  }

  /** `has_next` iff a record of the set follows the page; `has_prev` iff one precedes it. */
  predicate FlagsExact(data: seq<Record>, hasNext: bool, hasPrev: bool, base: seq<Record>, us: SortList) {
    (hasNext <==> data != [] && exists r :: r in base && Before(data[|data| - 1], r, us)) &&
    (hasPrev <==> data != [] && exists r :: r in base && Before(r, data[0], us))
  }

  /** The query-builder paginator's window theorem, for a page given by its parts. */
  lemma WindowOverSet(base: seq<Record>, psd: Paginator.SortData, skip: SkipData, limit: Option<int>, us: SortList,
                      data: seq<Record>)
    requires DistinctIds(base) && (skip.mode != NoSkip ==> skip.anchor.Some?)
    requires us == Paginator.SortStages(psd.orderBy, Paginator.UserDirection(psd.order, skip.mode))
    requires data == Paginator.FetchPage(base, [], psd, skip, limit)
    ensures WindowExact(data, base, skip, us, psd.orderBy)
  {
    SelectNone(base);
    Paginator.PageWindow(base, [], psd, skip, limit);
  }

  /** The query-builder paginator's flag theorem, for a page given by its parts. */
  lemma FlagsOverSet(base: seq<Record>, psd: Paginator.SortData, skip: SkipData, limit: Option<int>, us: SortList,
                     data: seq<Record>, hasNext: bool, hasPrev: bool)
    requires DistinctIds(base) && (skip.mode != NoSkip ==> skip.anchor.Some?)
    requires us == Paginator.SortStages(psd.orderBy, Paginator.UserDirection(psd.order, skip.mode))
    requires data == Paginator.FetchPage(base, [], psd, skip, limit)
    requires var first := if |base| > 0 then Paginator.FirstUnder(base, psd.orderBy, psd.order) else None;
      var last := if |base| > 0 then Paginator.LastUnder(base, psd.orderBy, psd.order) else None;
      hasNext == ComputeFlags(data, skip.mode, first, last).hasNext &&
      hasPrev == ComputeFlags(data, skip.mode, first, last).hasPrev
    ensures FlagsExact(data, hasNext, hasPrev, base, us)
  {
    SelectNone(base);
    Paginator.FlagsCorrect(base, [], psd, skip, limit);
  }

  /**
   * When no two documents of the caller's pipeline output share a value of
   * the sort field (sorting by `id` always qualifies), a page of the
   * aggregation paginator is what the query-builder paginator would return
   * for that set: it lies on the cursor's side of the anchor in the order
   * the client asked for, is strictly increasing in it, and skips no
   * candidate.
   */
  lemma PageWithoutTies(store: seq<Record>, meta: Metadata, aggregation: seq<Stage>, available: seq<string>,
                        env: Paginator.Env)
    requires DistinctIds(store)
    requires PageOf(store, meta, aggregation, available, env).Success?
    requires RunStages(store, aggregation).Success?
    requires UniqueValues(RunStages(store, aggregation).value, GetSortData(available, env.query, env.cfg, NoSkip).orderBy)
    ensures var p := PageOf(store, meta, aggregation, available, env).value;
      var base := RunStages(store, aggregation).value;
      var skip := GetSkipData(store, env.query, env.cfg).value;
      var requested := GetSortData(available, env.query, env.cfg, NoSkip);
      var us := Paginator.SortStages(requested.orderBy, DirOf(requested.order));
      (skip.mode != NoSkip ==> skip.anchor.Some?) &&
      WindowExact(p.data, base, skip, us, requested.orderBy)
  {
    PageOfCursor(store, meta, aggregation, available, env);
    var skip := GetSkipData(store, env.query, env.cfg).value;
    var sd := GetSortData(available, env.query, env.cfg, skip.mode);
    RequestedOrder(available, env.query, env.cfg, skip.mode);
    var p := PageFor(store, meta, aggregation, sd, skip, env).value;
    SameAsQueryBuilder(store, meta, aggregation, sd, skip, env);
    var lim := LimitStages(env.query, env.cfg);
    var requested := GetSortData(available, env.query, env.cfg, NoSkip);
    WindowOverSet(RunStages(store, aggregation).value, Paginator.SortData(sd.orderBy, DirOf(sd.order)), skip,
                  if lim == [] then None else Some(lim[0].n), Paginator.SortStages(requested.orderBy, DirOf(requested.order)),
                  p.data);
  }

  /**
   * Under the same condition `has_next` says exactly whether a record of the
   * set follows the page in the client's order, and `has_prev` whether one
   * precedes it.
   */
  lemma FlagsWithoutTies(store: seq<Record>, meta: Metadata, aggregation: seq<Stage>, available: seq<string>,
                         env: Paginator.Env)
    requires DistinctIds(store)
    requires PageOf(store, meta, aggregation, available, env).Success?
    requires RunStages(store, aggregation).Success?
    requires UniqueValues(RunStages(store, aggregation).value, GetSortData(available, env.query, env.cfg, NoSkip).orderBy)
    ensures var p := PageOf(store, meta, aggregation, available, env).value;
      var base := RunStages(store, aggregation).value;
      var requested := GetSortData(available, env.query, env.cfg, NoSkip);
      var us := Paginator.SortStages(requested.orderBy, DirOf(requested.order));
      FlagsExact(p.data, p.hasNext, p.hasPrev, base, us)
  {
    PageOfCursor(store, meta, aggregation, available, env);
    var skip := GetSkipData(store, env.query, env.cfg).value;
    var sd := GetSortData(available, env.query, env.cfg, skip.mode);
    RequestedOrder(available, env.query, env.cfg, skip.mode);
    var p := PageFor(store, meta, aggregation, sd, skip, env).value;
    SameAsQueryBuilder(store, meta, aggregation, sd, skip, env);
    var lim := LimitStages(env.query, env.cfg);
    var requested := GetSortData(available, env.query, env.cfg, NoSkip);
    FlagsOverSet(RunStages(store, aggregation).value, Paginator.SortData(sd.orderBy, DirOf(sd.order)), skip,
                 if lim == [] then None else Some(lim[0].n), Paginator.SortStages(requested.orderBy, DirOf(requested.order)),
                 p.data, p.hasNext, p.hasPrev);
  }

  /** A successful page carries the links the link table gives for its own flags. */
  lemma PageLinks(store: seq<Record>, meta: Metadata, aggregation: seq<Stage>, available: seq<string>,
                  env: Paginator.Env)
    requires PageOf(store, meta, aggregation, available, env).Success?
    ensures var p := PageOf(store, meta, aggregation, available, env).value;
      Links(p.nextUrl, p.prevUrl) ==
        PaginationUrls(env.origin + Serialize(env.query, env.cfg, true, true), p.data, Has(env.query, env.cfg.limitKey),
                       GetSkipData(store, env.query, env.cfg).value.mode, !p.hasPrev, !p.hasNext, env.cfg)
  {
    PageOfCursor(store, meta, aggregation, available, env);
  }

  /**
   * The flags and links of a page when the caller's stages yield no two
   * records with the same sort value: `has_next` iff a record of that output
   * follows the page in the client's order, `has_prev` iff one precedes it;
   * the next link appears on a first page whenever a limit parameter is
   * present, after a `starting_after` cursor when limited and not last,
   * after an `ending_before` cursor when not last; the previous link
   * symmetrically.  Each link is the rebuilt query string, `&`, the cursor
   * key and the identifier of the page's last (or first) record.
   */
  lemma PageFlagsAndLinks(store: seq<Record>, meta: Metadata, aggregation: seq<Stage>, available: seq<string>,
                          env: Paginator.Env)
    requires DistinctIds(store)
    requires PageOf(store, meta, aggregation, available, env).Success?
    requires RunStages(store, aggregation).Success?
    requires UniqueValues(RunStages(store, aggregation).value, GetSortData(available, env.query, env.cfg, NoSkip).orderBy)
    ensures var p := PageOf(store, meta, aggregation, available, env).value;
      var base := RunStages(store, aggregation).value;
      var requested := GetSortData(available, env.query, env.cfg, NoSkip);
      var us := Paginator.SortStages(requested.orderBy, DirOf(requested.order));
      var mode := GetSkipData(store, env.query, env.cfg).value.mode;
      var hasLimit := Has(env.query, env.cfg.limitKey);
      var more := p.data != [] && exists r :: r in base && Before(p.data[|p.data| - 1], r, us);
      var fewer := p.data != [] && exists r :: r in base && Before(r, p.data[0], us);
      var prefix := env.origin + Serialize(env.query, env.cfg, true, true);
      (p.hasNext <==> more) && (p.hasPrev <==> fewer) &&
      (p.nextUrl.Some? <==> p.data != [] && match mode
         case NoSkip => hasLimit
         case StartingAfter => hasLimit && more
         case EndingBefore => more) &&
      (p.prevUrl.Some? <==> match mode
         case NoSkip => false
         case StartingAfter => fewer
         case EndingBefore => hasLimit && fewer) &&
      (p.nextUrl.Some? ==> p.nextUrl.value == CursorLink(prefix, env.cfg.startingAfterKey, p.data[|p.data| - 1])) &&
      (p.prevUrl.Some? ==> p.prevUrl.value == CursorLink(prefix, env.cfg.endingBeforeKey, p.data[0]))
  {
    var p := PageOf(store, meta, aggregation, available, env).value;
    FlagsWithoutTies(store, meta, aggregation, available, env);
    PageLinks(store, meta, aggregation, available, env);
    LinksFromFlags(env.origin + Serialize(env.query, env.cfg, true, true), p.data, Has(env.query, env.cfg.limitKey),
                   GetSkipData(store, env.query, env.cfg).value.mode, p.hasNext, p.hasPrev, env.cfg);
  }

  /** Three records, two of them tied on v. */
  const TieA := Record(2, map["v" := 1], map[])
  const TieB := Record(1, map["v" := 1], map[])
  const TieC := Record(3, map["v" := 2], map[])

  lemma MatchesOne(r: Record, c: Criterion)
    ensures MatchesAll(r, [c]) <==> Matches(r, c)
  {
    assert [c][0] == c;
  }

  lemma TieValues()
    ensures FieldValue(TieA, "v") == Some(1) && FieldValue(TieB, "v") == Some(1)
    ensures FieldValue(TieC, "v") == Some(2)
  {
  }

  /** Ascending on v: A and B tie, both before C. */
  lemma TieOrderAsc()
    ensures NotAfter(TieA, TieB, [("v", Asc)]) && NotAfter(TieB, TieC, [("v", Asc)])
  {
    TieValues();
    assert Key(TieA, [("v", Asc)]) == Component(TieA, "v", Asc) + [];
    assert Key(TieB, [("v", Asc)]) == Component(TieB, "v", Asc) + [];
    assert Key(TieC, [("v", Asc)]) == Component(TieC, "v", Asc) + [];
  }

  /** Descending on v: A and B tie. */
  lemma TieOrderDesc()
    ensures NotAfter(TieA, TieB, [("v", Desc)])
  {
    TieValues();
    assert Key(TieA, [("v", Desc)]) == Component(TieA, "v", Desc) + [];
    assert Key(TieB, [("v", Desc)]) == Component(TieB, "v", Desc) + [];
  }

  lemma SortPair(x: Record, y: Record, spec: SortList)
    requires NotAfter(x, y, spec)
    ensures Sort([x, y], spec) == [x, y]
  {
    assert [x, y][1..] == [y] && [y][1..] == [];
    assert Sort([y], spec) == Insert(y, [], spec) == [y];
  }

  lemma SortTriple(x: Record, y: Record, z: Record, spec: SortList)
    requires NotAfter(x, y, spec) && NotAfter(y, z, spec)
    ensures Sort([x, y, z], spec) == [x, y, z]
  {
    SortPair(y, z, spec);
    assert [x, y, z][1..] == [y, z];
    assert Sort([x, y, z], spec) == Insert(x, [y, z], spec);
    assert Insert(x, [y, z], spec) == [x] + [y, z];
  }

  lemma TieFirstPage()
    ensures RunStages([TieA, TieB, TieC], [SortStage("v", Asc), LimitStage(1)]) == Success([TieA])
  {
    TieOrderAsc();
    SortTriple(TieA, TieB, TieC, [("v", Asc)]);
    RunSortThenLimit([TieA, TieB, TieC], "v", Asc, [LimitStage(1)]);
    assert [SortStage("v", Asc)] + [LimitStage(1)] == [SortStage("v", Asc), LimitStage(1)];
  }

  lemma SelectCons(x: Record, xs: seq<Record>, cs: seq<Criterion>)
    ensures Select([x] + xs, cs) == (if MatchesAll(x, cs) then [x] else []) + Select(xs, cs)
  {
    assert ([x] + xs)[0] == x && ([x] + xs)[1..] == xs;
  }

  /** After A ascending: B ties with A but has the lower identifier; only C is after. */
  lemma TieSeekAfterA()
    ensures var seek := [Paginator.SeekCriterion("v", Asc, TieA)];
      !MatchesAll(TieA, seek) && !MatchesAll(TieB, seek) && MatchesAll(TieC, seek)
  {
    var seek := Paginator.SeekCriterion("v", Asc, TieA);
    TieValues();
    Paginator.SeekMatches(TieA, TieA, "v", Asc);
    Paginator.SeekMatches(TieB, TieA, "v", Asc);
    Paginator.SeekMatches(TieC, TieA, "v", Asc);
    MatchesOne(TieA, seek);
    MatchesOne(TieB, seek);
    MatchesOne(TieC, seek);
  }

  /** Before C descending: both A and B are. */
  lemma TieSeekBeforeC()
    ensures var seek := [Paginator.SeekCriterion("v", Desc, TieC)];
      MatchesAll(TieA, seek) && MatchesAll(TieB, seek) && !MatchesAll(TieC, seek)
  {
    var seek := Paginator.SeekCriterion("v", Desc, TieC);
    TieValues();
    Paginator.SeekMatches(TieA, TieC, "v", Desc);
    Paginator.SeekMatches(TieB, TieC, "v", Desc);
    Paginator.SeekMatches(TieC, TieC, "v", Desc);
    MatchesOne(TieA, seek);
    MatchesOne(TieB, seek);
    MatchesOne(TieC, seek);
  }

  lemma SelectOne(z: Record, cs: seq<Criterion>)
    ensures Select([z], cs) == if MatchesAll(z, cs) then [z] else []
  {
    SelectCons(z, [], cs);
    assert [z] + [] == [z];
  }

  lemma SelectTwo(y: Record, z: Record, cs: seq<Criterion>)
    ensures Select([y, z], cs) == (if MatchesAll(y, cs) then [y] else []) + Select([z], cs)
  {
    SelectCons(y, [z], cs);
    assert [y] + [z] == [y, z];
  }

  lemma SelectThree(x: Record, y: Record, z: Record, cs: seq<Criterion>)
    ensures Select([x, y, z], cs) == (if MatchesAll(x, cs) then [x] else []) + Select([y, z], cs)
  {
    SelectCons(x, [y, z], cs);
    assert [x] + [y, z] == [x, y, z];
  }

  lemma SelectLastOfThree(x: Record, y: Record, z: Record, cs: seq<Criterion>)
    requires !MatchesAll(x, cs) && !MatchesAll(y, cs) && MatchesAll(z, cs)
    ensures Select([x, y, z], cs) == [z]
  {
    SelectOne(z, cs);
    SelectTwo(y, z, cs);
    SelectThree(x, y, z, cs);
  }

  lemma SelectFirstTwoOfThree(x: Record, y: Record, z: Record, cs: seq<Criterion>)
    requires MatchesAll(x, cs) && MatchesAll(y, cs) && !MatchesAll(z, cs)
    ensures Select([x, y, z], cs) == [x, y]
  {
    SelectOne(z, cs);
    SelectTwo(y, z, cs);
    SelectThree(x, y, z, cs);
    assert [x] + ([y] + []) == [x, y];
  }

  lemma TieSelectAfterA()
    ensures Select([TieA, TieB, TieC], [Paginator.SeekCriterion("v", Asc, TieA)]) == [TieC]
  {
    TieSeekAfterA();
    SelectLastOfThree(TieA, TieB, TieC, [Paginator.SeekCriterion("v", Asc, TieA)]);
  }

  lemma TieSelectBeforeC()
    ensures Select([TieA, TieB, TieC], [Paginator.SeekCriterion("v", Desc, TieC)]) == [TieA, TieB]
  {
    TieSeekBeforeC();
    SelectFirstTwoOfThree(TieA, TieB, TieC, [Paginator.SeekCriterion("v", Desc, TieC)]);
  }

  /** A match stage followed by a one-field sort and a positive limit. */
  lemma RunMatchSortLimit(xs: seq<Record>, cs: seq<Criterion>, f: string, d: Direction, n: int)
    requires n > 0
    ensures RunStages(xs, [MatchStage(cs), SortStage(f, d), LimitStage(n)]) ==
      Success(Window(Sort(Select(xs, cs), [(f, d)]), Some(n)))
  {
    var stages := [MatchStage(cs), SortStage(f, d), LimitStage(n)];
    assert stages[0] == MatchStage(cs) && stages[1..] == [SortStage(f, d)] + [LimitStage(n)];
    RunSortThenLimit(Select(xs, cs), f, d, [LimitStage(n)]);
  }

  lemma TieNextPage()
    ensures RunStages([TieA, TieB, TieC],
      [MatchStage([Paginator.SeekCriterion("v", Asc, TieA)]), SortStage("v", Asc), LimitStage(1)]) == Success([TieC])
  {
    TieSelectAfterA();
    assert Sort([TieC], [("v", Asc)]) == Insert(TieC, [], [("v", Asc)]) == [TieC];
    RunMatchSortLimit([TieA, TieB, TieC], [Paginator.SeekCriterion("v", Asc, TieA)], "v", Asc, 1);
  }

  lemma TiePrevPage()
    ensures RunStages([TieA, TieB, TieC],
      [MatchStage([Paginator.SeekCriterion("v", Desc, TieC)]), SortStage("v", Desc), LimitStage(1)]) == Success([TieA])
  {
    TieSelectBeforeC();
    TieOrderDesc();
    SortPair(TieA, TieB, [("v", Desc)]);
    RunMatchSortLimit([TieA, TieB, TieC], [Paginator.SeekCriterion("v", Desc, TieC)], "v", Desc, 1);
  }

  /**
   * With ties the `$sort` on the field alone and the field-then-identifier
   * seek disagree, and the links skip a record.  Pages of one record
   * sorted by v ascending over A (id 2, v 1), B (id 1, v 1), C (id 3, v 2):
   * the first page is [A]; the page after A is [C], since among v = 1 the
   * seek asks for an identifier above A's and B's is below; the page before
   * C (sorted descending, then reversed) is [A] again.  Walking forward,
   * [A] leads straight to [C] and B is missed; only a backward link, such as
   * `ending_before` on A's identifier, shows it.
   */
  lemma TieSkipsRecord()
    ensures RunStages([TieA, TieB, TieC], [SortStage("v", Asc), LimitStage(1)]) == Success([TieA])
    ensures RunStages([TieA, TieB, TieC],
      [MatchStage([Paginator.SeekCriterion("v", Asc, TieA)]), SortStage("v", Asc), LimitStage(1)]) == Success([TieC])
    ensures RunStages([TieA, TieB, TieC],
      [MatchStage([Paginator.SeekCriterion("v", Desc, TieC)]), SortStage("v", Desc), LimitStage(1)]) == Success([TieA])
    ensures TieB != TieA && TieB != TieC
  {
    TieFirstPage();
    TieNextPage();
    TiePrevPage();
  }
}
