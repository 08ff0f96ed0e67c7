/**
 * The query-builder paginator (Pagination/Paginator.php): sort negotiation,
 * the composite `(order_by, id)` order, the keyset seek condition, the two
 * boundary queries, the page fetch and the assembled result.
 */
module Paginator {
  import opened Wrappers
  import opened Records
  import opened Sorting
  import opened Query
  import opened Cursor
  import opened NextData

  /** `getSortData`'s result: the field to sort on and the effective direction. */
  datatype SortData = SortData(orderBy: string, order: Direction)

  /** `validateSortField`: a truthy name of a mapped field that is not forbidden. */
  predicate ValidateSortField(field: Option<QueryValue>, meta: Metadata, forbidden: seq<string>) {
    Truthy(field) && field.value.Scalar? && field.value.text in meta.fields && !LooseIn(field, forbidden)
  }

  /**
   * `getSortData`: the requested field when it validates, `id` otherwise;
   * `desc` exactly when the order token is one of the descendant values,
   * inverted when paging backwards.
   */
  function GetSortData(meta: Metadata, forbidden: seq<string>, q: Params, cfg: Config, mode: SkipMode): (sd: SortData)
    ensures ValidateSortField(Get(q, cfg.orderByKey), meta, forbidden) ==> sd.orderBy == Get(q, cfg.orderByKey).value.text
    ensures !ValidateSortField(Get(q, cfg.orderByKey), meta, forbidden) ==> sd.orderBy == "id"
    ensures sd.orderBy == "id" || (sd.orderBy in meta.fields && sd.orderBy !in forbidden && sd.orderBy !in {"", "0"})
    ensures mode != EndingBefore ==> (sd.order == Desc <==> LooseIn(Get(q, cfg.orderKey), cfg.descendantValues))
    ensures mode == EndingBefore ==> (sd.order == Asc <==> LooseIn(Get(q, cfg.orderKey), cfg.descendantValues))
  {
    var requested := Get(q, cfg.orderByKey);
    var orderBy := if ValidateSortField(requested, meta, forbidden) then requested.value.text else "id";
    assert orderBy != "id" ==> orderBy !in forbidden by {
      if orderBy in forbidden {
        LooseInExact(orderBy, forbidden);
      }
    }
    var order := if LooseIn(Get(q, cfg.orderKey), cfg.descendantValues) then Desc else Asc;
    SortData(orderBy, if mode == EndingBefore then Flip(order) else order)
  }

  /** `applySort` (and the sorts of the two boundary queries): the field, then `id` as tie-breaker. */
  function SortStages(orderBy: string, order: Direction): SortList {
    if orderBy != "id" then [(orderBy, order), ("id", order)] else [("id", order)]
  }

  /** The store's order on one field's values: null (or missing) lowest. */
  predicate ValueBefore(a: Option<int>, b: Option<int>, d: Direction) {
    match (a, b)
    case (Some(x), Some(y)) => if d == Asc then x < y else x > y
    case (None, Some(_)) => d == Asc
    case (Some(_), None) => d == Desc
    case (None, None) => false
  }

  predicate IdBefore(a: Id, b: Id, d: Direction) {
    if d == Asc then a < b else a > b
  }

  lemma LexLtPair(a: seq<int>, b: seq<int>)
    requires |a| == 2 && |b| == 2
    ensures LexLt(a, b) <==> a[0] < b[0] || (a[0] == b[0] && a[1] < b[1])
    ensures a == b <==> a[0] == b[0] && a[1] == b[1]
  {
    assert LexLt(a[1..], b[1..]) <==> a[1] < b[1] || (a[1] == b[1] && LexLt(a[2..], b[2..]));
    assert a[2..] == [] && b == [b[0], b[1]] && a == [a[0], a[1]];
  }

  lemma ComponentOrder(r: Record, s: Record, f: string, d: Direction)
    ensures LexLt(Component(r, f, d), Component(s, f, d)) <==> ValueBefore(FieldValue(r, f), FieldValue(s, f), d)
    ensures Component(r, f, d) == Component(s, f, d) <==> FieldValue(r, f) == FieldValue(s, f)
  {
    LexLtPair(Component(r, f, d), Component(s, f, d));
  }

  /**
   * The sort `applySort` requests, in the store's own terms: by the field
   * value (null lowest), and among equal values by identifier.
   */
  lemma StagesOrder(r: Record, s: Record, f: string, d: Direction)
    ensures Before(r, s, SortStages(f, d)) <==>
      ValueBefore(FieldValue(r, f), FieldValue(s, f), d) ||
      (FieldValue(r, f) == FieldValue(s, f) && IdBefore(r.id, s.id, d))
  {
    ComponentOrder(r, s, f, d);
    ComponentOrder(r, s, "id", d);
    if f != "id" {
      var st := SortStages(f, d);
      assert Key(r, st) == Component(r, f, d) + Component(r, "id", d) by {
        assert st[1..] == [("id", d)] && st[1..][1..] == [];
      }
      assert Key(s, st) == Component(s, f, d) + Component(s, "id", d) by {
        assert st[1..] == [("id", d)] && st[1..][1..] == [];
      }
      LexLtAppend(Component(r, f, d), Component(r, "id", d), Component(s, f, d), Component(s, "id", d));
    } else {
      assert SortStages(f, d)[1..] == [];
      assert Key(r, SortStages(f, d)) == Component(r, "id", d);
      assert Key(s, SortStages(f, d)) == Component(s, "id", d);
      assert FieldValue(r, f) == Some(r.id) && FieldValue(s, f) == Some(s.id);
    }
  }

  /** With `id` as the last sort key, two distinct records never tie. */
  lemma StagesTotal(r: Record, s: Record, f: string, d: Direction)
    requires r.id != s.id
    ensures Before(r, s, SortStages(f, d)) || Before(s, r, SortStages(f, d))
  {
    StagesOrder(r, s, f, d);
    StagesOrder(s, r, f, d);
  }

  /** Inverting the direction inverts the composite order. */
  lemma StagesFlip(f: string, d: Direction)
    ensures SortStages(f, Flip(d)) == FlipAll(SortStages(f, d))
  {
    assert FlipAll(SortStages(f, d))[0] == SortStages(f, Flip(d))[0];
  }

  /**
   * The seek condition `paginate` adds for the anchor a:
   * `(f == a.f && id op a.id) || f op a.f`, op being `$gt` ascending and `$lt` descending.
   */
  function SeekCriterion(orderBy: string, order: Direction, a: Record): Criterion {
    var op := if order == Asc then Gt else Lt;
    var v := FieldValue(a, orderBy);
    Or(And(Equals(orderBy, v), Compare("id", op, Some(a.id))), Compare(orderBy, op, v))
  }

  /** What the seek condition asks of a record, in terms of its field value and identifier. */
  lemma SeekMatches(r: Record, a: Record, f: string, d: Direction)
    ensures Matches(r, SeekCriterion(f, d, a)) <==>
      (FieldValue(r, f) == FieldValue(a, f) && IdBefore(a.id, r.id, d)) ||
      (FieldValue(r, f).Some? && FieldValue(a, f).Some? && ValueBefore(FieldValue(a, f), FieldValue(r, f), d))
  {
    var op := if d == Asc then Gt else Lt;
    var v := FieldValue(a, f);
    assert Matches(r, Compare("id", op, Some(a.id))) <==> IdBefore(a.id, r.id, d);
    assert Matches(r, Equals(f, v)) <==> FieldValue(r, f) == v;
    assert Matches(r, Compare(f, op, v)) <==>
      FieldValue(r, f).Some? && v.Some? && ValueBefore(v, FieldValue(r, f), d);
  }

  /**
   * Every record the seek condition lets through comes strictly after the
   * anchor in the composite order (so the anchor itself never passes), and
   * every record strictly after the anchor passes when the two agree on
   * whether the sort field is null.
   */
  lemma SeekIsAfter(r: Record, a: Record, f: string, d: Direction)
    ensures Matches(r, SeekCriterion(f, d, a)) ==> Before(a, r, SortStages(f, d))
    ensures Before(a, r, SortStages(f, d)) && (FieldValue(r, f).Some? <==> FieldValue(a, f).Some?) ==>
      Matches(r, SeekCriterion(f, d, a))
    ensures !Matches(a, SeekCriterion(f, d, a))
  {
    StagesOrder(a, r, f, d);
    SeekMatches(r, a, f, d);
    SeekMatches(a, a, f, d);
  }

  /**
   * As written, the seek condition loses every record across the null/value
   * boundary: ascending by "score", a record with a score comes after an
   * anchor without one, yet `$gt: null` matches nothing.
   */
  lemma SeekSkipsPastNull()
    ensures var a := Record(1, map[], map[]);
            var r := Record(2, map["score" := 5], map[]);
            Before(a, r, SortStages("score", Asc)) && !Matches(r, SeekCriterion("score", Asc, a))
  {
    var a := Record(1, map[], map[]);
    var r := Record(2, map["score" := 5], map[]);
    StagesOrder(a, r, "score", Asc);
  }

  /**
   * A seek condition that also covers null values: past a null anchor,
   * ascending, every record with a value follows; before a valued anchor,
   * descending, every null record follows.
   */
  function SeekAfter(orderBy: string, order: Direction, a: Record): Criterion {
    var op := if order == Asc then Gt else Lt;
    var v := FieldValue(a, orderBy);
    var tie := And(Equals(orderBy, v), Compare("id", op, Some(a.id)));
    match (v, order)
    case (None, Asc) => Or(tie, Present(orderBy))
    case (None, Desc) => tie
    case (Some(_), Asc) => Or(tie, Compare(orderBy, op, v))
    case (Some(_), Desc) => Or(Or(tie, Compare(orderBy, op, v)), Equals(orderBy, None))
  }

  /** The corrected seek condition is exactly "strictly after the anchor", with no hypothesis. */
  lemma SeekAfterExact(r: Record, a: Record, f: string, d: Direction)
    ensures Matches(r, SeekAfter(f, d, a)) <==> Before(a, r, SortStages(f, d))
  {
    StagesOrder(a, r, f, d);
    var op := if d == Asc then Gt else Lt;
    var v := FieldValue(a, f);
    var tie := And(Equals(f, v), Compare("id", op, Some(a.id)));
    assert Matches(r, tie) <==> FieldValue(r, f) == v && IdBefore(a.id, r.id, d);
    assert Matches(r, Compare(f, op, v)) <==>
      FieldValue(r, f).Some? && v.Some? && ValueBefore(v, FieldValue(r, f), d);
  }

  /** Two records with different identifiers are strictly ordered by the composite order. */
  lemma StrictFromNotAfter(r: Record, s: Record, f: string, d: Direction)
    requires r.id != s.id && NotAfter(r, s, SortStages(f, d))
    ensures Before(r, s, SortStages(f, d))
  {
    StagesTotal(r, s, f, d);
    if Key(r, SortStages(f, d)) == Key(s, SortStages(f, d)) {
      LexLtIrreflexive(Key(r, SortStages(f, d)));
    }
  }

  /** Every record of s comes strictly before every later one. */
  predicate Increasing(s: seq<Record>, st: SortList) {
    forall i, j :: 0 <= i < j < |s| ==> Before(s[i], s[j], st)
  }

  /** The composite order of the sorted batch is strict when identifiers are distinct. */
  lemma SortStrict(xs: seq<Record>, f: string, d: Direction)
    requires DistinctIds(xs)
    ensures Increasing(Sort(xs, SortStages(f, d)), SortStages(f, d))
  {
    var s := Sort(xs, SortStages(f, d));
    SortSorted(xs, SortStages(f, d));
    SortDistinct(xs, SortStages(f, d));
    forall i, j | 0 <= i < j < |s| ensures Before(s[i], s[j], SortStages(f, d)) {
      StrictFromNotAfter(s[i], s[j], f, d);
    }
  }

  /**
   * A sorted, limited batch: drawn from its input, strictly increasing, and
   * every input record left out comes after every record kept.
   */
  lemma SortedBatch(xs: seq<Record>, f: string, d: Direction, limit: Option<int>)
    requires DistinctIds(xs)
    ensures var st := SortStages(f, d);
      var w := Window(Sort(xs, st), limit);
      (forall x :: x in w ==> x in xs) &&
      (forall i, j :: 0 <= i < j < |w| ==> Before(w[i], w[j], st)) &&
      (forall r, x :: r in xs && r !in w && x in w ==> Before(x, r, st)) &&
      (limit.None? || limit == Some(0) ==> forall r :: r in xs ==> r in w)
  {
    SortStrict(xs, f, d);
    SortMembers(xs, SortStages(f, d));
    BatchBeyond(xs, f, d, limit);
  }

  /** The third conjunct of SortedBatch. */
  lemma BatchBeyond(xs: seq<Record>, f: string, d: Direction, limit: Option<int>)
    requires DistinctIds(xs)
    ensures var st := SortStages(f, d);
      var w := Window(Sort(xs, st), limit);
      forall r, x :: r in xs && r !in w && x in w ==> Before(x, r, st)
  {
    var st := SortStages(f, d);
    var s := Sort(xs, st);
    var w := Window(s, limit);
    SortStrict(xs, f, d);
    SortMembers(xs, st);
    forall r, x | r in xs && r !in w && x in w ensures Before(x, r, st) {
      assert r in s;
      WindowBeyond(s, w, r, x, st);
    }
  }

  /** In a strictly increasing sequence, what a prefix leaves out comes after everything it keeps. */
  lemma WindowBeyond(s: seq<Record>, w: seq<Record>, r: Record, x: Record, st: SortList)
    requires Increasing(s, st)
    requires |w| <= |s| && w == s[..|w|]
    requires r in s && r !in w && x in w
    ensures Before(x, r, st)
  {
    var k :| 0 <= k < |s| && s[k] == r;
    var i :| 0 <= i < |w| && w[i] == x;
    assert s[i] == x;
    assert forall j :: 0 <= j < |w| ==> s[j] == w[j] && w[j] != r;
    assert i < k;
  }

  /** `getFirstDocument`'s answer: the first record of the set under the composite order. */
  function FirstUnder(base: seq<Record>, orderBy: string, order: Direction): Option<Record> {
    if base == [] then None else Some(Sort(base, SortStages(orderBy, order))[0])
  }

  /** `getLastDocument`'s answer: the first record under the inverted order. */
  function LastUnder(base: seq<Record>, orderBy: string, order: Direction): Option<Record> {
    if base == [] then None else Some(Sort(base, SortStages(orderBy, Flip(order)))[0])
  }

  /** The first record of the composite sort precedes every other record of the set. */
  lemma SortedFirstIsMinimum(base: seq<Record>, f: string, d: Direction)
    requires DistinctIds(base) && base != []
    ensures Sort(base, SortStages(f, d))[0] in base
    ensures forall r :: r in base && r != Sort(base, SortStages(f, d))[0] ==>
      Before(Sort(base, SortStages(f, d))[0], r, SortStages(f, d))
  {
    var st := SortStages(f, d);
    var lo := Sort(base, st)[0];
    SortMembers(base, st);
    forall r | r in base && r != lo ensures Before(lo, r, st) {
      SortFirstIsLeast(base, st, r);
      DistinctIdsDiffer(base, lo, r);
      StrictFromNotAfter(lo, r, f, d);
    }
  }

  /**
   * The two boundary queries return the minimum and the maximum of the
   * filtered set under the composite order.
   */
  lemma BoundariesAreExtremes(base: seq<Record>, f: string, d: Direction)
    requires DistinctIds(base) && base != []
    ensures FirstUnder(base, f, d).Some? && FirstUnder(base, f, d).value in base
    ensures LastUnder(base, f, d).Some? && LastUnder(base, f, d).value in base
    ensures forall r :: r in base && r != FirstUnder(base, f, d).value ==>
      Before(FirstUnder(base, f, d).value, r, SortStages(f, d))
    ensures forall r :: r in base && r != LastUnder(base, f, d).value ==>
      Before(r, LastUnder(base, f, d).value, SortStages(f, d))
  {
    SortedFirstIsMinimum(base, f, d);
    SortedFirstIsMinimum(base, f, Flip(d));
    var hi := LastUnder(base, f, d).value;
    StagesFlip(f, d);
    forall r | r in base && r != hi ensures Before(r, hi, SortStages(f, d)) {
      BeforeFlipAll(hi, r, SortStages(f, d));
    }
  }

  /** Against the greatest record g, "x is not g" means "some record follows x". */
  lemma GreatestWitness(base: seq<Record>, st: SortList, g: Record, x: Record)
    requires DistinctIds(base) && g in base && x in base
    requires forall r :: r in base && r != g ==> Before(r, g, st)
    ensures g.id != x.id <==> exists r :: r in base && Before(x, r, st)
  {
    if g.id != x.id {
      assert Before(x, g, st);
    } else {
      DistinctIdsSameRecord(base, g, x);
      forall r | r in base ensures !Before(x, r, st) {
        if r == x {
          LexLtIrreflexive(Key(x, st));
        } else if Before(x, r, st) {
          LexLtAsymmetric(Key(r, st), Key(g, st));
        }
      }
    }
  }

  /** Against the least record l, "x is not l" means "some record precedes x". */
  lemma LeastWitness(base: seq<Record>, st: SortList, l: Record, x: Record)
    requires DistinctIds(base) && l in base && x in base
    requires forall r :: r in base && r != l ==> Before(l, r, st)
    ensures l.id != x.id <==> exists r :: r in base && Before(r, x, st)
  {
    if l.id != x.id {
      assert Before(l, x, st);
    } else {
      DistinctIdsSameRecord(base, l, x);
      forall r | r in base ensures !Before(r, x, st) {
        if r == x {
          LexLtIrreflexive(Key(x, st));
        } else if Before(r, x, st) {
          LexLtAsymmetric(Key(l, st), Key(r, st));
        }
      }
    }
  }

  /** The direction the client asked for: the effective one, inverted back when paging backwards. */
  function UserDirection(order: Direction, mode: SkipMode): Direction {
    if mode == EndingBefore then Flip(order) else order
  }

  /** The seek condition `paginate` adds, if a cursor is given. */
  function SeekList(sd: SortData, skip: SkipData): seq<Criterion>
    requires skip.mode != NoSkip ==> skip.anchor.Some?
  {
    if skip.mode != NoSkip then [SeekCriterion(sd.orderBy, sd.order, skip.anchor.value)] else []
  }

  /**
   * The page query of `paginate`: the filtered set narrowed by the seek
   * condition, sorted by `applySort`, cut by the limit, and reversed when
   * paging backwards.
   */
  function FetchPage(store: seq<Record>, crit: seq<Criterion>, sd: SortData, skip: SkipData, limit: Option<int>): seq<Record>
    requires skip.mode != NoSkip ==> skip.anchor.Some?
  {
    var batch := Window(Sort(Select(store, crit + SeekList(sd, skip)), SortStages(sd.orderBy, sd.order)), limit);
    if skip.mode == EndingBefore then Reverse(batch) else batch
  }

  /** Where a record lies relative to the cursor, in the order the client asked for. */
  predicate InRange(r: Record, skip: SkipData, us: SortList)
    requires skip.mode != NoSkip ==> skip.anchor.Some?
  {
    match skip.mode
    case NoSkip => true
    case StartingAfter => Before(skip.anchor.value, r, us)
    case EndingBefore => Before(r, skip.anchor.value, us)
  }

  /** The record and the anchor agree on whether the sort field is null. */
  predicate SameNullness(r: Record, skip: SkipData, f: string)
    requires skip.mode != NoSkip ==> skip.anchor.Some?
  {
    skip.mode == NoSkip || (FieldValue(r, f).Some? <==> FieldValue(skip.anchor.value, f).Some?)
  }

  /** The effective order is the client's order, inverted when paging backwards. */
  lemma EffectiveOrder(r: Record, s: Record, f: string, d: Direction, mode: SkipMode)
    ensures Before(r, s, SortStages(f, d)) <==>
      if mode == EndingBefore then Before(s, r, SortStages(f, UserDirection(d, mode)))
      else Before(r, s, SortStages(f, UserDirection(d, mode)))
  {
    if mode == EndingBefore {
      StagesFlip(f, Flip(d));
      assert Flip(Flip(d)) == d;
      BeforeFlipAll(r, s, SortStages(f, Flip(d)));
    }
  }

  /** The seek condition, read in the client's order: the cursor's side of the anchor. */
  lemma SeekInRange(r: Record, sd: SortData, skip: SkipData)
    requires skip.mode != NoSkip ==> skip.anchor.Some?
    ensures var us := SortStages(sd.orderBy, UserDirection(sd.order, skip.mode));
      (forall c :: c in SeekList(sd, skip) ==> Matches(r, c)) ==> InRange(r, skip, us)
    ensures var us := SortStages(sd.orderBy, UserDirection(sd.order, skip.mode));
      InRange(r, skip, us) && SameNullness(r, skip, sd.orderBy) ==> forall c :: c in SeekList(sd, skip) ==> Matches(r, c)
  {
    if skip.mode != NoSkip {
      var a := skip.anchor.value;
      SeekIsAfter(r, a, sd.orderBy, sd.order);
      EffectiveOrder(a, r, sd.orderBy, sd.order, skip.mode);
      assert SeekList(sd, skip) == [SeekCriterion(sd.orderBy, sd.order, a)];
    }
  }

  /** The records the page query selects: the filtered set, on the cursor's side of the anchor. */
  lemma SelectedCandidates(store: seq<Record>, crit: seq<Criterion>, sd: SortData, skip: SkipData)
    requires DistinctIds(store) && (skip.mode != NoSkip ==> skip.anchor.Some?)
    ensures DistinctIds(Select(store, crit + SeekList(sd, skip)))
    ensures var us := SortStages(sd.orderBy, UserDirection(sd.order, skip.mode));
      forall x :: x in Select(store, crit + SeekList(sd, skip)) ==> x in Select(store, crit) && InRange(x, skip, us)
    ensures var us := SortStages(sd.orderBy, UserDirection(sd.order, skip.mode));
      forall x :: x in Select(store, crit) && InRange(x, skip, us) && SameNullness(x, skip, sd.orderBy) ==>
        x in Select(store, crit + SeekList(sd, skip))
  {
    var seek := SeekList(sd, skip);
    SelectDistinct(store, crit + seek);
    if skip.mode == NoSkip {
      assert crit + seek == crit;
    } else {
      SelectAppend(store, crit, seek[0]);
      assert crit + seek == crit + [seek[0]];
    }
    forall x ensures x in Select(store, crit + seek) ==> InRange(x, skip, SortStages(sd.orderBy, UserDirection(sd.order, skip.mode))) {
      SeekInRange(x, sd, skip);
    }
    forall x ensures (x in Select(store, crit) && InRange(x, skip, SortStages(sd.orderBy, UserDirection(sd.order, skip.mode))) &&
                      SameNullness(x, skip, sd.orderBy)) ==> x in Select(store, crit + seek) {
      SeekInRange(x, sd, skip);
    }
  }

  /**
   * The page is a window of the filtered set in the order the client asked
   * for: every record of it is on the cursor's side of the anchor, the page
   * is strictly increasing, and no candidate is skipped — a record of the
   * set on the cursor's side that the page leaves out lies beyond the whole
   * page (past its end, or before its start when paging backwards), provided
   * it agrees with the anchor on whether the sort field is null.  Without a
   * limit every such record is on the page.
   */
  lemma PageWindow(store: seq<Record>, crit: seq<Criterion>, sd: SortData, skip: SkipData, limit: Option<int>)
    requires DistinctIds(store) && (skip.mode != NoSkip ==> skip.anchor.Some?)
    ensures var us := SortStages(sd.orderBy, UserDirection(sd.order, skip.mode));
      forall x :: x in FetchPage(store, crit, sd, skip, limit) ==> x in Select(store, crit) && InRange(x, skip, us)
    ensures var us := SortStages(sd.orderBy, UserDirection(sd.order, skip.mode));
      var data := FetchPage(store, crit, sd, skip, limit);
      forall i, j :: 0 <= i < j < |data| ==> Before(data[i], data[j], us)
    ensures var us := SortStages(sd.orderBy, UserDirection(sd.order, skip.mode));
      var data := FetchPage(store, crit, sd, skip, limit);
      forall r, x ::
        (r in Select(store, crit) && r !in data && InRange(r, skip, us) && SameNullness(r, skip, sd.orderBy) && x in data) ==>
        if skip.mode == EndingBefore then Before(r, x, us) else Before(x, r, us)
    ensures var us := SortStages(sd.orderBy, UserDirection(sd.order, skip.mode));
      limit.None? ==> forall r :: r in Select(store, crit) && InRange(r, skip, us) && SameNullness(r, skip, sd.orderBy) ==>
        r in FetchPage(store, crit, sd, skip, limit)
  {
    PageMembers(store, crit, sd, skip, limit);
    PageOrdered(store, crit, sd, skip, limit);
    PageBeyond(store, crit, sd, skip, limit);
    PageUnlimited(store, crit, sd, skip, limit);
  }

  /** The page before the reversal: the sorted candidates cut by the limit. */
  function Batch(store: seq<Record>, crit: seq<Criterion>, sd: SortData, skip: SkipData, limit: Option<int>): (b: seq<Record>)
    requires skip.mode != NoSkip ==> skip.anchor.Some?
    ensures FetchPage(store, crit, sd, skip, limit) == if skip.mode == EndingBefore then Reverse(b) else b
  {
    Window(Sort(Select(store, crit + SeekList(sd, skip)), SortStages(sd.orderBy, sd.order)), limit)
  }

  lemma PageMembers(store: seq<Record>, crit: seq<Criterion>, sd: SortData, skip: SkipData, limit: Option<int>)
    requires DistinctIds(store) && (skip.mode != NoSkip ==> skip.anchor.Some?)
    ensures var us := SortStages(sd.orderBy, UserDirection(sd.order, skip.mode));
      forall x :: x in FetchPage(store, crit, sd, skip, limit) ==> x in Select(store, crit) && InRange(x, skip, us)
  {
    var batch := Batch(store, crit, sd, skip, limit);
    SelectedCandidates(store, crit, sd, skip);
    SortedBatch(Select(store, crit + SeekList(sd, skip)), sd.orderBy, sd.order, limit);
    ReverseMembers(batch);
  }

  lemma PageOrdered(store: seq<Record>, crit: seq<Criterion>, sd: SortData, skip: SkipData, limit: Option<int>)
    requires DistinctIds(store) && (skip.mode != NoSkip ==> skip.anchor.Some?)
    ensures var us := SortStages(sd.orderBy, UserDirection(sd.order, skip.mode));
      var data := FetchPage(store, crit, sd, skip, limit);
      forall i, j :: 0 <= i < j < |data| ==> Before(data[i], data[j], us)
  {
    var f, d := sd.orderBy, sd.order;
    var us := SortStages(f, UserDirection(d, skip.mode));
    var batch := Batch(store, crit, sd, skip, limit);
    var data := FetchPage(store, crit, sd, skip, limit);
    SelectedCandidates(store, crit, sd, skip);
    SortedBatch(Select(store, crit + SeekList(sd, skip)), f, d, limit);
    assert forall i, j :: 0 <= i < j < |batch| ==> Before(batch[i], batch[j], SortStages(f, d));
    if skip.mode == EndingBefore {
      assert data == Reverse(batch);
      ReverseIncreasing(batch, f, d);
    } else {
      assert UserDirection(d, skip.mode) == d;
    }
  }

  /** Reversing a batch that increases in one direction gives one that increases in the other. */
  lemma ReverseIncreasing(batch: seq<Record>, f: string, d: Direction)
    requires forall i, j :: 0 <= i < j < |batch| ==> Before(batch[i], batch[j], SortStages(f, d))
    ensures var data := Reverse(batch);
      forall i, j :: 0 <= i < j < |data| ==> Before(data[i], data[j], SortStages(f, Flip(d)))
  {
    var data := Reverse(batch);
    var n := |batch|;
    forall i, j | 0 <= i < j < |data| ensures Before(data[i], data[j], SortStages(f, Flip(d))) {
      assert data[i] == batch[n - 1 - i] && data[j] == batch[n - 1 - j];
      assert Before(data[j], data[i], SortStages(f, d));
      StagesFlip(f, d);
      BeforeFlipAll(data[i], data[j], SortStages(f, d));
    }
  }

  lemma PageBeyond(store: seq<Record>, crit: seq<Criterion>, sd: SortData, skip: SkipData, limit: Option<int>)
    requires DistinctIds(store) && (skip.mode != NoSkip ==> skip.anchor.Some?)
    ensures var us := SortStages(sd.orderBy, UserDirection(sd.order, skip.mode));
      var data := FetchPage(store, crit, sd, skip, limit);
      forall r, x ::
        (r in Select(store, crit) && r !in data && InRange(r, skip, us) && SameNullness(r, skip, sd.orderBy) && x in data) ==>
        if skip.mode == EndingBefore then Before(r, x, us) else Before(x, r, us)
  {
    var f, d := sd.orderBy, sd.order;
    var us := SortStages(f, UserDirection(d, skip.mode));
    var batch := Batch(store, crit, sd, skip, limit);
    var data := FetchPage(store, crit, sd, skip, limit);
    SelectedCandidates(store, crit, sd, skip);
    SortedBatch(Select(store, crit + SeekList(sd, skip)), f, d, limit);
    ReverseMembers(batch);
    forall r, x | r in Select(store, crit) && r !in data && InRange(r, skip, us) &&
      SameNullness(r, skip, f) && x in data
      ensures if skip.mode == EndingBefore then Before(r, x, us) else Before(x, r, us)
    {
      assert x in batch && r !in batch;
      assert Before(x, r, SortStages(f, d));
      EffectiveOrder(x, r, f, d, skip.mode);
    }
  }

  lemma PageUnlimited(store: seq<Record>, crit: seq<Criterion>, sd: SortData, skip: SkipData, limit: Option<int>)
    requires DistinctIds(store) && (skip.mode != NoSkip ==> skip.anchor.Some?)
    ensures var us := SortStages(sd.orderBy, UserDirection(sd.order, skip.mode));
      limit.None? ==> forall r :: r in Select(store, crit) && InRange(r, skip, us) && SameNullness(r, skip, sd.orderBy) ==>
        r in FetchPage(store, crit, sd, skip, limit)
  {
    var batch := Batch(store, crit, sd, skip, limit);
    SelectedCandidates(store, crit, sd, skip);
    SortedBatch(Select(store, crit + SeekList(sd, skip)), sd.orderBy, sd.order, limit);
    ReverseMembers(batch);
  }

  /**
   * `has_next` holds exactly when the page is non-empty and some record of
   * the filtered set follows its last record in the client's order;
   * `has_prev` exactly when some record precedes its first.  This holds in
   * all three cursor modes, the boundary documents being fetched only when
   * the set is non-empty and under the effective (possibly inverted) order.
   */
  lemma FlagsCorrect(store: seq<Record>, crit: seq<Criterion>, sd: SortData, skip: SkipData, limit: Option<int>)
    requires DistinctIds(store) && (skip.mode != NoSkip ==> skip.anchor.Some?)
    ensures var base := Select(store, crit);
      var us := SortStages(sd.orderBy, UserDirection(sd.order, skip.mode));
      var data := FetchPage(store, crit, sd, skip, limit);
      var first := if |base| > 0 then FirstUnder(base, sd.orderBy, sd.order) else None;
      var last := if |base| > 0 then LastUnder(base, sd.orderBy, sd.order) else None;
      var flags := ComputeFlags(data, skip.mode, first, last);
      (flags.hasNext <==> data != [] && exists r :: r in base && Before(data[|data| - 1], r, us)) &&
      (flags.hasPrev <==> data != [] && exists r :: r in base && Before(r, data[0], us))
  {
    FlagsNext(store, crit, sd, skip, limit);
    FlagsPrev(store, crit, sd, skip, limit);
  }

  /** The `has_next` half of FlagsCorrect. */
  lemma FlagsNext(store: seq<Record>, crit: seq<Criterion>, sd: SortData, skip: SkipData, limit: Option<int>)
    requires DistinctIds(store) && (skip.mode != NoSkip ==> skip.anchor.Some?)
    ensures var base := Select(store, crit);
      var us := SortStages(sd.orderBy, UserDirection(sd.order, skip.mode));
      var data := FetchPage(store, crit, sd, skip, limit);
      var first := if |base| > 0 then FirstUnder(base, sd.orderBy, sd.order) else None;
      var last := if |base| > 0 then LastUnder(base, sd.orderBy, sd.order) else None;
      var flags := ComputeFlags(data, skip.mode, first, last);
      flags.hasNext <==> data != [] && exists r :: r in base && Before(data[|data| - 1], r, us)
  {
    PageMembers(store, crit, sd, skip, limit);
    SelectDistinct(store, crit);
    NextOfPage(Select(store, crit), FetchPage(store, crit, sd, skip, limit), sd.orderBy, sd.order, skip.mode);
  }

  /**
   * The record of the set that comes last in the client's order: the
   * boundary document `has_next` is computed from.
   */
  lemma GreatestOf(base: seq<Record>, f: string, d: Direction, mode: SkipMode) returns (g: Record)
    requires DistinctIds(base) && base != []
    ensures g in base
    ensures forall r :: r in base && r != g ==> Before(r, g, SortStages(f, UserDirection(d, mode)))
    ensures if mode == EndingBefore then FirstUnder(base, f, d) == Some(g) else LastUnder(base, f, d) == Some(g)
  {
    BoundariesAreExtremes(base, f, d);
    if mode == EndingBefore {
      g := FirstUnder(base, f, d).value;
      forall r | r in base && r != g ensures Before(r, g, SortStages(f, UserDirection(d, mode))) {
        EffectiveOrder(g, r, f, d, mode);
      }
    } else {
      g := LastUnder(base, f, d).value;
    }
  }

  /** FlagsNext for any page drawn from the set. */
  lemma NextOfPage(base: seq<Record>, data: seq<Record>, f: string, d: Direction, mode: SkipMode)
    requires DistinctIds(base) && forall x :: x in data ==> x in base
    ensures var us := SortStages(f, UserDirection(d, mode));
      var first := if |base| > 0 then FirstUnder(base, f, d) else None;
      var last := if |base| > 0 then LastUnder(base, f, d) else None;
      var flags := ComputeFlags(data, mode, first, last);
      flags.hasNext <==> data != [] && exists r :: r in base && Before(data[|data| - 1], r, us)
  {
    if data != [] {
      assert data[0] in data;
      var g := GreatestOf(base, f, d, mode);
      NextFlagIff(base, SortStages(f, UserDirection(d, mode)), data, mode, FirstUnder(base, f, d), LastUnder(base, f, d), g);
    }
  }

  /** `has_next` compares the page's last record with the greatest record of the set. */
  lemma NextFlagIff(base: seq<Record>, us: SortList, data: seq<Record>, mode: SkipMode,
                    first: Option<Record>, last: Option<Record>, g: Record)
    requires DistinctIds(base) && data != [] && (forall x :: x in data ==> x in base) && g in base
    requires forall r :: r in base && r != g ==> Before(r, g, us)
    requires if mode == EndingBefore then first == Some(g) else last == Some(g)
    ensures ComputeFlags(data, mode, first, last).hasNext <==>
      exists r :: r in base && Before(data[|data| - 1], r, us)
  {
    assert data[|data| - 1] in data;
    GreatestWitness(base, us, g, data[|data| - 1]);
  }

  /** The `has_prev` half of FlagsCorrect. */
  lemma FlagsPrev(store: seq<Record>, crit: seq<Criterion>, sd: SortData, skip: SkipData, limit: Option<int>)
    requires DistinctIds(store) && (skip.mode != NoSkip ==> skip.anchor.Some?)
    ensures var base := Select(store, crit);
      var us := SortStages(sd.orderBy, UserDirection(sd.order, skip.mode));
      var data := FetchPage(store, crit, sd, skip, limit);
      var first := if |base| > 0 then FirstUnder(base, sd.orderBy, sd.order) else None;
      var last := if |base| > 0 then LastUnder(base, sd.orderBy, sd.order) else None;
      var flags := ComputeFlags(data, skip.mode, first, last);
      flags.hasPrev <==> data != [] && exists r :: r in base && Before(r, data[0], us)
  {
    PageMembers(store, crit, sd, skip, limit);
    SelectDistinct(store, crit);
    PrevOfPage(Select(store, crit), FetchPage(store, crit, sd, skip, limit), sd.orderBy, sd.order, skip.mode);
  }

  /** FlagsPrev for any page drawn from the set. */
  lemma PrevOfPage(base: seq<Record>, data: seq<Record>, f: string, d: Direction, mode: SkipMode)
    requires DistinctIds(base) && forall x :: x in data ==> x in base
    ensures var us := SortStages(f, UserDirection(d, mode));
      var first := if |base| > 0 then FirstUnder(base, f, d) else None;
      var last := if |base| > 0 then LastUnder(base, f, d) else None;
      var flags := ComputeFlags(data, mode, first, last);
      flags.hasPrev <==> data != [] && exists r :: r in base && Before(r, data[0], us)
  {
    if data != [] {
      assert data[0] in data;
      var l := LeastOf(base, f, d, mode);
      PrevFlagIff(base, SortStages(f, UserDirection(d, mode)), data, mode, FirstUnder(base, f, d), LastUnder(base, f, d), l);
    }
  }

  /**
   * The record of the set that comes first in the client's order: the
   * boundary document `has_prev` is computed from.
   */
  lemma LeastOf(base: seq<Record>, f: string, d: Direction, mode: SkipMode) returns (l: Record)
    requires DistinctIds(base) && base != []
    ensures l in base
    ensures forall r :: r in base && r != l ==> Before(l, r, SortStages(f, UserDirection(d, mode)))
    ensures if mode == EndingBefore then LastUnder(base, f, d) == Some(l) else FirstUnder(base, f, d) == Some(l)
  {
    BoundariesAreExtremes(base, f, d);
    if mode == EndingBefore {
      l := LastUnder(base, f, d).value;
      forall r | r in base && r != l ensures Before(l, r, SortStages(f, UserDirection(d, mode))) {
        EffectiveOrder(r, l, f, d, mode);
      }
    } else {
      l := FirstUnder(base, f, d).value;
    }
  }

  /** `has_prev` compares the page's first record with the least record of the set. */
  lemma PrevFlagIff(base: seq<Record>, us: SortList, data: seq<Record>, mode: SkipMode,
                    first: Option<Record>, last: Option<Record>, l: Record)
    requires DistinctIds(base) && data != [] && (forall x :: x in data ==> x in base) && l in base
    requires forall r :: r in base && r != l ==> Before(l, r, us)
    requires if mode == EndingBefore then last == Some(l) else first == Some(l)
    ensures ComputeFlags(data, mode, first, last).hasPrev <==>
      exists r :: r in base && Before(r, data[0], us)
  {
    assert data[0] in data;
    LeastWitness(base, us, l, data[0]);
  }

  /**
   * The query under construction (Doctrine's `Builder` as `paginate` uses
   * it): conjoined criteria, sort fields in order, and an optional limit.
   */
  class QueryBuilder {
    var criteria: seq<Criterion>
    var sorts: SortList
    var limit: Option<int>

    constructor (criteria: seq<Criterion>, sorts: SortList, limit: Option<int>)
      ensures this.criteria == criteria && this.sorts == sorts && this.limit == limit
    {
      this.criteria := criteria;
      this.sorts := sorts;
      this.limit := limit;
    }

    /** `addAnd`. */
    method AddAnd(c: Criterion)
      modifies this
      ensures criteria == old(criteria) + [c] && sorts == old(sorts) && limit == old(limit)
    {
      criteria := criteria + [c];
    }

    /** `sort($field, $order)`. */
    method AddSort(field: string, order: Direction)
      modifies this
      ensures sorts == old(sorts) + [(field, order)] && criteria == old(criteria) && limit == old(limit)
    {
      sorts := sorts + [(field, order)];
    }

    /** `limit($n)`. */
    method SetLimit(n: int)
      modifies this
      ensures limit == Some(n) && criteria == old(criteria) && sorts == old(sorts)
    {
      limit := Some(n);
    }

    /** `clone`. */
    method Clone() returns (c: QueryBuilder)
      ensures fresh(c) && c.criteria == criteria && c.sorts == sorts && c.limit == limit
    {
      c := new QueryBuilder(criteria, sorts, limit);
    }

    /** `count()->getQuery()->execute()`. */
    function Count(store: seq<Record>): nat
      reads this
    {
      |Select(store, criteria)|
    }

    /** `find()->getQuery()->execute()`: filter, sort, then limit. */
    function Execute(store: seq<Record>): seq<Record>
      reads this
    {
      Window(Sort(Select(store, criteria), sorts), limit)
    }
  }

  predicate KnownField(meta: Metadata, field: string) {
    field in meta.fields || field in meta.associations
  }

  /** The criterion `applyFilter` adds: equality on a field, `references` on an association. */
  function FilterCriterion(meta: Metadata, field: string, value: int): Criterion {
    if field in meta.fields then Equals(field, Some(value)) else References(field, value)
  }

  /**
   * The filters of `simplePaginate`, applied in order: the first unknown
   * name stops with `lcv.invalid_pagination_filter`.
   */
  function FilterCriteria(meta: Metadata, filters: seq<(string, int)>): (r: Result<seq<Criterion>, PageError>)
    ensures r.Success? <==> forall i :: 0 <= i < |filters| ==> KnownField(meta, filters[i].0)
    ensures r.Success? ==>
      |r.value| == |filters| &&
      forall i :: 0 <= i < |filters| ==> r.value[i] == FilterCriterion(meta, filters[i].0, filters[i].1)
    ensures r.Failure? ==>
      exists i :: 0 <= i < |filters| && !KnownField(meta, filters[i].0) &&
        (forall j :: 0 <= j < i ==> KnownField(meta, filters[j].0)) &&
        r.error == InvalidPaginationFilter(filters[i].0, meta.name)
    decreases |filters|
  {
    if filters == [] then Success([])
    else if !KnownField(meta, filters[0].0) then Failure(InvalidPaginationFilter(filters[0].0, meta.name))
    else
      match FilterCriteria(meta, filters[1..])
      case Failure(e) =>
        assert forall j :: 1 <= j < |filters| ==> filters[1..][j - 1] == filters[j];
        Failure(e)
      case Success(rest) => Success([FilterCriterion(meta, filters[0].0, filters[0].1)] + rest)
  }

  /** `applyFilter`. */
  method ApplyFilter(qb: QueryBuilder, meta: Metadata, field: string, value: int) returns (err: Option<PageError>)
    modifies qb
    ensures !KnownField(meta, field) ==> err == Some(InvalidPaginationFilter(field, meta.name)) && qb.criteria == old(qb.criteria)
    ensures KnownField(meta, field) ==> err == None && qb.criteria == old(qb.criteria) + [FilterCriterion(meta, field, value)]
    ensures qb.sorts == old(qb.sorts) && qb.limit == old(qb.limit)
  {
    if !KnownField(meta, field) {
      return Some(InvalidPaginationFilter(field, meta.name));
    }
    if field in meta.fields {
      qb.AddAnd(Equals(field, Some(value)));
    } else {
      qb.AddAnd(References(field, value));
    }
    err := None;
  }

  /** `applyLimit`: the limit parameter, cast to an integer, when it is truthy. */
  function RequestLimit(q: Params, cfg: Config): Option<int> {
    var raw := Get(q, cfg.limitKey);
    if Truthy(raw) then Some(IntCast(raw.value)) else None
  }

  method ApplyLimit(qb: QueryBuilder, q: Params, cfg: Config)
    modifies qb
    ensures qb.limit == (if Truthy(Get(q, cfg.limitKey)) then RequestLimit(q, cfg) else old(qb.limit))
    ensures qb.criteria == old(qb.criteria) && qb.sorts == old(qb.sorts)
  {
    var raw := Get(q, cfg.limitKey);
    if Truthy(raw) {
      qb.SetLimit(IntCast(raw.value));
    }
  }

  /** `applySort`. */
  method ApplySort(qb: QueryBuilder, orderBy: string, order: Direction)
    modifies qb
    ensures qb.sorts == old(qb.sorts) + SortStages(orderBy, order)
    ensures qb.criteria == old(qb.criteria) && qb.limit == old(qb.limit)
  {
    if orderBy != "id" {
      qb.AddSort(orderBy, order);
    }
    qb.AddSort("id", order);
  }

  /** `getFirstDocument`: a sorted, limit-1 copy of the query. */
  method GetFirstDocument(qb: QueryBuilder, store: seq<Record>, orderBy: string, order: Direction)
    returns (doc: Option<Record>)
    requires qb.sorts == []
    ensures doc == FirstUnder(Select(store, qb.criteria), orderBy, order)
  {
    var clone := qb.Clone();
    clone.SetLimit(1);
    ApplySort(clone, orderBy, order);
    assert clone.sorts == SortStages(orderBy, order);
    ghost var sorted := Sort(Select(store, qb.criteria), SortStages(orderBy, order));
    var found := clone.Execute(store);
    assert found == Window(sorted, Some(1));
    assert |found| == if |sorted| > 0 then 1 else 0;
    assert found != [] ==> found[0] == sorted[0];
    doc := if found == [] then None else Some(found[0]);
  }

  /** `getLastDocument`: the same with the direction inverted. */
  method GetLastDocument(qb: QueryBuilder, store: seq<Record>, orderBy: string, order: Direction)
    returns (doc: Option<Record>)
    requires qb.sorts == []
    ensures doc == LastUnder(Select(store, qb.criteria), orderBy, order)
  {
    var clone := qb.Clone();
    clone.SetLimit(1);
    var reversed := Flip(order);
    ApplySort(clone, orderBy, reversed);
    assert clone.sorts == SortStages(orderBy, reversed);
    ghost var sorted := Sort(Select(store, qb.criteria), SortStages(orderBy, reversed));
    var found := clone.Execute(store);
    assert found == Window(sorted, Some(1));
    assert |found| == if |sorted| > 0 then 1 else 0;
    assert found != [] ==> found[0] == sorted[0];
    doc := if found == [] then None else Some(found[0]);
  }

  /** The request: scheme, host and path, and the query parameters. */
  datatype Env = Env(cfg: Config, softDeletedKey: string, origin: string, query: Params)

  /** The structure `paginate` returns; absent URLs are `None`. */
  datatype Page = Page(data: seq<Record>, total: nat, hasNext: bool, hasPrev: bool,
                       nextUrl: Option<string>, prevUrl: Option<string>)

  /** The soft-delete condition: only records whose soft-delete field is null. */
  function SoftDeleteFilter(crit: seq<Criterion>, excludeDeleted: bool, key: string): seq<Criterion> {
    if excludeDeleted then crit + [Equals(key, None)] else crit
  }

  /** The sort list the client asked for, before any inversion for backward paging. */
  function RequestedOrder(meta: Metadata, forbidden: seq<string>, q: Params, cfg: Config): SortList {
    var sd := GetSortData(meta, forbidden, q, cfg, NoSkip);
    SortStages(sd.orderBy, sd.order)
  }

  /**
   * The result of `paginate` on a query carrying the criteria crit.  The
   * count is taken over the filters and the soft-delete condition only, so
   * it is the same whatever the cursor.
   */
  function PageOf(store: seq<Record>, crit: seq<Criterion>, meta: Metadata, forbidden: seq<string>,
                  excludeDeleted: bool, env: Env): (r: Result<Page, PageError>)
    ensures r.Failure? <==> GetSkipData(store, env.query, env.cfg).Failure?
    ensures r.Failure? ==> r.error == GetSkipData(store, env.query, env.cfg).error
    ensures r.Success? ==> r.value.total == |Select(store, SoftDeleteFilter(crit, excludeDeleted, env.softDeletedKey))|
  {
    var full := SoftDeleteFilter(crit, excludeDeleted, env.softDeletedKey);
    var base := Select(store, full);
    match GetSkipData(store, env.query, env.cfg)
    case Failure(e) => Failure(e)
    case Success(skip) =>
      var sd := GetSortData(meta, forbidden, env.query, env.cfg, skip.mode);
      var first := if |base| > 0 then FirstUnder(base, sd.orderBy, sd.order) else None;
      var last := if |base| > 0 then LastUnder(base, sd.orderBy, sd.order) else None;
      var data := FetchPage(store, full, sd, skip, RequestLimit(env.query, env.cfg));
      var next := ProvideNextData(data, skip.mode, first, last, Has(env.query, env.cfg.limitKey),
                                  env.origin + Serialize(env.query, env.cfg, true, false), env.cfg);
      Success(Page(data, |base|, next.flags.hasNext, next.flags.hasPrev, next.links.next, next.links.prev))
  }

  /** `paginate`, on a query that carries criteria but no sort or limit yet. */
  method Paginate(qb: QueryBuilder, store: seq<Record>, meta: Metadata, forbidden: seq<string>,
                  excludeDeleted: bool, env: Env) returns (r: Result<Page, PageError>)
    requires qb.sorts == [] && qb.limit == None
    modifies qb
    ensures r == PageOf(store, old(qb.criteria), meta, forbidden, excludeDeleted, env)
  {
    if excludeDeleted {
      qb.AddAnd(Equals(env.softDeletedKey, None));
    }
    ghost var full := qb.criteria;
    assert full == SoftDeleteFilter(old(qb.criteria), excludeDeleted, env.softDeletedKey);
    var total := qb.Count(store);
    var skipResult := GetSkipData(store, env.query, env.cfg);
    if skipResult.Failure? {
      return Failure(skipResult.error);
    }
    var skip := skipResult.value;
    var sd := GetSortData(meta, forbidden, env.query, env.cfg, skip.mode);
    var first: Option<Record> := None;
    var last: Option<Record> := None;
    if total > 0 {
      first := GetFirstDocument(qb, store, sd.orderBy, sd.order);
      last := GetLastDocument(qb, store, sd.orderBy, sd.order);
    }
    if skip.mode != NoSkip {
      qb.AddAnd(SeekCriterion(sd.orderBy, sd.order, skip.anchor.value));
    }
    assert qb.criteria == full + SeekList(sd, skip);
    ApplyLimit(qb, env.query, env.cfg);
    ApplySort(qb, sd.orderBy, sd.order);
    assert qb.sorts == SortStages(sd.orderBy, sd.order);
    var data := qb.Execute(store);
    if skip.mode == EndingBefore {
      data := Reverse(data);
    }
    assert data == FetchPage(store, full, sd, skip, RequestLimit(env.query, env.cfg));
    assert first == (if |Select(store, full)| > 0 then FirstUnder(Select(store, full), sd.orderBy, sd.order) else None);
    assert last == (if |Select(store, full)| > 0 then LastUnder(Select(store, full), sd.orderBy, sd.order) else None);
    var prefix := BuildQueryUrl(env.origin, env.query, env.cfg, false);
    var next := ProvideNextData(data, skip.mode, first, last, Has(env.query, env.cfg.limitKey), prefix, env.cfg);
    r := Success(Page(data, total, next.flags.hasNext, next.flags.hasPrev, next.links.next, next.links.prev));
  }

  /** `simplePaginate`: a fresh query, the filters, then `paginate`. */
  method SimplePaginate(store: seq<Record>, meta: Metadata, filters: seq<(string, int)>, forbidden: seq<string>,
                        excludeDeleted: bool, env: Env) returns (r: Result<Page, PageError>)
    ensures FilterCriteria(meta, filters).Failure? ==> r == Failure(FilterCriteria(meta, filters).error)
    ensures FilterCriteria(meta, filters).Success? ==>
      r == PageOf(store, FilterCriteria(meta, filters).value, meta, forbidden, excludeDeleted, env)
  {
    var qb := new QueryBuilder([], [], None);
    var i := 0;
    while i < |filters|
      invariant 0 <= i <= |filters|
      invariant qb.sorts == [] && qb.limit == None
      invariant |qb.criteria| == i
      invariant forall j :: 0 <= j < i ==> qb.criteria[j] == FilterCriterion(meta, filters[j].0, filters[j].1)
      invariant forall j :: 0 <= j < i ==> KnownField(meta, filters[j].0)
    {
      var err := ApplyFilter(qb, meta, filters[i].0, filters[i].1);
      if err.Some? {
        return Failure(err.value);
      }
      i := i + 1;
    }
    assert qb.criteria == FilterCriteria(meta, filters).value;
    r := Paginate(qb, store, meta, forbidden, excludeDeleted, env);
  }

  /** Paging backwards inverts the direction and keeps the field. */
  lemma SortDataInversion(meta: Metadata, forbidden: seq<string>, q: Params, cfg: Config, mode: SkipMode)
    ensures GetSortData(meta, forbidden, q, cfg, mode).orderBy == GetSortData(meta, forbidden, q, cfg, NoSkip).orderBy
    ensures UserDirection(GetSortData(meta, forbidden, q, cfg, mode).order, mode) == GetSortData(meta, forbidden, q, cfg, NoSkip).order
  {
  }

  /**
   * The records of a page: all from the filtered, non-deleted set, on the
   * cursor's side of the anchor in the order the client asked for, strictly
   * increasing in that order, and with no candidate skipped (for candidates
   * that agree with the anchor on whether the sort field is null).
   */
  lemma PageContents(store: seq<Record>, crit: seq<Criterion>, meta: Metadata, forbidden: seq<string>,
                     excludeDeleted: bool, env: Env)
    requires DistinctIds(store)
    requires PageOf(store, crit, meta, forbidden, excludeDeleted, env).Success?
    ensures var p := PageOf(store, crit, meta, forbidden, excludeDeleted, env).value;
      var base := Select(store, SoftDeleteFilter(crit, excludeDeleted, env.softDeletedKey));
      var skip := GetSkipData(store, env.query, env.cfg).value;
      var us := RequestedOrder(meta, forbidden, env.query, env.cfg);
      (forall x :: x in p.data ==> x in base && InRange(x, skip, us)) &&
      (excludeDeleted ==> forall x :: x in p.data ==> FieldValue(x, env.softDeletedKey).None?) &&
      (forall i, j :: 0 <= i < j < |p.data| ==> Before(p.data[i], p.data[j], us)) &&
      (forall r, x ::
        (r in base && r !in p.data && InRange(r, skip, us) && SameNullness(r, skip, us[0].0) && x in p.data) ==>
        if skip.mode == EndingBefore then Before(r, x, us) else Before(x, r, us))
  {
    var full := SoftDeleteFilter(crit, excludeDeleted, env.softDeletedKey);
    var skip := GetSkipData(store, env.query, env.cfg).value;
    var sd := GetSortData(meta, forbidden, env.query, env.cfg, skip.mode);
    SortDataInversion(meta, forbidden, env.query, env.cfg, skip.mode);
    PageWindow(store, full, sd, skip, RequestLimit(env.query, env.cfg));
    if excludeDeleted {
      forall x | x in Select(store, full) ensures FieldValue(x, env.softDeletedKey).None? {
        assert Matches(x, full[|full| - 1]);
      }
    }
  }

  /**
   * The flags and links of a page, in terms of the filtered set and the
   * order the client asked for: `has_next` iff a record follows the page,
   * `has_prev` iff one precedes it; the next link appears on a first page
   * whenever a limit parameter is present (even when nothing follows), after
   * a `starting_after` cursor when limited and not last, after an
   * `ending_before` cursor when not last; the previous link symmetrically.
   * Each link is the copied query string, `&`, the cursor key and the
   * identifier of the page's last (or first) record.
   */
  lemma PageFlagsAndLinks(store: seq<Record>, crit: seq<Criterion>, meta: Metadata, forbidden: seq<string>,
                          excludeDeleted: bool, env: Env)
    requires DistinctIds(store)
    requires PageOf(store, crit, meta, forbidden, excludeDeleted, env).Success?
    ensures var p := PageOf(store, crit, meta, forbidden, excludeDeleted, env).value;
      var base := Select(store, SoftDeleteFilter(crit, excludeDeleted, env.softDeletedKey));
      var us := RequestedOrder(meta, forbidden, env.query, env.cfg);
      var mode := GetSkipData(store, env.query, env.cfg).value.mode;
      var hasLimit := Has(env.query, env.cfg.limitKey);
      var more := p.data != [] && exists r :: r in base && Before(p.data[|p.data| - 1], r, us);
      var fewer := p.data != [] && exists r :: r in base && Before(r, p.data[0], us);
      var prefix := env.origin + Serialize(env.query, env.cfg, true, false);
      (p.hasNext <==> more) && (p.hasPrev <==> fewer) &&
      (p.nextUrl.Some? <==> p.data != [] && match mode
         case NoSkip => hasLimit
         case StartingAfter => hasLimit && more
         case EndingBefore => more) &&
      (p.prevUrl.Some? <==> match mode
         case NoSkip => false
         case StartingAfter => fewer
         case EndingBefore => hasLimit && fewer) &&
      (p.nextUrl.Some? ==> p.nextUrl.value == CursorLink(prefix, env.cfg.startingAfterKey, p.data[|p.data| - 1])) &&
      (p.prevUrl.Some? ==> p.prevUrl.value == CursorLink(prefix, env.cfg.endingBeforeKey, p.data[0]))
  {
    var full := SoftDeleteFilter(crit, excludeDeleted, env.softDeletedKey);
    var skip := GetSkipData(store, env.query, env.cfg).value;
    var sd := GetSortData(meta, forbidden, env.query, env.cfg, skip.mode);
    var p := PageOf(store, crit, meta, forbidden, excludeDeleted, env).value;
    SortDataInversion(meta, forbidden, env.query, env.cfg, skip.mode);
    FlagsCorrect(store, full, sd, skip, RequestLimit(env.query, env.cfg));
    LinksFromFlags(env.origin + Serialize(env.query, env.cfg, true, false), p.data, Has(env.query, env.cfg.limitKey),
                   skip.mode, p.hasNext, p.hasPrev, env.cfg);
  }
}
