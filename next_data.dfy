/**
 * Result assembly shared by both paginators: the `has_next`/`has_prev`
 * comparisons of `provideNextData`, the query-string copy and the link table
 * of `getPaginationUrls`.  The two classes differ only in whether the `$first`
 * flag is cleared inside the loop over an array-valued parameter; `reset`
 * selects that behaviour (false: Paginator, true: AggregationPaginator).
 */
module NextData {
  import opened Wrappers
  import opened PhpStrings
  import opened Records
  import opened Query
  import opened Cursor

  datatype Flags = Flags(hasNext: bool, hasPrev: bool)

  /**
   * `provideNextData`'s comparisons.  Outside ENDING_BEFORE the last record of
   * the batch is compared with the last document and the first with the first
   * document; in ENDING_BEFORE (batch already reversed, boundaries taken under
   * the inverted order) the last record is compared with the first document
   * and the first record with the last document.
   */
  function ComputeFlags(data: seq<Record>, mode: SkipMode, first: Option<Record>, last: Option<Record>): (f: Flags)
    ensures data == [] ==> f == Flags(false, false)
    ensures data != [] && mode != EndingBefore ==>
      (f.hasNext <==> last.Some? && last.value.id != data[|data| - 1].id) &&
      (f.hasPrev <==> first.Some? && first.value.id != data[0].id)
    ensures data != [] && mode == EndingBefore ==>
      (f.hasNext <==> first.Some? && first.value.id != data[|data| - 1].id) &&
      (f.hasPrev <==> last.Some? && last.value.id != data[0].id)
  {
    if data == [] then Flags(false, false)
    else
      var top := data[|data| - 1];
      var bottom := data[0];
      if mode == EndingBefore then
        Flags(first.Some? && first.value.id != top.id, last.Some? && last.value.id != bottom.id)
      else
        Flags(last.Some? && last.value.id != top.id, first.Some? && first.value.id != bottom.id)
  }

  function Sep(first: bool): string {
    if first then "?" else "&"
  }

  /** The `key[k]=v` pairs of one array-valued parameter. */
  function EntriesPiece(key: string, items: seq<(string, string)>, first: bool, reset: bool): string
    decreases |items|
  {
    if items == [] then ""
    else Sep(first) + key + "[" + items[0].0 + "]=" + items[0].1 + EntriesPiece(key, items[1..], first && !reset, reset)
  }

  function Piece(key: string, v: QueryValue, first: bool, reset: bool): string {
    match v
    case Entries(items) => EntriesPiece(key, items, first, reset)
    case Ref(id) => Sep(first) + key + "=" + id
    case Scalar(t) => Sep(first) + key + "=" + t
  }

  /** The text the parameter loop appends, starting with the given `$first`. */
  function Serialize(q: Params, cfg: Config, first: bool, reset: bool): string
    decreases |q|
  {
    if q == [] then ""
    else if IsCursorKey(cfg, q[0].0) then Serialize(q[1..], cfg, first, reset)
    else Piece(q[0].0, q[0].1, first, reset) + Serialize(q[1..], cfg, false, reset)
  }

  /** The inner loop over one array-valued parameter (`$first` cleared per entry when `reset`). */
  method AppendEntries(url0: string, key: string, items: seq<(string, string)>, first0: bool, reset: bool)
    returns (url: string, first: bool)
    ensures url == url0 + EntriesPiece(key, items, first0, reset)
    ensures first == (first0 && (!reset || items == []))
  {
    url, first := url0, first0;
    var j := 0;
    while j < |items|
      invariant 0 <= j <= |items|
      invariant first == (first0 && (!reset || j == 0))
      invariant url + EntriesPiece(key, items[j..], first, reset) == url0 + EntriesPiece(key, items, first0, reset)
    {
      ghost var rest := EntriesPiece(key, items[j + 1..], first && !reset, reset);
      assert items[j..][1..] == items[j + 1..];
      var pair := Sep(first) + key + "[" + items[j].0 + "]=" + items[j].1;
      assert EntriesPiece(key, items[j..], first, reset) == pair + rest;
      url := url + pair;
      if reset {
        first := false;
      }
      j := j + 1;
    }
  }

  /**
   * The parameter loop of `getPaginationUrls`: starting from the scheme, host
   * and path, append every non-cursor parameter, values copied verbatim.
   */
  method BuildQueryUrl(base: string, q: Params, cfg: Config, reset: bool) returns (url: string)
    ensures url == base + Serialize(q, cfg, true, reset)
  {
    url := base;
    var first := true;
    var i := 0;
    while i < |q|
      invariant 0 <= i <= |q|
      invariant url + Serialize(q[i..], cfg, first, reset) == base + Serialize(q, cfg, true, reset)
    {
      var key := q[i].0;
      var value := q[i].1;
      assert q[i..][1..] == q[i + 1..];
      if IsCursorKey(cfg, key) {
        i := i + 1;
        continue;
      }
      ghost var before := url;
      ghost var rest := Serialize(q[i + 1..], cfg, false, reset);
      assert Serialize(q[i..], cfg, first, reset) == Piece(key, value, first, reset) + rest;
      match value {
        case Entries(items) =>
          var f;
          url, f := AppendEntries(url, key, items, first, reset);
        case Ref(id) =>
          url := url + (Sep(first) + key + "=" + id);
        case Scalar(t) =>
          url := url + (Sep(first) + key + "=" + t);
      }
      assert url == before + Piece(key, value, first, reset);
      first := false;
      i := i + 1;
    }
  }

  datatype Links = Links(next: Option<string>, prev: Option<string>)

  function CursorLink(prefix: string, key: string, x: Record): string {
    prefix + "&" + key + "=" + IntToString(x.id)
  }

  /**
   * The link table of `getPaginationUrls` for a non-empty batch: NO_SKIP
   * links forward whenever a limit is present; STARTING_AFTER links forward
   * when limited and not last, back when not first; ENDING_BEFORE links back
   * when limited and not first, forward when not last.  The cursor key is
   * always joined with '&'.
   */
  function PaginationUrls(prefix: string, data: seq<Record>, hasLimit: bool, mode: SkipMode,
                          isFirst: bool, isLast: bool, cfg: Config): (l: Links)
    ensures data == [] ==> l == Links(None, None)
    ensures l.next.Some? ==> data != [] && l.next.value == CursorLink(prefix, cfg.startingAfterKey, data[|data| - 1])
    ensures l.prev.Some? ==> data != [] && l.prev.value == CursorLink(prefix, cfg.endingBeforeKey, data[0])
  {
    if data == [] then Links(None, None)
    else
      var forward := Some(CursorLink(prefix, cfg.startingAfterKey, data[|data| - 1]));
      var back := Some(CursorLink(prefix, cfg.endingBeforeKey, data[0]));
      match mode
      case NoSkip => Links(if hasLimit then forward else None, None)
      case StartingAfter => Links(if hasLimit && !isLast then forward else None, if !isFirst then back else None)
      case EndingBefore => Links(if !isLast then forward else None, if hasLimit && !isFirst then back else None)
  }

  /**
   * The link table in terms of the flags: which links appear in each mode
   * once `has_next` and `has_prev` are known.
   */
  lemma LinksFromFlags(prefix: string, data: seq<Record>, hasLimit: bool, mode: SkipMode,
                       hasNext: bool, hasPrev: bool, cfg: Config)
    ensures var l := PaginationUrls(prefix, data, hasLimit, mode, !hasPrev, !hasNext, cfg);
      (l.next.Some? <==> data != [] && match mode
         case NoSkip => hasLimit
         case StartingAfter => hasLimit && hasNext
         case EndingBefore => hasNext) &&
      (l.prev.Some? <==> data != [] && match mode
         case NoSkip => false
         case StartingAfter => hasPrev
         case EndingBefore => hasLimit && hasPrev)
  {
  }

  datatype Assembled = Assembled(flags: Flags, links: Links)

  /** `provideNextData`: the flags, then the links built from them. */
  function ProvideNextData(data: seq<Record>, mode: SkipMode, first: Option<Record>, last: Option<Record>,
                           hasLimit: bool, prefix: string, cfg: Config): (a: Assembled)
    ensures a.flags == ComputeFlags(data, mode, first, last)
    ensures a.links == PaginationUrls(prefix, data, hasLimit, mode, !a.flags.hasPrev, !a.flags.hasNext, cfg)
  {
    var f := ComputeFlags(data, mode, first, last);
    Assembled(f, PaginationUrls(prefix, data, hasLimit, mode, !f.hasPrev, !f.hasNext, cfg))
  }

  /** One `name=value` or `name[sub]=value` pair of a query string. */
  datatype Pair = Pair(name: string, sub: Option<string>, value: string)

  function Render(p: Pair): string {
    p.name + (if p.sub.Some? then "[" + p.sub.value + "]" else "") + "=" + p.value
  }

  function EntryPairs(key: string, items: seq<(string, string)>): (ps: seq<Pair>)
    ensures |ps| == |items|
    ensures forall i :: 0 <= i < |ps| ==> ps[i] == Pair(key, Some(items[i].0), items[i].1)
  {
    if items == [] then [] else [Pair(key, Some(items[0].0), items[0].1)] + EntryPairs(key, items[1..])
  }

  function ParamPairs(key: string, v: QueryValue): seq<Pair> {
    match v
    case Entries(items) => EntryPairs(key, items)
    case Ref(id) => [Pair(key, None, id)]
    case Scalar(t) => [Pair(key, None, t)]
  }

  /** The pairs a link carries over from the request: every parameter but the two cursor keys, in order. */
  function Pairs(q: Params, cfg: Config): (ps: seq<Pair>)
    ensures forall i :: 0 <= i < |ps| ==> !IsCursorKey(cfg, ps[i].name)
    ensures (forall i :: 0 <= i < |q| ==> IsCursorKey(cfg, q[i].0)) ==> ps == []
    decreases |q|
  {
    if q == [] then []
    else if IsCursorKey(cfg, q[0].0) then Pairs(q[1..], cfg)
    else
      var own := ParamPairs(q[0].0, q[0].1);
      assert forall i :: 0 <= i < |own| ==> own[i].name == q[0].0;
      own + Pairs(q[1..], cfg)
  }

  /** A well-formed query string: `?` before the first pair, `&` before every later one. */
  function Joined(ps: seq<Pair>, first: bool): string
    decreases |ps|
  {
    if ps == [] then "" else Sep(first) + Render(ps[0]) + Joined(ps[1..], false)
  }

  /** The first parameter that is not a cursor key is an empty array. */
  predicate LeadsWithEmptyArray(q: Params, cfg: Config)
    decreases |q|
  {
    q != [] && if IsCursorKey(cfg, q[0].0) then LeadsWithEmptyArray(q[1..], cfg) else q[0].1 == Entries([])
  }

  lemma {:induction false} JoinedAppend(a: seq<Pair>, b: seq<Pair>, first: bool)
    ensures Joined(a + b, first) == Joined(a, first) + Joined(b, first && a == [])
    decreases |a|
  {
    if a == [] {
      assert a + b == b;
    } else {
      var head := Sep(first) + Render(a[0]);
      JoinedAppend(a[1..], b, false);
      assert (a + b)[0] == a[0] && (a + b)[1..] == a[1..] + b;
      calc {
        Joined(a + b, first);
        head + Joined(a[1..] + b, false);
        head + (Joined(a[1..], false) + Joined(b, false));
        (head + Joined(a[1..], false)) + Joined(b, false);
        Joined(a, first) + Joined(b, first && a == []);
      }
    }
  }

  lemma {:induction false} EntriesJoined(key: string, items: seq<(string, string)>, first: bool)
    ensures EntriesPiece(key, items, first, true) == Joined(EntryPairs(key, items), first)
    decreases |items|
  {
    if items != [] {
      EntriesJoined(key, items[1..], false);
      assert EntryPairs(key, items)[1..] == EntryPairs(key, items[1..]);
    }
  }

  /**
   * With `$first` cleared after every pair (AggregationPaginator), the copied
   * query string is well formed: `?` before the first pair emitted and `&`
   * before every later one — except that a leading empty array parameter
   * clears `$first` while emitting nothing, so no `?` appears at all.
   */
  lemma {:induction false} SerializeJoined(q: Params, cfg: Config, first: bool)
    ensures Serialize(q, cfg, first, true) == Joined(Pairs(q, cfg), first && !LeadsWithEmptyArray(q, cfg))
    decreases |q|
  {
    if q != [] {
      if IsCursorKey(cfg, q[0].0) {
        SerializeJoined(q[1..], cfg, first);
      } else {
        SerializeJoined(q[1..], cfg, false);
        var own := ParamPairs(q[0].0, q[0].1);
        JoinedAppend(own, Pairs(q[1..], cfg), first && !LeadsWithEmptyArray(q, cfg));
        match q[0].1
        case Entries(items) =>
          EntriesJoined(q[0].0, items, first);
          if items == [] {
            assert own == [];
          }
        case Ref(id) =>
        case Scalar(t) =>
      }
    }
  }

  lemma {:induction false} EntriesPieceLater(key: string, items: seq<(string, string)>, r1: bool, r2: bool)
    ensures EntriesPiece(key, items, false, r1) == EntriesPiece(key, items, false, r2)
    decreases |items|
  {
    if items != [] {
      EntriesPieceLater(key, items[1..], r1, r2);
    }
  }

  lemma {:induction false} SerializeLater(q: Params, cfg: Config, r1: bool, r2: bool)
    ensures Serialize(q, cfg, false, r1) == Serialize(q, cfg, false, r2)
    decreases |q|
  {
    if q != [] {
      SerializeLater(q[1..], cfg, r1, r2);
      if q[0].1.Entries? {
        EntriesPieceLater(q[0].0, q[0].1.items, r1, r2);
      }
    }
  }

  /** The first parameter that is not a cursor key is an array of two or more entries. */
  predicate LeadsWithLongArray(q: Params, cfg: Config)
    decreases |q|
  {
    q != [] && if IsCursorKey(cfg, q[0].0) then LeadsWithLongArray(q[1..], cfg) else q[0].1.Entries? && |q[0].1.items| >= 2
  }

  /**
   * The two paginators copy the query string identically unless the first
   * parameter copied is an array with at least two entries.
   */
  lemma {:induction false} SerializeVariantsAgree(q: Params, cfg: Config)
    requires !LeadsWithLongArray(q, cfg)
    ensures Serialize(q, cfg, true, false) == Serialize(q, cfg, true, true)
    decreases |q|
  {
    if q != [] {
      if IsCursorKey(cfg, q[0].0) {
        SerializeVariantsAgree(q[1..], cfg);
      } else {
        SerializeLater(q[1..], cfg, false, true);
        match q[0].1
        case Entries(items) =>
          if items != [] {
            assert items[1..] == [];
            assert EntriesPiece(q[0].0, items, true, false) == EntriesPiece(q[0].0, items, true, true);
          }
        case Ref(id) =>
        case Scalar(t) =>
      }
    }
  }

  /**
   * As written, Paginator keeps `$first` set across the entries of an array
   * parameter, so every entry of a leading array is preceded by `?`.
   */
  lemma PaginatorRepeatsQuestionMark(cfg: Config)
    requires !IsCursorKey(cfg, "tags")
    ensures Serialize([("tags", Entries([("0", "a"), ("1", "b")]))], cfg, true, false) == "?tags[0]=a?tags[1]=b"
    ensures Serialize([("tags", Entries([("0", "a"), ("1", "b")]))], cfg, true, true) == "?tags[0]=a&tags[1]=b"
  {
    TagsPiece(cfg, false);
    TagsPiece(cfg, true);
  }

  /** The query string of one two-entry array parameter, with `$first` kept or reset per entry. */
  lemma TagsPiece(cfg: Config, reset: bool)
    requires !IsCursorKey(cfg, "tags")
    ensures Serialize([("tags", Entries([("0", "a"), ("1", "b")]))], cfg, true, reset) ==
      "?tags[0]=a" + Sep(!reset) + "tags[1]=b"
  {
    var items := [("0", "a"), ("1", "b")];
    var q := [("tags", Entries(items))];
    assert items[1..] == [("1", "b")] && items[1..][1..] == [];
    assert q[1..] == [];
    assert Serialize(q, cfg, true, reset) == EntriesPiece("tags", items, true, reset) + "";
    assert EntriesPiece("tags", items[1..], !reset, reset) == Sep(!reset) + "tags" + "[" + "1" + "]=" + "b" + "";
  }

  lemma {:induction false} SerializeOnlyCursor(q: Params, cfg: Config, first: bool, reset: bool)
    requires forall i :: 0 <= i < |q| ==> IsCursorKey(cfg, q[i].0)
    ensures Serialize(q, cfg, first, reset) == ""
    decreases |q|
  {
    if q != [] {
      SerializeOnlyCursor(q[1..], cfg, first, reset);
    }
  }

  /**
   * As written, a request whose only parameters are cursor keys yields links
   * with no `?`: the cursor is joined to the path with `&`.
   */
  lemma CursorLinkWithoutQuery(origin: string, q: Params, cfg: Config, key: string, x: Record, reset: bool)
    requires forall i :: 0 <= i < |q| ==> IsCursorKey(cfg, q[i].0)
    ensures CursorLink(origin + Serialize(q, cfg, true, reset), key, x) == origin + "&" + key + "=" + IntToString(x.id)
  {
    SerializeOnlyCursor(q, cfg, true, reset);
    assert origin + Serialize(q, cfg, true, reset) == origin;
  }

  /** A link that adds the cursor as one more pair of the query string. */
  function LinkWithCursor(origin: string, q: Params, cfg: Config, key: string, x: Record): string {
    origin + Joined(Pairs(q, cfg) + [Pair(key, None, IntToString(x.id))], true)
  }

  lemma JoinedOpens(ps: seq<Pair>)
    requires ps != []
    ensures |Joined(ps, true)| > 0 && Joined(ps, true)[0] == '?'
  {
    var rest := Render(ps[0]) + Joined(ps[1..], false);
    assert Joined(ps, true) == "?" + rest;
  }

  lemma JoinedWithLast(ps: seq<Pair>, last: Pair)
    ensures Joined(ps + [last], true) == Joined(ps, true) + (Sep(ps == []) + Render(last))
  {
    JoinedAppend(ps, [last], true);
    assert [last][1..] == [];
  }

  /**
   * The corrected link always opens its query string with `?`, and joins the
   * cursor with `&` exactly when other pairs precede it.
   */
  lemma LinkWithCursorWellFormed(origin: string, q: Params, cfg: Config, key: string, x: Record)
    ensures var link := LinkWithCursor(origin, q, cfg, key, x);
      |link| > |origin| && link[|origin|] == '?'
    ensures LinkWithCursor(origin, q, cfg, key, x) ==
      origin + Joined(Pairs(q, cfg), true) + (Sep(Pairs(q, cfg) == []) + key + "=" + IntToString(x.id))
  {
    var ps := Pairs(q, cfg);
    var id := IntToString(x.id);
    var cursor := Pair(key, None, id);
    var sep := Sep(ps == []);
    var joined := Joined(ps + [cursor], true);
    assert joined == Joined(ps, true) + (sep + key + "=" + id) by {
      JoinedWithLast(ps, cursor);
      assert Render(cursor) == key + "" + "=" + id;
      assert key + "" == key;
      assert sep + (key + "=" + id) == sep + key + "=" + id;
    }
    assert origin + joined == origin + Joined(ps, true) + (sep + key + "=" + id);
    JoinedOpens(ps + [cursor]);
    assert (origin + joined)[|origin|] == joined[0];
  }
}
