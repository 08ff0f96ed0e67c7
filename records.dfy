/**
 * The documents the paginators read, the mapping metadata, and the query
 * criteria the store evaluates (equality, `$gt`/`$lt`, `references`, `$and`,
 * `$or`).  The store itself is a finite sequence of records in its natural
 * order; a null or missing field is a key absent from `values`.
 */
module Records {
  import opened Wrappers

  type Id = int

  datatype Record = Record(id: Id, values: map<string, int>, refs: map<string, Id>)

  /** Class metadata: the mapped fields (including "id") and associations. */
  datatype Metadata = Metadata(name: string, fields: set<string>, associations: set<string>)

  /** The reflection read of a property: the identifier for "id", null when absent. */
  function FieldValue(r: Record, field: string): (v: Option<int>)
    ensures field == "id" ==> v == Some(r.id)
    ensures field != "id" ==> (v.Some? <==> field in r.values)
  {
    if field == "id" then Some(r.id)
    else if field in r.values then Some(r.values[field])
    else None
  }

  predicate DistinctIds(store: seq<Record>) {
    forall i, j :: 0 <= i < j < |store| ==> store[i].id != store[j].id
  }

  /** `DocumentManager::find`: the record with the given identifier, if any. */
  function FindById(store: seq<Record>, id: Id): (r: Option<Record>)
    ensures r.Some? ==> r.value in store && r.value.id == id
    ensures r.None? ==> forall x :: x in store ==> x.id != id
  {
    if store == [] then None
    else if store[0].id == id then Some(store[0])
    else FindById(store[1..], id)
  }

  /** With unique identifiers, looking up a stored record's id finds that record. */
  lemma {:induction false} FindByIdOfMember(store: seq<Record>, x: Record)
    requires DistinctIds(store) && x in store
    ensures FindById(store, x.id) == Some(x)
  {
    if store[0] != x {
      assert store[0].id != x.id by {
        var k :| 0 <= k < |store| && store[k] == x;
      }
      assert DistinctIds(store[1..]) by {
        forall i, j | 0 <= i < j < |store| - 1 ensures store[1..][i].id != store[1..][j].id {
          assert store[1..][i] == store[i + 1] && store[1..][j] == store[j + 1];
        }
      }
      FindByIdOfMember(store[1..], x);
    }
  }

  lemma DistinctIdsSameRecord(store: seq<Record>, a: Record, b: Record)
    requires DistinctIds(store) && a in store && b in store && a.id == b.id
    ensures a == b
  {
    var i :| 0 <= i < |store| && store[i] == a;
    var j :| 0 <= j < |store| && store[j] == b;
    assert i == j;
  }

  lemma DistinctIdsDiffer(store: seq<Record>, a: Record, b: Record)
    requires DistinctIds(store) && a in store && b in store && a != b
    ensures a.id != b.id
  {
    if a.id == b.id {
      DistinctIdsSameRecord(store, a, b);
    }
  }

  datatype Op = Gt | Lt

  /** A query criterion as the store receives it. */
  datatype Criterion =
    | Equals(field: string, value: Option<int>)
    | Compare(field: string, op: Op, bound: Option<int>)
    | References(field: string, target: Id)
    | Present(field: string)
    | And(left: Criterion, right: Criterion)
    | Or(left: Criterion, right: Criterion)

  /**
   * Whether a record satisfies a criterion.  Equality with null matches a
   * null or missing field; `$gt`/`$lt` relate only two non-null numbers
   * (MongoDB compares values of the same type only).
   */
  function Matches(r: Record, c: Criterion): bool {
    match c
    case Equals(f, v) => FieldValue(r, f) == v
    case Compare(f, op, b) =>
      var v := FieldValue(r, f);
      v.Some? && b.Some? && (if op == Gt then v.value > b.value else v.value < b.value)
    case References(f, t) => f in r.refs && r.refs[f] == t
    case Present(f) => FieldValue(r, f).Some?
    case And(left, right) => Matches(r, left) && Matches(r, right)
    case Or(left, right) => Matches(r, left) || Matches(r, right)
  }

  predicate MatchesAll(r: Record, cs: seq<Criterion>) {
    forall i :: 0 <= i < |cs| ==> Matches(r, cs[i])
  }

  /** The records of xs satisfying every criterion, in xs's order. */
  function Select(xs: seq<Record>, cs: seq<Criterion>): (ys: seq<Record>)
    ensures |ys| <= |xs|
    ensures forall y :: y in ys <==> y in xs && MatchesAll(y, cs)
    ensures multiset(ys) <= multiset(xs)
  {
    if xs == [] then []
    else
      assert xs == [xs[0]] + xs[1..];
      if MatchesAll(xs[0], cs) then [xs[0]] + Select(xs[1..], cs)
      else Select(xs[1..], cs)
  }

  lemma {:induction false} SelectDistinct(xs: seq<Record>, cs: seq<Criterion>)
    requires DistinctIds(xs)
    ensures DistinctIds(Select(xs, cs))
  {
    if xs != [] {
      var rest := xs[1..];
      assert DistinctIds(rest) by {
        forall i, j | 0 <= i < j < |rest| ensures rest[i].id != rest[j].id {
          assert rest[i] == xs[i + 1] && rest[j] == xs[j + 1];
        }
      }
      SelectDistinct(rest, cs);
      if MatchesAll(xs[0], cs) {
        var ys := [xs[0]] + Select(rest, cs);
        forall i, j | 0 <= i < j < |ys| ensures ys[i].id != ys[j].id {
          if i == 0 {
            assert ys[j] in rest;
            var k :| 0 <= k < |rest| && rest[k] == ys[j];
            assert xs[k + 1] == ys[j];
          }
        }
      }
    }
  }

  /** Adding a criterion narrows the selection to the records that also satisfy it. */
  lemma SelectAppend(xs: seq<Record>, cs: seq<Criterion>, c: Criterion)
    ensures forall y :: y in Select(xs, cs + [c]) <==> y in Select(xs, cs) && Matches(y, c)
  {
    forall y ensures MatchesAll(y, cs + [c]) <==> MatchesAll(y, cs) && Matches(y, c) {
      if MatchesAll(y, cs) && Matches(y, c) {
        forall i | 0 <= i < |cs + [c]| ensures Matches(y, (cs + [c])[i]) {
          if i < |cs| { assert (cs + [c])[i] == cs[i]; }
        }
      }
      if MatchesAll(y, cs + [c]) {
        forall i | 0 <= i < |cs| ensures Matches(y, cs[i]) {
          assert (cs + [c])[i] == cs[i];
        }
        assert (cs + [c])[|cs|] == c;
      }
    }
  }
}
