/**
 * How the store orders records for a sort list such as
 * `[(order_by, asc), ("id", asc)]`: each entry contributes two integers to a
 * key (a null field sorts before every number ascending and after every
 * number descending) and keys compare lexicographically.  `Sort` is the
 * order the store returns; it keeps tied records in their incoming order.
 */
module Sorting {
  import opened Wrappers
  import opened Records

  datatype Direction = Asc | Desc

  function Sign(d: Direction): int {
    if d == Asc then 1 else -1
  }

  function Flip(d: Direction): (e: Direction)
    ensures e != d && Sign(e) == -Sign(d)
  {
    if d == Asc then Desc else Asc
  }

  type SortList = seq<(string, Direction)>

  function FlipAll(spec: SortList): (r: SortList)
    ensures |r| == |spec|
    ensures forall i :: 0 <= i < |spec| ==> r[i] == (spec[i].0, Flip(spec[i].1))
  {
    if spec == [] then [] else [(spec[0].0, Flip(spec[0].1))] + FlipAll(spec[1..])
  }

  function Component(r: Record, field: string, d: Direction): (c: seq<int>)
    ensures |c| == 2
  {
    match FieldValue(r, field)
    case None => [0, 0]
    case Some(v) => [Sign(d), Sign(d) * v]
  }

  function Key(r: Record, spec: SortList): (k: seq<int>)
    ensures |k| == 2 * |spec|
  {
    if spec == [] then [] else Component(r, spec[0].0, spec[0].1) + Key(r, spec[1..])
  }

  /** Strict lexicographic order on keys. */
  predicate LexLt(a: seq<int>, b: seq<int>) {
    a != [] && b != [] && (a[0] < b[0] || (a[0] == b[0] && LexLt(a[1..], b[1..])))
  }

  predicate LexLe(a: seq<int>, b: seq<int>) {
    a == b || LexLt(a, b)
  }

  /** r comes strictly before s in the order `spec` asks the store for. */
  predicate Before(r: Record, s: Record, spec: SortList) {
    LexLt(Key(r, spec), Key(s, spec))
  }

  predicate NotAfter(r: Record, s: Record, spec: SortList) {
    LexLe(Key(r, spec), Key(s, spec))
  }

  lemma {:induction false} LexLtIrreflexive(a: seq<int>)
    ensures !LexLt(a, a)
  {
    if a != [] { LexLtIrreflexive(a[1..]); }
  }

  lemma {:induction false} LexLtTransitive(a: seq<int>, b: seq<int>, c: seq<int>)
    requires LexLt(a, b) && LexLt(b, c)
    ensures LexLt(a, c)
  {
    if a[0] == b[0] && b[0] == c[0] {
      LexLtTransitive(a[1..], b[1..], c[1..]);
    }
  }

  lemma {:induction false} LexLtTotal(a: seq<int>, b: seq<int>)
    requires |a| == |b| && a != b
    ensures LexLt(a, b) || LexLt(b, a)
  {
    if a[0] == b[0] {
      assert a[1..] != b[1..] by {
        assert a == [a[0]] + a[1..] && b == [b[0]] + b[1..];
      }
      LexLtTotal(a[1..], b[1..]);
    }
  }

  lemma LexLtAsymmetric(a: seq<int>, b: seq<int>)
    requires LexLt(a, b)
    ensures !LexLt(b, a)
  {
    if LexLt(b, a) {
      LexLtTransitive(a, b, a);
      LexLtIrreflexive(a);
    }
  }

  function Negate(a: seq<int>): (r: seq<int>)
    ensures |r| == |a| && forall i :: 0 <= i < |a| ==> r[i] == -a[i]
  {
    if a == [] then [] else [-a[0]] + Negate(a[1..])
  }

  lemma {:induction false} LexLtNegate(a: seq<int>, b: seq<int>)
    ensures LexLt(Negate(a), Negate(b)) <==> LexLt(b, a)
  {
    if a != [] && b != [] {
      LexLtNegate(a[1..], b[1..]);
      assert Negate(a)[1..] == Negate(a[1..]) && Negate(b)[1..] == Negate(b[1..]);
    }
  }

  lemma NegateAppend(a: seq<int>, b: seq<int>)
    ensures Negate(a + b) == Negate(a) + Negate(b)
  {
    assert forall i :: 0 <= i < |a + b| ==> Negate(a + b)[i] == (Negate(a) + Negate(b))[i];
  }

  lemma ComponentFlip(r: Record, field: string, d: Direction)
    ensures Component(r, field, Flip(d)) == Negate(Component(r, field, d))
  {
    var c := Component(r, field, d);
    assert Negate(c) == [-c[0], -c[1]];
  }

  lemma {:induction false} KeyFlipAll(r: Record, spec: SortList)
    ensures Key(r, FlipAll(spec)) == Negate(Key(r, spec))
  {
    if spec != [] {
      var tail := Key(r, spec[1..]);
      var c := Component(r, spec[0].0, spec[0].1);
      KeyFlipAll(r, spec[1..]);
      assert FlipAll(spec)[1..] == FlipAll(spec[1..]);
      assert FlipAll(spec)[0] == (spec[0].0, Flip(spec[0].1));
      ComponentFlip(r, spec[0].0, spec[0].1);
      assert Key(r, FlipAll(spec)) == Negate(c) + Negate(tail);
      NegateAppend(c, tail);
    }
  }

  /** Reversing every direction of a sort list reverses the order it asks for. */
  lemma BeforeFlipAll(r: Record, s: Record, spec: SortList)
    ensures Before(r, s, FlipAll(spec)) <==> Before(s, r, spec)
  {
    KeyFlipAll(r, spec);
    KeyFlipAll(s, spec);
    LexLtNegate(Key(r, spec), Key(s, spec));
  }

  predicate Sorted(xs: seq<Record>, spec: SortList) {
    forall i, j :: 0 <= i < j < |xs| ==> NotAfter(xs[i], xs[j], spec)
  }

  function Insert(x: Record, ys: seq<Record>, spec: SortList): (r: seq<Record>)
    ensures multiset(r) == multiset(ys) + multiset{x}
    ensures |r| == |ys| + 1
  {
    if ys == [] || NotAfter(x, ys[0], spec) then [x] + ys
    else
      assert ys == [ys[0]] + ys[1..];
      [ys[0]] + Insert(x, ys[1..], spec)
  }

  /** The store's result order: insertion sort, ties kept in incoming order. */
  function Sort(xs: seq<Record>, spec: SortList): (r: seq<Record>)
    ensures multiset(r) == multiset(xs)
    ensures |r| == |xs|
  {
    if xs == [] then []
    else
      assert xs == [xs[0]] + xs[1..];
      Insert(xs[0], Sort(xs[1..], spec), spec)
  }

  lemma NotAfterTransitive(a: Record, b: Record, c: Record, spec: SortList)
    requires NotAfter(a, b, spec) && NotAfter(b, c, spec)
    ensures NotAfter(a, c, spec)
  {
    if LexLt(Key(a, spec), Key(b, spec)) && LexLt(Key(b, spec), Key(c, spec)) {
      LexLtTransitive(Key(a, spec), Key(b, spec), Key(c, spec));
    }
  }

  lemma NotAfterTotal(a: Record, b: Record, spec: SortList)
    ensures NotAfter(a, b, spec) || NotAfter(b, a, spec)
  {
    if Key(a, spec) != Key(b, spec) {
      LexLtTotal(Key(a, spec), Key(b, spec));
    }
  }

  lemma {:induction false} InsertSorted(x: Record, ys: seq<Record>, spec: SortList)
    requires Sorted(ys, spec)
    ensures Sorted(Insert(x, ys, spec), spec)
  {
    if ys == [] {
    } else if NotAfter(x, ys[0], spec) {
      InsertAtFront(x, ys, spec);
    } else {
      InsertSorted(x, ys[1..], spec);
      InsertFurther(x, ys, spec);
    }
  }

  /** Insertion before a sorted sequence's first record keeps it sorted. */
  lemma InsertAtFront(x: Record, ys: seq<Record>, spec: SortList)
    requires Sorted(ys, spec) && ys != [] && NotAfter(x, ys[0], spec)
    ensures Sorted(Insert(x, ys, spec), spec)
  {
    var r := Insert(x, ys, spec);
    assert r == [x] + ys;
    forall i, j | 0 <= i < j < |r| ensures NotAfter(r[i], r[j], spec) {
      if i == 0 && j > 1 {
        NotAfterTransitive(x, ys[0], ys[j - 1], spec);
      }
    }
  }

  /** Insertion past the first record keeps the order when the rest is sorted after it. */
  lemma InsertFurther(x: Record, ys: seq<Record>, spec: SortList)
    requires Sorted(ys, spec) && ys != [] && !NotAfter(x, ys[0], spec)
    requires Sorted(Insert(x, ys[1..], spec), spec)
    ensures Sorted(Insert(x, ys, spec), spec)
  {
    NotAfterTotal(x, ys[0], spec);
    var tail := ys[1..];
    var it := Insert(x, tail, spec);
    var r := Insert(x, ys, spec);
    assert r == [ys[0]] + it;
    forall i, j | 0 <= i < j < |r| ensures NotAfter(r[i], r[j], spec) {
      if i == 0 {
        var z := r[j];
        assert z in multiset(it);
        assert z == x || z in multiset(tail);
        if z != x {
          var k :| 0 <= k < |tail| && tail[k] == z;
          assert ys[k + 1] == z;
        }
      } else {
        assert r[i] == it[i - 1] && r[j] == it[j - 1];
      }
    }
  }

  lemma {:induction false} SortSorted(xs: seq<Record>, spec: SortList)
    ensures Sorted(Sort(xs, spec), spec)
  {
    if xs != [] {
      SortSorted(xs[1..], spec);
      InsertSorted(xs[0], Sort(xs[1..], spec), spec);
    }
  }

  /** The first record of the store's order comes no later than any record of the input. */
  lemma SortFirstIsLeast(xs: seq<Record>, spec: SortList, y: Record)
    requires y in xs
    ensures |Sort(xs, spec)| > 0 && NotAfter(Sort(xs, spec)[0], y, spec)
  {
    var s := Sort(xs, spec);
    SortSorted(xs, spec);
    assert y in multiset(s);
    var k :| 0 <= k < |s| && s[k] == y;
    if k == 0 { assert Key(s[0], spec) == Key(y, spec); }
  }

  /** The last record of the store's order comes no earlier than any record of the input. */
  lemma SortLastIsGreatest(xs: seq<Record>, spec: SortList, y: Record)
    requires y in xs
    ensures |Sort(xs, spec)| > 0 && NotAfter(y, Sort(xs, spec)[|xs| - 1], spec)
  {
    var s := Sort(xs, spec);
    SortSorted(xs, spec);
    assert y in multiset(s);
    var k :| 0 <= k < |s| && s[k] == y;
    if k == |s| - 1 { assert Key(s[k], spec) == Key(y, spec); }
  }

  lemma SortMembers(xs: seq<Record>, spec: SortList)
    ensures forall y :: y in Sort(xs, spec) <==> y in xs
  {
    forall y ensures y in Sort(xs, spec) <==> y in xs {
      assert y in Sort(xs, spec) <==> y in multiset(Sort(xs, spec));
      assert y in xs <==> y in multiset(xs);
    }
  }

  /**
   * The store's `limit(n)`: no limit for 0 or none, otherwise the first |n|
   * records (a negative limit returns |n| records in a single batch).
   */
  function Window(xs: seq<Record>, limit: Option<int>): (w: seq<Record>)
    ensures |w| <= |xs| && w == xs[..|w|]
    ensures limit.None? || limit.value == 0 ==> w == xs
    ensures limit.Some? && limit.value > 0 ==> |w| == if limit.value < |xs| then limit.value else |xs|
    ensures limit.Some? && limit.value < 0 ==> |w| == if -limit.value < |xs| then -limit.value else |xs|
  {
    match limit
    case None => xs
    case Some(n) =>
      var m := if n < 0 then -n else n;
      if n == 0 || m >= |xs| then xs else xs[..m]
  }

  /** `array_reverse`. */
  function Reverse(xs: seq<Record>): (r: seq<Record>)
    ensures |r| == |xs| && forall i :: 0 <= i < |xs| ==> r[i] == xs[|xs| - 1 - i]
  {
    if xs == [] then [] else Reverse(xs[1..]) + [xs[0]]
  }

  /** The store returns each record at most once: sorting keeps identifiers distinct. */
  lemma {:induction false} SortDistinct(xs: seq<Record>, spec: SortList)
    requires DistinctIds(xs)
    ensures DistinctIds(Sort(xs, spec))
  {
    if xs != [] {
      var rest := xs[1..];
      assert DistinctIds(rest) by {
        forall i, j | 0 <= i < j < |rest| ensures rest[i].id != rest[j].id {
          assert rest[i] == xs[i + 1] && rest[j] == xs[j + 1];
        }
      }
      SortDistinct(rest, spec);
      SortMembers(rest, spec);
      forall y | y in Sort(rest, spec) ensures y.id != xs[0].id {
        var k :| 0 <= k < |rest| && rest[k] == y;
        assert xs[k + 1] == y;
      }
      InsertDistinct(xs[0], Sort(rest, spec), spec);
    }
  }

  lemma {:induction false} InsertDistinct(x: Record, ys: seq<Record>, spec: SortList)
    requires DistinctIds(ys) && forall y :: y in ys ==> y.id != x.id
    ensures DistinctIds(Insert(x, ys, spec))
  {
    var r := Insert(x, ys, spec);
    if ys == [] || NotAfter(x, ys[0], spec) {
      forall i, j | 0 <= i < j < |r| ensures r[i].id != r[j].id {
        if i == 0 { assert r[j] == ys[j - 1]; } else { assert r[i] == ys[i - 1] && r[j] == ys[j - 1]; }
      }
    } else {
      var tail := ys[1..];
      assert DistinctIds(tail) by {
        forall i, j | 0 <= i < j < |tail| ensures tail[i].id != tail[j].id {
          assert tail[i] == ys[i + 1] && tail[j] == ys[j + 1];
        }
      }
      InsertDistinct(x, tail, spec);
      var it := Insert(x, tail, spec);
      assert r == [ys[0]] + it;
      forall i, j | 0 <= i < j < |r| ensures r[i].id != r[j].id {
        if i == 0 {
          var z := r[j];
          assert z in multiset(it);
          assert z == x || z in multiset(tail);
          if z != x {
            var k :| 0 <= k < |tail| && tail[k] == z;
            assert ys[k + 1] == z;
          }
        } else {
          assert r[i] == it[i - 1] && r[j] == it[j - 1];
        }
      }
    }
  }

  /** Comparing concatenated keys: the first parts decide unless they are equal. */
  lemma {:induction false} LexLtAppend(a: seq<int>, b: seq<int>, c: seq<int>, e: seq<int>)
    requires |a| == |c|
    ensures LexLt(a + b, c + e) <==> LexLt(a, c) || (a == c && LexLt(b, e))
  {
    if a == [] {
      assert a + b == b && c + e == e;
    } else {
      LexLtAppend(a[1..], b, c[1..], e);
      assert (a + b)[1..] == a[1..] + b && (c + e)[1..] == c[1..] + e;
      assert a == [a[0]] + a[1..] && c == [c[0]] + c[1..];
    }
  }

  lemma ReverseMembers(xs: seq<Record>)
    ensures forall x :: x in Reverse(xs) <==> x in xs
  {
    var r := Reverse(xs);
    forall x ensures x in r <==> x in xs {
      if x in r {
        var i :| 0 <= i < |r| && r[i] == x;
        assert xs[|xs| - 1 - i] == x;
      }
      if x in xs {
        var i :| 0 <= i < |xs| && xs[i] == x;
        assert r[|xs| - 1 - i] == x;
      }
    }
  }
}
