/** Orders and sorting. The program sorts with the library's slice sorts; here that is a
    stable insertion sort over an explicit strict order. */
module Order {
  /** Byte-wise string order. */
  predicate StrLess(a: string, b: string)
  {
    if |b| == 0 then false
    else if |a| == 0 then true
    else if a[0] != b[0] then a[0] < b[0]
    else StrLess(a[1..], b[1..])
  }

  lemma StrLessIrreflexive(a: string)
    ensures !StrLess(a, a)
  {
  }

  lemma {:induction false} StrLessTransitive(a: string, b: string, c: string)
    requires StrLess(a, b) && StrLess(b, c)
    ensures StrLess(a, c)
  {
    if |a| > 0 && a[0] == b[0] == c[0] {
      StrLessTransitive(a[1..], b[1..], c[1..]);
    }
  }

  lemma {:induction false} StrLessTotal(a: string, b: string)
    ensures a == b || StrLess(a, b) || StrLess(b, a)
  {
    if |a| > 0 && |b| > 0 && a[0] == b[0] {
      StrLessTotal(a[1..], b[1..]);
      assert a == [a[0]] + a[1..] && b == [b[0]] + b[1..];
    }
  }

  /** What a comparison must satisfy for sorting to mean something. */
  ghost predicate StrictWeakOrder<T(!new)>(lt: (T, T) -> bool)
  {
    && (forall a :: !lt(a, a))
    && (forall a, b, c :: lt(a, b) && lt(b, c) ==> lt(a, c))
    && (forall a, b, c :: !lt(a, b) && !lt(b, c) ==> !lt(a, c))
  }

  /** No later element comes before an earlier one. */
  ghost predicate Sorted<T>(xs: seq<T>, lt: (T, T) -> bool)
  {
    forall i, j :: 0 <= i < j < |xs| ==> !lt(xs[j], xs[i])
  }

  ghost predicate Distinct<T>(xs: seq<T>)
  {
    forall i, j :: 0 <= i < j < |xs| ==> xs[i] != xs[j]
  }

  function Insert<T>(x: T, ys: seq<T>, lt: (T, T) -> bool): (r: seq<T>)
    ensures |r| == |ys| + 1
    ensures multiset(r) == multiset([x]) + multiset(ys)
  {
    if ys == [] then [x]
    else if lt(ys[0], x) then
      assert ys == [ys[0]] + ys[1..];
      [ys[0]] + Insert(x, ys[1..], lt)
    else [x] + ys
  }

  function Sort<T>(xs: seq<T>, lt: (T, T) -> bool): (r: seq<T>)
    ensures |r| == |xs|
    ensures multiset(r) == multiset(xs)
  {
    if xs == [] then []
    else
      assert xs == [xs[0]] + xs[1..];
      Insert(xs[0], Sort(xs[1..], lt), lt)
  }

  lemma {:induction false} InsertSorts<T(!new)>(x: T, ys: seq<T>, lt: (T, T) -> bool)
    requires StrictWeakOrder(lt) && Sorted(ys, lt)
    ensures Sorted(Insert(x, ys, lt), lt)
  {
    if ys != [] {
      if lt(ys[0], x) {
        InsertSorts(x, ys[1..], lt);
        var rest := Insert(x, ys[1..], lt);
        forall k | 0 <= k < |rest| ensures !lt(rest[k], ys[0]) {
          assert rest[k] in multiset(rest);
          assert rest[k] == x || rest[k] in multiset(ys[1..]);
        }
      } else {
        forall k | 0 <= k < |ys| ensures !lt(ys[k], x) {
          assert !lt(ys[k], ys[0]);
        }
      }
    }
  }

  lemma {:induction false} SortSorts<T(!new)>(xs: seq<T>, lt: (T, T) -> bool)
    requires StrictWeakOrder(lt)
    ensures Sorted(Sort(xs, lt), lt)
  {
    if xs != [] {
      SortSorts(xs[1..], lt);
      InsertSorts(xs[0], Sort(xs[1..], lt), lt);
    }
  }

  /** Sorting never changes which elements there are. */
  lemma SortKeepsElements<T>(xs: seq<T>, lt: (T, T) -> bool)
    ensures forall x :: x in Sort(xs, lt) <==> x in xs
  {
    forall x ensures x in Sort(xs, lt) <==> x in xs {
      assert x in Sort(xs, lt) <==> x in multiset(Sort(xs, lt));
      assert x in xs <==> x in multiset(xs);
    }
  }

  /** Sorting a list without repetitions leaves it without repetitions. */
  lemma SortKeepsDistinct<T>(xs: seq<T>, lt: (T, T) -> bool)
    requires Distinct(xs)
    ensures Distinct(Sort(xs, lt))
  {
    var ys := Sort(xs, lt);
    forall i, j | 0 <= i < j < |ys| ensures ys[i] != ys[j] {
      DistinctCounts(xs, ys[j]);
      RepeatCounts(ys, i, j);
    }
  }

  lemma RepeatCounts<T>(ys: seq<T>, i: nat, j: nat)
    requires i < j < |ys|
    ensures ys[i] == ys[j] ==> multiset(ys)[ys[j]] >= 2
  {
    assert ys == ys[..j] + [ys[j]] + ys[j + 1..];
    assert ys[i] in multiset(ys[..j]);
  }

  lemma {:induction false} DistinctCounts<T>(xs: seq<T>, x: T)
    requires Distinct(xs)
    ensures multiset(xs)[x] <= 1
  {
    if xs != [] {
      DistinctCounts(xs[1..], x);
      assert xs == [xs[0]] + xs[1..];
      assert xs[0] !in xs[1..];
    }
  }
}
