/** The grouper as it runs: sorting, cutting into runs, bucketing and grouping in loops. */
module DleBuild {
  import opened Order
  import opened DleTree
  import opened DleRuns

  lemma StrCompares(a: string, b: string, c: string)
    ensures !StrLess(a, a)
    ensures StrLess(a, b) && StrLess(b, c) ==> StrLess(a, c)
    ensures a == b || StrLess(a, b) || StrLess(b, a)
  {
    StrLessIrreflexive(a);
    StrLessTotal(a, b);
    if StrLess(a, b) && StrLess(b, c) { StrLessTransitive(a, b, c); }
  }

  lemma RowLessTransitive(a: Row, b: Row, c: Row)
    ensures RowLess(a, b) && RowLess(b, c) ==> RowLess(a, c)
    ensures !RowLess(a, a)
  {
    StrCompares(a.item.host, b.item.host, c.item.host);
    StrCompares(b.item.host, a.item.host, b.item.host);
    StrCompares(a.Path(), b.Path(), c.Path());
  }

  lemma RowLessTotal(a: Row, b: Row)
    ensures RowLess(a, b) || RowLess(b, a) || (a.item.host == b.item.host && a.Path() == b.Path())
  {
    StrCompares(a.item.host, b.item.host, a.item.host);
    StrCompares(a.Path(), b.Path(), a.Path());
  }

  lemma RowLessOrders()
    ensures StrictWeakOrder(RowLess)
  {
    forall a: Row ensures !RowLess(a, a) { RowLessTransitive(a, a, a); }
    forall a, b, c | RowLess(a, b) && RowLess(b, c) ensures RowLess(a, c) { RowLessTransitive(a, b, c); }
    forall a, b, c | !RowLess(a, b) && !RowLess(b, c) ensures !RowLess(a, c) {
      RowLessTotal(a, b);
      RowLessTotal(b, c);
      RowLessTransitive(c, b, a);
      RowLessTransitive(a, c, a);
    }
  }

  method FoldDirOf(rows: seq<Row>) returns (d: string)
    requires rows != []
    ensures d == FoldDir(rows)
  {
    d := rows[0].Path();
    assert rows[..1] == [rows[0]];
    for i := 1 to |rows|
      invariant d == FoldDir(rows[..i])
    {
      assert rows[..i + 1][..i] == rows[..i];
      d := CommonDirOf(d, rows[i].Path());
    }
    assert rows[..|rows|] == rows;
  }

  method GroupRows(rows: seq<Row>, d: string) returns (g: Group)
    requires rows != []
    ensures g == GroupAt(rows, d)
  {
    var children: seq<Child>, covering: seq<Child>, rooted := [], [], false;
    for i := 0 to |rows|
      invariant children == Children(rows[..i], d, false) && covering == Children(rows[..i], d, true)
      invariant rooted <==> covering != []
    {
      assert rows[..i + 1][..i] == rows[..i];
      var p := rows[i].Path();
      var c := Child(rows[i].index, RelLabel(d, p), rows[i].item.rest);
      if p == d {
        rooted, covering := true, covering + [c];
      } else {
        children := children + [c];
      }
    }
    assert rows[..|rows|] == rows;
    g := Group(rows[0].item.host, d, -1, rooted, children + covering);
  }

  /** The buckets as a list of segments in first-appearance order and a map of their rows. */
  ghost predicate Mapped(segs: seq<string>, buckets: map<string, seq<Row>>, list: seq<Bucket>)
  {
    && |segs| == |list| && DistinctSegs(list)
    && (forall i :: 0 <= i < |list| ==> list[i].seg == segs[i] && segs[i] in buckets && buckets[segs[i]] == list[i].rows)
    && (forall s :: s in buckets ==> s in segs)
  }

  method MakeBuckets(rows: seq<Row>, d: string) returns (segs: seq<string>, buckets: map<string, seq<Row>>)
    requires Below(rows, d)
    ensures Mapped(segs, buckets, Buckets(rows, d))
  {
    segs, buckets := [], map[];
    for n := 0 to |rows|
      invariant Mapped(segs, buckets, Buckets(rows[..n], d))
    {
      var s := Segment(rows[n].Path(), d);
      ghost var before := Buckets(rows[..n], d);
      assert rows[..n + 1][..n] == rows[..n];
      assert Buckets(rows[..n + 1], d) == AddToBuckets(before, s, rows[n]);
      AddedTo(before, s, rows[n]);
      if s in buckets {
        MappedKnown(segs, buckets, before, s, rows[n]);
        buckets := buckets[s := buckets[s] + [rows[n]]];
      } else {
        MappedNew(segs, buckets, before, s, rows[n]);
        segs, buckets := segs + [s], buckets[s := [rows[n]]];
      }
    }
    assert rows[..|rows|] == rows;
  }

  lemma MappedKnown(segs: seq<string>, buckets: map<string, seq<Row>>, list: seq<Bucket>, s: string, r: Row)
    requires Mapped(segs, buckets, list) && s in buckets && DistinctSegs(AddToBuckets(list, s, r))
    requires Added(list, s, r, AddToBuckets(list, s, r))
    ensures Mapped(segs, buckets[s := buckets[s] + [r]], AddToBuckets(list, s, r))
  {
    var after := AddToBuckets(list, s, r);
    var k :| 0 <= k < |segs| && segs[k] == s;
    assert list[k].seg == s;
    forall i | 0 <= i < |list| ensures after[i].seg == segs[i] && after[i].rows == if i == k then buckets[s] + [r] else buckets[segs[i]] {
      if i != k {
        assert list[i].seg != s;
        assert list[i].rows + [] == list[i].rows;
      }
    }
  }

  lemma MappedNew(segs: seq<string>, buckets: map<string, seq<Row>>, list: seq<Bucket>, s: string, r: Row)
    requires Mapped(segs, buckets, list) && s !in buckets && DistinctSegs(AddToBuckets(list, s, r))
    requires Added(list, s, r, AddToBuckets(list, s, r))
    ensures Mapped(segs + [s], buckets[s := [r]], AddToBuckets(list, s, r))
  {
    var after := AddToBuckets(list, s, r);
    forall i | 0 <= i < |list| ensures list[i].seg != s && after[i] == list[i] {
      assert segs[i] in buckets;
      assert list[i].rows + [] == list[i].rows;
    }
    assert |after| == |list| + 1;
  }

  lemma OneMoreBucket(front: seq<Bucket>, b: Bucket, d: string)
    requires b.rows != []
    ensures Populated(front + [b]) <==> Populated(front) || |b.rows| >= 2
    ensures Splits(front + [b], d) <==> Splits(front, d) || Covered(b, d)
    ensures Noise(front + [b], d) == Noise(front, d) + NoiseOf(b.rows, d)
  {
    var all := front + [b];
    assert all[|front|] == b && all[..|front|] == front;
    forall i | 0 <= i < |front| ensures all[i] == front[i] { }
  }

  /** Whether the readability cost lets the buckets stay one group. */
  method JudgeMerge(buckets: seq<Bucket>, d: string) returns (merges: bool)
    requires forall i :: 0 <= i < |buckets| ==> buckets[i].rows != []
    ensures merges <==> Merges(buckets, d)
  {
    hide RelLabel;
    hide NoiseOf;
    var populated: nat, noise, split := 0, 0, false;
    for n := 0 to |buckets|
      invariant populated > 0 <==> Populated(buckets[..n])
      invariant noise == Noise(buckets[..n], d) && (split <==> Splits(buckets[..n], d))
    {
      var b := buckets[n];
      assert buckets[..n + 1] == buckets[..n] + [b];
      OneMoreBucket(buckets[..n], b, d);
      if |b.rows| >= 2 {
        populated := populated + 1;
        if b.rows[0].Path() == d + "/" + b.seg {
          split := true;
        }
      }
      var here := AddNoise(b.rows, d);
      noise := noise + here;
    }
    assert buckets[..|buckets|] == buckets;
    merges := !split && (populated == 0 || noise <= NOISE_BUDGET);
  }

  method AddNoise(rows: seq<Row>, d: string) returns (noise: nat)
    ensures noise == NoiseOf(rows, d)
  {
    noise := 0;
    for i := 0 to |rows|
      invariant noise == NoiseOf(rows[..i], d)
    {
      assert rows[..i + 1][..i] == rows[..i];
      noise := noise + CountSlashes(RelLabel(d, rows[i].Path()));
    }
    assert rows[..|rows|] == rows;
  }

  /** The buckets in their order. */
  function Listed(segs: seq<string>, buckets: map<string, seq<Row>>): (list: seq<Bucket>)
    requires forall i :: 0 <= i < |segs| ==> segs[i] in buckets
    ensures |list| == |segs|
  {
    seq(|segs|, i requires 0 <= i < |segs| => Bucket(segs[i], buckets[segs[i]]))
  }

  method ArrangeRun(rows: seq<Row>) returns (out: seq<Group>)
    requires IsRun(rows)
    ensures out == Arrange(rows)
    decreases |rows|, 0
  {
    if |rows| == 1 {
      return [Group(rows[0].item.host, rows[0].Path(), rows[0].index, false, [])];
    }
    var d := FoldDirOf(rows);
    var list: seq<Bucket>, merges := [], true;
    if rows[0].Path() != d {
      AllBelow(rows);
      list := BucketList(rows, d);
      BucketsAre(rows, d);
      merges := JudgeMerge(list, d);
    }
    if merges {
      var g := GroupRows(rows, d);
      return [g];
    }
    forall i | 0 <= i < |list| ensures IsRun(list[i].rows) && |list[i].rows| < |rows| { BucketIsSmallerRun(rows, list[i]); }
    out := ArrangeEach(list, |rows| - 1);
  }

  method BucketList(rows: seq<Row>, d: string) returns (list: seq<Bucket>)
    requires Below(rows, d)
    ensures list == Buckets(rows, d)
  {
    var segs, buckets := MakeBuckets(rows, d);
    list := Listed(segs, buckets);
  }

  /** Each bucket's own arrangement, one after another. */
  method ArrangeEach(list: seq<Bucket>, n: nat) returns (out: seq<Group>)
    requires forall i :: 0 <= i < |list| ==> IsRun(list[i].rows) && |list[i].rows| <= n
    ensures out == ArrangeAll(list, n)
    decreases n, 1
  {
    out := [];
    for i := 0 to |list|
      invariant out == ArrangeAll(list[..i], n)
    {
      assert list[..i + 1][..i] == list[..i];
      var sub := ArrangeRun(list[i].rows);
      out := out + sub;
    }
    assert list[..|list|] == list;
  }

  /** The items as rows, in order. */
  function Rows(items: seq<Item>): (rows: seq<Row>)
    ensures |rows| == |items|
  {
    seq(|items|, i requires 0 <= i < |items| => Row(i, items[i]))
  }

  lemma InsertFront(r: Row, rows: seq<Row>)
    requires rows != []
    ensures var all := Insert(r, rows, RowLess);
      if RowLess(rows[0], r) then all[0] == rows[0] && all[1..] == Insert(r, rows[1..], RowLess)
      else all[0] == r && all[1..] == rows
  {
  }

  lemma InsertAfterFirst(first: int, front: seq<int>, more: seq<int>, x: int)
    requires multiset(more) == multiset(front) + multiset{x}
    ensures multiset([first] + more) == multiset([first] + front) + multiset{x}
  {
  }

  lemma InsertAtFront(x: int, rest: seq<int>)
    ensures multiset([x] + rest) == multiset(rest) + multiset{x}
  {
  }

  lemma {:induction false} InsertIndexes(r: Row, rows: seq<Row>)
    ensures multiset(RowIndexes(Insert(r, rows, RowLess))) == multiset(RowIndexes(rows)) + multiset{r.index}
  {
    var all := Insert(r, rows, RowLess);
    FirstIndex(all);
    if rows == [] {
      InsertAtFront(r.index, []);
    } else {
      InsertFront(r, rows);
      hide *;
      if RowLess(rows[0], r) {
        InsertIndexes(r, rows[1..]);
        FirstIndex(rows);
        InsertAfterFirst(rows[0].index, RowIndexes(rows[1..]), RowIndexes(all[1..]), r.index);
      } else {
        InsertAtFront(r.index, RowIndexes(rows));
      }
    }
  }

  lemma FirstIndex(rows: seq<Row>)
    requires rows != []
    ensures RowIndexes(rows) == [rows[0].index] + RowIndexes(rows[1..])
  {
    RowAppended([], rows[0]);
    assert [] + [rows[0]] == [rows[0]];
    RowIndexesAppend([rows[0]], rows[1..]);
    assert [rows[0]] + rows[1..] == rows;
  }

  lemma {:induction false} SortIndexes(rows: seq<Row>)
    ensures multiset(RowIndexes(Sort(rows, RowLess))) == multiset(RowIndexes(rows))
  {
    if rows != [] {
      SortIndexes(rows[1..]);
      InsertIndexes(rows[0], Sort(rows[1..], RowLess));
      FirstIndex(rows);
      hide RowIndexes;
      hide RowLess;
      hide Insert;
    }
  }

  lemma {:induction false} RowIndexesAt(rows: seq<Row>)
    ensures |RowIndexes(rows)| == |rows|
    ensures forall i :: 0 <= i < |rows| ==> RowIndexes(rows)[i] == rows[i].index
  {
    if rows != [] { RowIndexesAt(rows[..|rows| - 1]); }
  }

  /** Arranges the items for display. Every item is shown exactly once; in every group the base
      joined with a child's label is that child's path; the groups come by host. */
  method Build(items: seq<Item>) returns (out: seq<Group>)
    ensures multiset(ShownBy(out)) == multiset(seq(|items|, i => i))
    ensures forall g :: g in out ==> ShownTruly(g, Rows(items))
    ensures GroupsInOrder(out)
  {
    var idx := Sort(Rows(items), RowLess);
    RowLessOrders();
    SortSorts(Rows(items), RowLess);
    SortKeepsElements(Rows(items), RowLess);
    SortIndexes(Rows(items));
    RowIndexesAt(Rows(items));
    assert RowIndexes(Rows(items)) == seq(|items|, i => i);
    out := BuildSorted(idx);
    BuildPartitions(idx);
    BuildIsTrue(idx);
    BuildInHostOrder(idx);
    forall g | g in out ensures ShownTruly(g, Rows(items)) { TrulyAmongMore(g, idx, Rows(items)); }
  }

  lemma Together(a: seq<Group>, b: seq<Group>, c: seq<Group>)
    ensures (a + b) + c == a + (b + c)
  {
  }

  method BuildSorted(idx: seq<Row>) returns (out: seq<Group>)
    requires Sorted(idx, RowLess)
    ensures out == BuildFrom(idx)
  {
    out := [];
    var i := 0;
    assert idx[0..] == idx;
    assert BuildFrom(idx[|idx|..]) == [];
    hide BuildFrom;
    hide RowLess;
    while i < |idx|
      invariant i <= |idx| && out + BuildFrom(idx[i..]) == BuildFrom(idx)
    {
      var groups, j := OneRun(idx, i);
      Together(out, groups, BuildFrom(idx[j..]));
      out, i := out + groups, j;
    }
  }

  /** The groups of the rows from i on that belong together: one hostless row, or one run. */
  method OneRun(idx: seq<Row>, i: nat) returns (groups: seq<Group>, j: nat)
    requires i < |idx| && Sorted(idx, RowLess)
    ensures i < j <= |idx| && groups + BuildFrom(idx[j..]) == BuildFrom(idx[i..])
  {
    if idx[i].item.host == "" {
      HostlessFirst(idx, i);
      groups, j := [Group("", idx[i].item.path, idx[i].index, false, [])], i + 1;
    } else {
      j := RunEnd(idx, i);
      RunFirst(idx, i, j);
      groups := ArrangeRun(idx[i..j]);
    }
  }

  lemma HostlessFirst(idx: seq<Row>, i: nat)
    requires i < |idx| && Sorted(idx, RowLess) && idx[i].item.host == ""
    ensures BuildFrom(idx[i..]) == [Hostless(idx[i])] + BuildFrom(idx[i + 1..])
  {
    assert idx[i..][1..] == idx[i + 1..];
  }

  lemma RunFirst(idx: seq<Row>, i: nat, j: nat)
    requires i < j <= |idx| && j == i + RunLen(idx[i..]) && Sorted(idx, RowLess) && idx[i].item.host != ""
    ensures IsRun(idx[i..j]) && BuildFrom(idx[i..]) == Arrange(idx[i..j]) + BuildFrom(idx[j..])
  {
    var left := idx[i..];
    RunIsRun(left);
    assert left[..RunLen(left)] == idx[i..j] && left[RunLen(left)..] == idx[j..];
  }

  /** Where the run that starts at i ends. */
  method RunEnd(idx: seq<Row>, i: nat) returns (j: nat)
    requires i < |idx|
    ensures i < j <= |idx| && j == i + RunLen(idx[i..])
  {
    var p := idx[i].Path();
    j := i + 1;
    while j < |idx| && idx[j].item.host == idx[i].item.host && CommonDir(p, idx[j].Path()) != "/"
      invariant i < j <= |idx| && forall k :: i < k < j ==> Joins(idx[i], idx[k])
    {
      j := j + 1;
    }
    RunLenIs(idx[i..], j - i);
  }

  lemma RunLenIs(rows: seq<Row>, n: nat)
    requires 1 <= n <= |rows| && (forall k :: 1 <= k < n ==> Joins(rows[0], rows[k])) && (n < |rows| ==> !Joins(rows[0], rows[n]))
    ensures RunLen(rows) == n
  {
  }
}
