/** Sequencing a selection of archives into one forward pass over the volumes without ever
    reading a DLE's levels out of order. */
module OnePass {
  import opened Records
  import opened Order

  datatype ReadItem = ReadItem(key: ArchiveKey, medium: string, first: FilePos)

  /** By medium, then the volume's label, then its epoch, then the position. */
  predicate PhysicallyBefore(a: ReadItem, b: ReadItem)
  {
    if a.medium != b.medium then StrLess(a.medium, b.medium)
    else if a.first.volume != b.first.volume then StrLess(a.first.volume, b.first.volume)
    else if a.first.epoch != b.first.epoch then a.first.epoch < b.first.epoch
    else a.first.pos < b.first.pos
  }

  predicate SameVolume(a: ReadItem, b: ReadItem)
  {
    a.medium == b.medium && a.first.volume == b.first.volume && a.first.epoch == b.first.epoch
  }

  /** a is an earlier level of b's DLE. */
  predicate Precedes(a: ReadItem, b: ReadItem) { a.key.dle == b.key.dle && a.key.level < b.key.level }

  /** Nothing that has to be read before x is left. */
  predicate Ready(left: seq<ReadItem>, x: ReadItem)
  {
    forall i :: 0 <= i < |left| ==> !Precedes(left[i], x)
  }

  /** x may be read next: it is ready, and no ready item lies before it. */
  predicate Next(left: seq<ReadItem>, x: ReadItem)
  {
    x in left && Ready(left, x) && forall i :: 0 <= i < |left| && Ready(left, left[i]) ==> !PhysicallyBefore(left[i], x)
  }

  /** Every item is, when its turn comes, a next one among those still to be read. */
  ghost predicate Greedy(out: seq<ReadItem>)
  {
    forall i :: 0 <= i < |out| ==> Next(out[i..], out[i])
  }

  /** No DLE's levels ever descend. */
  ghost predicate LevelsAscend(out: seq<ReadItem>)
  {
    forall i, j :: 0 <= i < j < |out| ==> !Precedes(out[j], out[i])
  }

  /** The lowest level of each DLE among the items. */
  ghost predicate AreLeast(left: seq<ReadItem>, least: map<string, int>)
  {
    && (forall i :: 0 <= i < |left| ==> left[i].key.dle in least && least[left[i].key.dle] <= left[i].key.level)
    && (forall d :: d in least ==> exists i :: 0 <= i < |left| && left[i].key.dle == d && left[i].key.level == least[d])
  }

  method MinLevels(left: seq<ReadItem>) returns (least: map<string, int>)
    ensures AreLeast(left, least)
  {
    least := map[];
    for n := 0 to |left|
      invariant forall i :: 0 <= i < n ==> left[i].key.dle in least && least[left[i].key.dle] <= left[i].key.level
      invariant forall d :: d in least ==> exists i :: 0 <= i < n && left[i].key.dle == d && left[i].key.level == least[d]
    {
      var k := left[n].key;
      if k.dle !in least || k.level < least[k.dle] {
        least := least[k.dle := k.level];
      }
    }
  }

  lemma {:induction false} LowestIsReady(left: seq<ReadItem>, i: nat)
    requires i < |left|
    ensures exists j :: 0 <= j < |left| && left[j].key.dle == left[i].key.dle && left[j].key.level <= left[i].key.level && Ready(left, left[j])
  {
    var least := LowestAt(left, left[i].key.dle, |left|, i);
    assert Ready(left, left[least]);
  }

  /** The position of a lowest level of the DLE among the first n items or at i. */
  function LowestAt(left: seq<ReadItem>, dle: string, n: nat, i: nat): (r: nat)
    requires n <= |left| && i < |left| && left[i].key.dle == dle
    ensures r < |left| && left[r].key.dle == dle && left[r].key.level <= left[i].key.level
    ensures forall j :: 0 <= j < n && left[j].key.dle == dle ==> left[r].key.level <= left[j].key.level
  {
    if n == 0 then i
    else
      var r := LowestAt(left, dle, n - 1, i);
      if left[n - 1].key.dle == dle && left[n - 1].key.level < left[r].key.level then n - 1 else r
  }

  /** Of the ready ones among the first n items, best is the first of the physically earliest. */
  ghost predicate BestOf(left: seq<ReadItem>, n: nat, best: nat)
    requires n <= |left|
  {
    && best < n && Ready(left, left[best])
    && (forall j :: 0 <= j < n && Ready(left, left[j]) ==> !PhysicallyBefore(left[j], left[best]))
    && (forall j :: 0 <= j < best && Ready(left, left[j]) ==> PhysicallyBefore(left[best], left[j]))
  }

  lemma Improves(left: seq<ReadItem>, n: nat, best: nat)
    requires n < |left| && BestOf(left, n, best) && Ready(left, left[n]) && PhysicallyBefore(left[n], left[best])
    ensures BestOf(left, n + 1, n)
  {
    forall j | 0 <= j < n && Ready(left, left[j])
      ensures PhysicallyBefore(left[n], left[j]) && !PhysicallyBefore(left[j], left[n])
    {
      if !PhysicallyBefore(left[n], left[j]) { NotBeforeTransitive(left[n], left[j], left[best]); }
      if PhysicallyBefore(left[j], left[n]) { BeforeTransitive(left[j], left[n], left[best]); }
    }
    BeforeIrreflexive(left[n]);
  }

  lemma Passes(left: seq<ReadItem>, n: nat, best: nat)
    requires n < |left| && BestOf(left, n, best) && (Ready(left, left[n]) ==> !PhysicallyBefore(left[n], left[best]))
    ensures BestOf(left, n + 1, best)
  {
  }

  lemma FirstReady(left: seq<ReadItem>, n: nat)
    requires n < |left| && Ready(left, left[n]) && forall j :: 0 <= j < n ==> !Ready(left, left[j])
    ensures BestOf(left, n + 1, n)
  {
    BeforeIrreflexive(left[n]);
  }

  lemma ReadyIff(left: seq<ReadItem>, least: map<string, int>, i: nat)
    requires i < |left| && AreLeast(left, least)
    ensures left[i].key.dle in least
    ensures Ready(left, left[i]) <==> left[i].key.level == least[left[i].key.dle]
  {
    var d := left[i].key.dle;
    var j :| 0 <= j < |left| && left[j].key.dle == d && left[j].key.level == least[d];
    assert Precedes(left[j], left[i]) <==> least[d] < left[i].key.level;
  }

  /** One round: the first of the physically earliest ready items. */
  method Pick(left: seq<ReadItem>) returns (best: nat)
    requires left != []
    ensures BestOf(left, |left|, best)
  {
    hide PhysicallyBefore;
    hide AreLeast;
    hide Ready;
    hide BestOf;
    var least := MinLevels(left);
    LowestIsReady(left, 0);
    var found := false;
    best := 0;
    for i := 0 to |left|
      invariant !found ==> forall j :: 0 <= j < i ==> !Ready(left, left[j])
      invariant found ==> best < i && BestOf(left, i, best)
    {
      ReadyIff(left, least, i);
      if left[i].key.level != least[left[i].key.dle] {
        if found { Passes(left, i, best); }
        continue;
      }
      if !found {
        FirstReady(left, i);
        found, best := true, i;
      } else if PhysicallyBefore(left[i], left[best]) {
        Improves(left, i, best);
        best := i;
      } else {
        Passes(left, i, best);
      }
    }
  }

  lemma BeforeIrreflexive(a: ReadItem)
    ensures !PhysicallyBefore(a, a)
  {
    StrLessIrreflexive(a.medium);
    StrLessIrreflexive(a.first.volume);
  }

  lemma StrOrder(a: string, b: string, c: string)
    ensures !StrLess(a, a)
    ensures StrLess(a, b) && StrLess(b, c) ==> StrLess(a, c)
    ensures a == b || StrLess(a, b) || StrLess(b, a)
  {
    StrLessIrreflexive(a);
    StrLessTotal(a, b);
    if StrLess(a, b) && StrLess(b, c) { StrLessTransitive(a, b, c); }
  }

  lemma BeforeTransitive(a: ReadItem, b: ReadItem, c: ReadItem)
    requires PhysicallyBefore(a, b) && PhysicallyBefore(b, c)
    ensures PhysicallyBefore(a, c)
  {
    StrOrder(a.medium, b.medium, c.medium);
    StrOrder(b.medium, a.medium, b.medium);
    StrOrder(a.first.volume, b.first.volume, c.first.volume);
    StrOrder(b.first.volume, a.first.volume, b.first.volume);
  }

  lemma BeforeTotal(a: ReadItem, b: ReadItem)
    ensures PhysicallyBefore(a, b) || PhysicallyBefore(b, a) || (SameVolume(a, b) && a.first.pos == b.first.pos)
  {
    StrLessTotal(a.medium, b.medium);
    StrLessTotal(a.first.volume, b.first.volume);
  }

  lemma NotBeforeTransitive(a: ReadItem, b: ReadItem, c: ReadItem)
    requires !PhysicallyBefore(a, b) && !PhysicallyBefore(b, c)
    ensures !PhysicallyBefore(a, c)
  {
    BeforeTotal(a, b);
    BeforeTotal(b, c);
    if PhysicallyBefore(c, b) && PhysicallyBefore(b, a) { BeforeTransitive(c, b, a); }
    StrLessIrreflexive(a.medium);
    StrLessIrreflexive(a.first.volume);
    if PhysicallyBefore(a, c) && PhysicallyBefore(c, a) { BeforeTransitive(a, c, a); }
  }

  function Without<T>(xs: seq<T>, i: nat): seq<T>
    requires i < |xs|
  {
    xs[..i] + xs[i + 1..]
  }

  lemma WithoutOne<T>(xs: seq<T>, i: nat)
    requires i < |xs|
    ensures multiset(xs) == multiset{xs[i]} + multiset(Without(xs, i))
  {
    assert xs == xs[..i] + [xs[i]] + xs[i + 1..];
  }

  /** Readiness and order depend only on which items are left, not on how they are listed. */
  lemma NextAmongSame(a: seq<ReadItem>, b: seq<ReadItem>, x: ReadItem)
    requires multiset(a) == multiset(b) && Next(a, x)
    ensures Next(b, x)
  {
    forall y ensures y in a <==> y in b {
      assert y in a <==> y in multiset(a);
      assert y in b <==> y in multiset(b);
    }
    ReadyAmongSame(a, b);
    forall i | 0 <= i < |b| && Ready(b, b[i]) ensures !PhysicallyBefore(b[i], x) {
      assert b[i] in a;
      var j :| 0 <= j < |a| && a[j] == b[i];
      assert Ready(a, a[j]);
    }
  }

  lemma ReadyAmongSame(a: seq<ReadItem>, b: seq<ReadItem>)
    requires forall y :: y in a <==> y in b
    ensures forall x :: Ready(a, x) <==> Ready(b, x)
  {
    forall x ensures Ready(a, x) <==> Ready(b, x) {
      forall i | 0 <= i < |a| && Precedes(a[i], x) ensures !Ready(b, x) {
        assert a[i] in b;
      }
      forall i | 0 <= i < |b| && Precedes(b[i], x) ensures !Ready(a, x) {
        assert b[i] in a;
      }
    }
  }

  /** What has been put out, followed by any listing of what is left, stays greedy. */
  ghost predicate GreedyBefore(out: seq<ReadItem>, left: seq<ReadItem>)
  {
    forall i :: 0 <= i < |out| ==> Next(out[i..] + left, out[i])
  }

  /** A one-pass order: a permutation in which every item is, at its turn, one of the physically
      earliest among those whose lower levels have all been read. */
  method OrderForOnePass(items: seq<ReadItem>) returns (out: seq<ReadItem>)
    ensures multiset(out) == multiset(items)
    ensures Greedy(out) && LevelsAscend(out)
  {
    var remaining := items;
    out := [];
    while |remaining| > 0
      invariant multiset(out) + multiset(remaining) == multiset(items)
      invariant GreedyBefore(out, remaining)
      decreases |remaining|
    {
      var best := Pick(remaining);
      Emitted(out, remaining, best);
      WithoutOne(remaining, best);
      out, remaining := out + [remaining[best]], remaining[..best] + remaining[best + 1..];
    }
    forall i | 0 <= i < |out| ensures Next(out[i..], out[i]) {
      assert out[i..] + [] == out[i..];
    }
    GreedyAscends(out);
  }

  lemma Emitted(out: seq<ReadItem>, left: seq<ReadItem>, best: nat)
    requires GreedyBefore(out, left) && best < |left| && BestOf(left, |left|, best)
    ensures GreedyBefore(out + [left[best]], Without(left, best))
  {
    WithoutOne(left, best);
    forall i | 0 <= i < |out| + 1 ensures Next((out + [left[best]])[i..] + Without(left, best), (out + [left[best]])[i]) {
      if i < |out| {
        EmittedEarlier(out, left, left[best], Without(left, best), i);
      } else {
        assert (out + [left[best]])[i..] + Without(left, best) == [left[best]] + Without(left, best);
        SameItems(left[best], Without(left, best), left);
        NextAmongSame(left, [left[best]] + Without(left, best), left[best]);
      }
    }
  }

  lemma SameItems(x: ReadItem, rest: seq<ReadItem>, left: seq<ReadItem>)
    requires multiset(left) == multiset{x} + multiset(rest)
    ensures multiset([x] + rest) == multiset(left)
  {
  }

  lemma EmittedEarlier(out: seq<ReadItem>, left: seq<ReadItem>, x: ReadItem, rest: seq<ReadItem>, i: nat)
    requires i < |out| && Next(out[i..] + left, out[i]) && multiset(left) == multiset{x} + multiset(rest)
    ensures Next((out + [x])[i..] + rest, out[i])
  {
    assert (out + [x])[i..] + rest == out[i..] + ([x] + rest);
    SameItems(x, rest, left);
    assert multiset(out[i..] + ([x] + rest)) == multiset(out[i..]) + multiset([x] + rest);
    assert multiset(out[i..] + left) == multiset(out[i..]) + multiset(left);
    NextAmongSame(out[i..] + left, out[i..] + ([x] + rest), out[i]);
  }

  /** Levels never descend in a greedy order. */
  lemma GreedyAscends(out: seq<ReadItem>)
    requires Greedy(out)
    ensures LevelsAscend(out)
  {
    forall i, j | 0 <= i < j < |out| ensures !Precedes(out[j], out[i]) {
      assert Next(out[i..], out[i]);
      assert out[i..][j - i] == out[j];
    }
  }

  /** The physical layout never puts a higher level before a lower one of its DLE. */
  ghost predicate LayoutRespectsLevels(items: seq<ReadItem>)
  {
    forall x, y :: x in items && y in items && Precedes(x, y) ==> !PhysicallyBefore(y, x)
  }

  /** The pass is a purely forward read exactly when the layout respects the levels. */
  lemma ForwardReadIff(out: seq<ReadItem>)
    requires Greedy(out)
    ensures Sorted(out, PhysicallyBefore) <==> LayoutRespectsLevels(out)
  {
    if LayoutRespectsLevels(out) {
      forall i, j | 0 <= i < j < |out| ensures !PhysicallyBefore(out[j], out[i]) {
        LeastOfAll(out, i, j);
      }
    }
    if Sorted(out, PhysicallyBefore) {
      GreedyAscends(out);
      forall x, y | x in out && y in out && Precedes(x, y) ensures !PhysicallyBefore(y, x) {
        var i :| 0 <= i < |out| && out[i] == x;
        var j :| 0 <= j < |out| && out[j] == y;
        assert i != j && !(j < i);
      }
    }
  }

  lemma LeastOfAll(out: seq<ReadItem>, i: nat, j: nat)
    requires i < j < |out| && Next(out[i..], out[i]) && LayoutRespectsLevels(out)
    ensures !PhysicallyBefore(out[j], out[i])
  {
    LayoutOfTail(out, i);
    NextIsLeast(out[i..], out[i], j - i);
  }

  lemma LayoutOfTail(out: seq<ReadItem>, i: nat)
    requires i <= |out| && LayoutRespectsLevels(out)
    ensures LayoutRespectsLevels(out[i..])
  {
    forall x, y | x in out[i..] && y in out[i..] && Precedes(x, y) ensures !PhysicallyBefore(y, x) {
      assert x in out && y in out;
    }
  }

  /** With such a layout the next item is before everything left, ready or not. */
  lemma NextIsLeast(left: seq<ReadItem>, x: ReadItem, j: nat)
    requires Next(left, x) && LayoutRespectsLevels(left) && j < |left|
    ensures !PhysicallyBefore(left[j], x)
  {
    LowestIsReady(left, j);
    var r :| 0 <= r < |left| && left[r].key.dle == left[j].key.dle && left[r].key.level <= left[j].key.level && Ready(left, left[r]);
    SameLevelReady(left, r, j);
    if left[r].key.level < left[j].key.level {
      assert left[r] in left && left[j] in left && Precedes(left[r], left[j]);
      NotBeforeTransitive(left[j], left[r], x);
    }
  }

  lemma SameLevelReady(left: seq<ReadItem>, r: nat, j: nat)
    requires r < |left| && j < |left| && Ready(left, left[r])
    ensures left[r].key.dle == left[j].key.dle && left[r].key.level == left[j].key.level ==> Ready(left, left[j])
  {
  }

  /** In a forward read each volume's items are contiguous: no volume is mounted twice. */
  lemma ForwardReadMountsOnce(out: seq<ReadItem>, i: nat, j: nat, k: nat)
    requires Sorted(out, PhysicallyBefore) && i < j < k < |out| && SameVolume(out[i], out[k])
    ensures SameVolume(out[i], out[j])
  {
    var a, b, c := out[i], out[j], out[k];
    assert !PhysicallyBefore(b, a) && !PhysicallyBefore(c, b);
    StrOrder(a.medium, b.medium, a.medium);
    StrOrder(a.first.volume, b.first.volume, a.first.volume);
  }

  /** A forward read goes from medium to medium, label to label and epoch to epoch in order, and
      on one volume only forward. */
  lemma ForwardReadNeverRewinds(out: seq<ReadItem>, i: nat, j: nat)
    requires Sorted(out, PhysicallyBefore) && i < j < |out|
    ensures var a, b := out[i], out[j];
      if a.medium != b.medium then StrLess(a.medium, b.medium)
      else if a.first.volume != b.first.volume then StrLess(a.first.volume, b.first.volume)
      else if a.first.epoch != b.first.epoch then a.first.epoch < b.first.epoch
      else a.first.pos <= b.first.pos
  {
    assert !PhysicallyBefore(out[j], out[i]);
    StrLessTotal(out[i].medium, out[j].medium);
    StrLessTotal(out[i].first.volume, out[j].first.volume);
  }

  /** And any one-pass order goes back on a volume only for an archive that had to wait for a
      lower level of its DLE. */
  lemma RewindsOnlyForLevels(out: seq<ReadItem>, i: nat, j: nat)
    requires Greedy(out) && i < j < |out| && SameVolume(out[i], out[j]) && out[j].first.pos < out[i].first.pos
    ensures exists k :: i <= k < j && out[k].key.dle == out[j].key.dle && out[k].key.level < out[j].key.level
  {
    BackOnVolume(out[j], out[i]);
    GreedyAscends(out);
    hide PhysicallyBefore;
    hide SameVolume;
    var left := out[i..];
    assert Next(left, out[i]);
    hide Greedy;
    assert left[j - i] == out[j];
    hide Next;
    var n := PassedOver(left, out[i], j - i);
    assert out[i + n] == left[n];
    assert i + n < j;
  }

  lemma BackOnVolume(a: ReadItem, b: ReadItem)
    requires SameVolume(b, a) && a.first.pos < b.first.pos
    ensures PhysicallyBefore(a, b)
  {
  }

  /** An item passed over for one behind it is waiting for a lower level. */
  lemma PassedOver(left: seq<ReadItem>, x: ReadItem, j: nat) returns (n: nat)
    requires Next(left, x) && j < |left| && PhysicallyBefore(left[j], x)
    ensures n < |left| && Precedes(left[n], left[j])
  {
    assert !Ready(left, left[j]);
    n :| 0 <= n < |left| && Precedes(left[n], left[j]);
  }
}
