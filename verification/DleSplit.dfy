/** When a run of DLE paths stays one group, told from the paths alone. */
module DleSplit {
  import opened Order
  import opened DleTree

  // ---------------------------------------------------------------- conditions on the rows

  /** A row lies just below d, and another row lies there or further down: that row's directory
      makes a heading of its own. */
  ghost predicate OwnHeading(rows: seq<Row>, d: string)
  {
    exists i, j :: 0 <= i < |rows| && 0 <= j < |rows| && i != j
      && '/' !in RelLabel(d, rows[i].Path()) && Under(rows[j].Path(), rows[i].Path())
  }

  /** Some directory just below d has at least two of the rows. */
  ghost predicate SharedBranch(rows: seq<Row>, d: string)
  {
    exists i, j, seg: string :: 0 <= i < |rows| && 0 <= j < |rows| && i != j && '/' !in seg && BothBelow(rows[i], rows[j], d + "/" + seg)
  }

  ghost predicate BothBelow(r: Row, q: Row, e: string) { Under(r.Path(), e) && Under(q.Path(), e) }

  /** The slashes in the labels the rows would have below d. */
  function LabelSlashes(rows: seq<Row>, d: string): nat
  {
    if rows == [] then 0
    else LabelSlashes(rows[..|rows| - 1], d) + multiset(RelLabel(d, rows[|rows| - 1].Path()))['/']
  }

  // ---------------------------------------------------------------- paths below d

  lemma Parts(p: string, d: string)
    requires Under(p, d) && p != d
    ensures p == d + "/" + RelLabel(d, p) && '/' !in Segment(p, d)
    ensures '/' !in RelLabel(d, p) <==> p == d + "/" + Segment(p, d)
  {
    var rest := p[|d| + 1..];
    assert p == d + "/" + rest;
    assert p[|d|..] == "/" + rest;
    assert RelLabel(d, p) == rest;
    var n := FirstSlash(rest);
    if '/' !in rest {
      assert n == |rest| && rest[..n] == rest;
    }
    if p == d + "/" + rest[..n] {
      assert rest == p[|d| + 1..] == rest[..n];
    }
  }

  lemma {:induction false} FirstSlashIs(s: string, n: nat)
    requires n <= |s| && (n < |s| ==> s[n] == '/') && forall k :: 0 <= k < n ==> s[k] != '/'
    ensures FirstSlash(s) == n
  {
    if n > 0 { FirstSlashIs(s[1..], n - 1); }
  }

  lemma SegmentIs(p: string, d: string, seg: string)
    requires Under(p, d) && p != d && '/' !in seg && Under(p, d + "/" + seg)
    ensures Segment(p, d) == seg
  {
    var rest, e := p[|d| + 1..], d + "/" + seg;
    assert e[|d| + 1..] == seg && p[..|e|] == e;
    forall k | 0 <= k < |seg| ensures rest[k] == seg[k] { assert rest[k] == p[..|e|][|d| + 1 + k] == e[|d| + 1..][k]; }
    assert |seg| < |rest| ==> rest[|seg|] == p[|e|];
    FirstSlashIs(rest, |seg|);
    assert rest[..|seg|] == seg;
  }

  // ---------------------------------------------------------------- what is in a bucket

  lemma {:induction false} FilterPlaces(rows: seq<Row>, d: string, seg: string, a: nat) returns (i: nat)
    requires Below(rows, d) && a < |Filter(rows, d, seg)|
    ensures i < |rows| && rows[i] == Filter(rows, d, seg)[a] && Segment(rows[i].Path(), d) == seg
    ensures a <= i
  {
    var n := |rows| - 1;
    var front := Filter(rows[..n], d, seg);
    if a < |front| {
      i := FilterPlaces(rows[..n], d, seg, a);
    } else {
      FilterMembers(rows[..n], d, seg);
      i := n;
    }
  }

  /** Two entries of a bucket stem from two rows. */
  lemma {:induction false} TwoPlaces(rows: seq<Row>, d: string, seg: string) returns (i: nat, j: nat)
    requires Below(rows, d) && |Filter(rows, d, seg)| >= 2
    ensures i < j < |rows| && rows[i] == Filter(rows, d, seg)[0]
    ensures Segment(rows[i].Path(), d) == seg && Segment(rows[j].Path(), d) == seg
  {
    var n := |rows| - 1;
    var front := Filter(rows[..n], d, seg);
    if |front| >= 2 {
      i, j := TwoPlaces(rows[..n], d, seg);
    } else {
      i := FilterPlaces(rows[..n], d, seg, 0);
      j := n;
    }
  }

  lemma {:induction false} OneInFilter(rows: seq<Row>, d: string, seg: string, i: nat)
    requires Below(rows, d) && i < |rows| && Segment(rows[i].Path(), d) == seg
    ensures rows[i] in Filter(rows, d, seg) && |Filter(rows, d, seg)| >= 1
  {
    var n := |rows| - 1;
    if i < n { OneInFilter(rows[..n], d, seg, i); }
  }

  lemma {:induction false} TwoInFilter(rows: seq<Row>, d: string, seg: string, i: nat, j: nat)
    requires Below(rows, d) && i < j < |rows| && Segment(rows[i].Path(), d) == seg == Segment(rows[j].Path(), d)
    ensures |Filter(rows, d, seg)| >= 2
  {
    var n := |rows| - 1;
    if j < n { TwoInFilter(rows[..n], d, seg, i, j); } else { OneInFilter(rows[..n], d, seg, i); }
  }

  // ---------------------------------------------------------------- the split decision

  lemma PopulatedIff(rows: seq<Row>, d: string)
    requires Below(rows, d)
    ensures Populated(Buckets(rows, d)) <==> SharedBranch(rows, d)
  {
    var buckets := Buckets(rows, d);
    BucketsAre(rows, d);
    if Populated(buckets) {
      var b :| 0 <= b < |buckets| && |buckets[b].rows| >= 2;
      var i, j := TwoPlaces(rows, d, buckets[b].seg);
      Parts(rows[i].Path(), d);
      SegmentUnder(rows[i].Path(), d);
      SegmentUnder(rows[j].Path(), d);
      assert BothBelow(rows[i], rows[j], d + "/" + buckets[b].seg);
    }
    if SharedBranch(rows, d) { BranchPopulates(rows, d); }
  }

  lemma BranchPopulates(rows: seq<Row>, d: string)
    requires Below(rows, d) && SharedBranch(rows, d)
    ensures Populated(Buckets(rows, d))
  {
    var i, j, seg :| 0 <= i < |rows| && 0 <= j < |rows| && i != j && '/' !in seg && BothBelow(rows[i], rows[j], d + "/" + seg);
    SegmentIs(rows[i].Path(), d, seg);
    SegmentIs(rows[j].Path(), d, seg);
    hide Under;
    TwoInFilter(rows, d, seg, if i < j then i else j, if i < j then j else i);
    BucketsAre(rows, d);
    var buckets := Buckets(rows, d);
    var b :| 0 <= b < |buckets| && buckets[b].seg == Segment(rows[i].Path(), d);
    assert |buckets[b].rows| >= 2;
  }

  lemma AtOrBefore(d: string, p: string)
    requires d <= p
    ensures d == p || StrLess(d, p)
  {
    if d != p { PrefixLess(d, p); }
  }

  /** The row at the bucket's own directory sorts first in it. */
  lemma CoveringFirst(rows: seq<Row>, d: string, i: nat)
    requires IsRun(rows) && Below(rows, d) && i < |rows| && rows[i].Path() == d + "/" + Segment(rows[i].Path(), d)
    ensures var in_ := Filter(rows, d, Segment(rows[i].Path(), d)); in_ != [] && in_[0].Path() == rows[i].Path()
  {
    var seg := Segment(rows[i].Path(), d);
    var in_ := Filter(rows, d, seg);
    OneInFilter(rows, d, seg, i);
    FilterSorted(rows, d, seg);
    FilterMembers(rows, d, seg);
    var first := in_[0];
    assert first in in_ && first in rows;
    SegmentUnder(first.Path(), d);
    AtOrBefore(rows[i].Path(), first.Path());
    var k :| 0 <= k < |in_| && in_[k] == rows[i];
    var h :| 0 <= h < |rows| && rows[h] == first;
    assert k == 0 || !RowLess(in_[k], in_[0]);
  }

  lemma SplitsIff(rows: seq<Row>, d: string)
    requires IsRun(rows) && Below(rows, d)
    ensures Splits(Buckets(rows, d), d) <==> OwnHeading(rows, d)
  {
    BucketsAre(rows, d);
    if Splits(Buckets(rows, d), d) { SplitHasHeading(rows, d); }
    if OwnHeading(rows, d) { HeadingSplits(rows, d); }
  }

  lemma SplitHasHeading(rows: seq<Row>, d: string)
    requires Below(rows, d) && Splits(Buckets(rows, d), d)
    ensures OwnHeading(rows, d)
  {
    var buckets := Buckets(rows, d);
    BucketsAre(rows, d);
    var b :| 0 <= b < |buckets| && Covered(buckets[b], d);
    var i, j := TwoPlaces(rows, d, buckets[b].seg);
    Parts(rows[i].Path(), d);
    SegmentUnder(rows[j].Path(), d);
    assert '/' !in RelLabel(d, rows[i].Path()) && Under(rows[j].Path(), rows[i].Path());
  }

  lemma HeadingSplits(rows: seq<Row>, d: string)
    requires IsRun(rows) && Below(rows, d) && OwnHeading(rows, d)
    ensures Splits(Buckets(rows, d), d)
  {
    var buckets := Buckets(rows, d);
    BucketsAre(rows, d);
    var i, j :| 0 <= i < |rows| && 0 <= j < |rows| && i != j && '/' !in RelLabel(d, rows[i].Path()) && Under(rows[j].Path(), rows[i].Path());
    var seg := Segment(rows[i].Path(), d);
    Parts(rows[i].Path(), d);
    SegmentIs(rows[j].Path(), d, seg);
    TwoInFilter(rows, d, seg, if i < j then i else j, if i < j then j else i);
    CoveringFirst(rows, d, i);
    var b :| 0 <= b < |buckets| && buckets[b].seg == seg;
    assert Covered(buckets[b], d);
  }

  lemma {:induction false} SlashesCounted(s: string)
    ensures CountSlashes(s) == multiset(s)['/']
  {
    if s != "" {
      var n := |s| - 1;
      SlashesCounted(s[..n]);
      assert s == s[..n] + [s[n]];
    }
  }

  lemma {:induction false} NoiseFront(b: Bucket, rest: seq<Bucket>, d: string)
    ensures Noise([b] + rest, d) == NoiseOf(b.rows, d) + Noise(rest, d)
  {
    hide NoiseOf;
    if rest == [] {
      assert [b] + rest == [b] && [b][..0] == [];
    } else {
      var n, all := |rest| - 1, [b] + rest;
      NoiseFront(b, rest[..n], d);
      assert all[..|all| - 1] == [b] + rest[..n] && all[|all| - 1] == rest[n];
    }
  }

  lemma NoiseAppended(rows: seq<Row>, r: Row, d: string)
    ensures NoiseOf(rows + [r], d) == NoiseOf(rows, d) + CountSlashes(RelLabel(d, r.Path()))
  {
    assert (rows + [r])[..|rows|] == rows;
  }

  lemma {:induction false} NoiseAdded(buckets: seq<Bucket>, seg: string, r: Row, d: string)
    ensures Noise(AddToBuckets(buckets, seg, r), d) == Noise(buckets, d) + CountSlashes(RelLabel(d, r.Path()))
  {
    if buckets == [] {
      NoiseFront(Bucket(seg, [r]), [], d);
      assert [Bucket(seg, [r])] + [] == [Bucket(seg, [r])];
      NoiseAppended([], r, d);
      assert [] + [r] == [r];
    } else {
      var b, rest := buckets[0], buckets[1..];
      assert buckets == [b] + rest;
      NoiseFront(b, rest, d);
      if b.seg == seg {
        NoiseFront(Bucket(seg, b.rows + [r]), rest, d);
        NoiseAppended(b.rows, r, d);
      } else {
        NoiseAdded(rest, seg, r, d);
        NoiseFront(b, AddToBuckets(rest, seg, r), d);
      }
    }
  }

  /** However the rows are bucketed, the noise is the slashes in their labels. */
  lemma {:induction false} NoiseIsSlashes(rows: seq<Row>, d: string)
    requires Below(rows, d)
    ensures Noise(Buckets(rows, d), d) == LabelSlashes(rows, d)
  {
    if rows != [] {
      var n := |rows| - 1;
      NoiseIsSlashes(rows[..n], d);
      NoiseAdded(Buckets(rows[..n], d), Segment(rows[n].Path(), d), rows[n], d);
      SlashesCounted(RelLabel(d, rows[n].Path()));
    }
  }

  // ---------------------------------------------------------------- how many groups there are

  lemma {:induction false} SomeGroup(rows: seq<Row>)
    requires IsRun(rows)
    ensures |Arrange(rows)| >= 1
    decreases |rows|, 0, 0
  {
    var d := FoldDir(rows);
    if |rows| > 1 && rows[0].Path() != d {
      AllBelow(rows);
      if !Merges(Buckets(rows, d), d) { SplitGroups(rows); }
    }
  }

  /** A split run has at least two groups. */
  lemma {:induction false} SplitGroups(rows: seq<Row>)
    requires IsRun(rows) && |rows| > 1 && Below(rows, FoldDir(rows))
    ensures var buckets := Buckets(rows, FoldDir(rows));
      (forall i :: 0 <= i < |buckets| ==> IsRun(buckets[i].rows) && |buckets[i].rows| < |rows|) && |ArrangeAll(buckets, |rows| - 1)| >= 2
    decreases |rows| - 1, 2, 0
  {
    var d := FoldDir(rows);
    var buckets := Buckets(rows, d);
    BucketsAre(rows, d);
    forall i | 0 <= i < |buckets| ensures IsRun(buckets[i].rows) && |buckets[i].rows| < |rows| { BucketIsSmallerRun(rows, buckets[i]); }
    GroupPerBucket(buckets, |rows| - 1);
    FoldIsDeepest(rows);
    var b :| 0 <= b < |buckets| && buckets[b].seg == Segment(rows[0].Path(), d);
    SegmentsDiffer(rows, buckets[b].seg);
    var j :| 0 <= j < |rows| && Segment(rows[j].Path(), d) != buckets[b].seg;
    var c :| 0 <= c < |buckets| && buckets[c].seg == Segment(rows[j].Path(), d);
    assert b != c;
  }

  lemma {:induction false} GroupPerBucket(buckets: seq<Bucket>, n: nat)
    requires forall i :: 0 <= i < |buckets| ==> IsRun(buckets[i].rows) && |buckets[i].rows| <= n
    ensures |ArrangeAll(buckets, n)| >= |buckets|
    decreases n, 1, |buckets|
  {
    if buckets != [] {
      GroupPerBucket(buckets[..|buckets| - 1], n);
      SomeGroup(buckets[|buckets| - 1].rows);
    }
  }

  /** A run stays one group exactly when it is a single row, when its first row covers the rest,
      or when no row just below the common directory has others with it, and moreover no branch
      is shared or the labels have at most eight slashes between them. */
  lemma OneGroupIff(rows: seq<Row>)
    requires IsRun(rows)
    ensures var d := FoldDir(rows);
      |Arrange(rows)| == 1 <==>
      || |rows| == 1
      || rows[0].Path() == d
      || (!OwnHeading(rows, d) && (!SharedBranch(rows, d) || LabelSlashes(rows, d) <= 8))
  {
    var d := FoldDir(rows);
    if |rows| > 1 && rows[0].Path() != d {
      AllBelow(rows);
      SplitsIff(rows, d);
      PopulatedIff(rows, d);
      NoiseIsSlashes(rows, d);
      if !Merges(Buckets(rows, d), d) { SplitGroups(rows); }
    }
  }
}
