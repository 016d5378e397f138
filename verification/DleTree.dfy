/** Grouping DLEs by their path relationships: the deepest common directory of a run of paths,
    buckets by the first segment below it, and a recursion into the buckets. */
module DleTree {
  import opened Order

  // ---------------------------------------------------------------- paths

  /** p is the directory d or lies below it. */
  predicate Under(p: string, d: string) { d <= p && (|p| == |d| || p[|d|] == '/') }

  /** A directory below the root. */
  predicate Dir(e: string) { e != "" && e != "/" }

  function CommonLen(a: string, b: string): (n: nat)
    ensures n <= |a| && n <= |b| && a[..n] == b[..n]
    ensures n < |a| && n < |b| ==> a[n] != b[n]
  {
    if a == "" || b == "" || a[0] != b[0] then 0
    else
      assert a == [a[0]] + a[1..] && b == [b[0]] + b[1..];
      1 + CommonLen(a[1..], b[1..])
  }

  function LastSlash(s: string): (j: int)
    ensures -1 <= j < |s| && (j >= 0 ==> s[j] == '/')
    ensures forall k :: j < k < |s| ==> s[k] != '/'
  {
    if s == "" then -1
    else if s[|s| - 1] == '/' then |s| - 1
    else LastSlash(s[..|s| - 1])
  }

  function CommonDir(a: string, b: string): string
  {
    var i := CommonLen(a, b);
    if i == |a| && (i == |b| || b[i] == '/') then a
    else if i == |b| && a[i] == '/' then b
    else
      var j := LastSlash(a[..i]);
      if j > 0 then a[..j] else "/"
  }

  method CommonDirOf(a: string, b: string) returns (d: string)
    ensures d == CommonDir(a, b)
  {
    var n := if |a| < |b| then |a| else |b|;
    var i := 0;
    while i < n && a[i] == b[i]
      invariant i <= n && a[..i] == b[..i]
    {
      i := i + 1;
    }
    CommonLenIs(a, b, i);
    if i == |a| && (i == |b| || b[i] == '/') {
      return a;
    }
    if i == |b| && a[i] == '/' {
      return b;
    }
    var j := i - 1;
    while j >= 0 && a[j] != '/'
      invariant -1 <= j < i && forall k :: j < k < i ==> a[k] != '/'
    {
      j := j - 1;
    }
    assert LastSlash(a[..i]) == j;
    d := if j > 0 then a[..j] else "/";
  }

  lemma CommonLenIs(a: string, b: string, i: nat)
    requires i <= |a| && i <= |b| && a[..i] == b[..i]
    requires i < |a| && i < |b| ==> a[i] != b[i]
    ensures CommonLen(a, b) == i
  {
    PrefixShared(a, b, i);
    SameBytes(a, b, CommonLen(a, b));
  }

  lemma SameBytes(a: string, b: string, n: nat)
    requires n <= |a| && n <= |b| && a[..n] == b[..n]
    ensures forall k :: 0 <= k < n ==> a[k] == b[k]
  {
    forall k | 0 <= k < n ensures a[k] == b[k] { assert a[..n][k] == b[..n][k]; }
  }

  lemma UnderTransitive(p: string, d: string, e: string)
    requires Under(p, d) && Under(d, e)
    ensures Under(p, e)
  {
  }

  /** The common directory is below exactly the directories that both paths are below: it is
      the deepest one containing both, and the root stands for none. */
  lemma CommonDirMeets(a: string, b: string, e: string)
    requires Dir(e)
    ensures Under(CommonDir(a, b), e) <==> Under(a, e) && Under(b, e)
  {
    var i, c := CommonLen(a, b), CommonDir(a, b);
    if Under(a, e) && Under(b, e) {
      BothUnder(a, b, e);
    }
    if Under(c, e) {
      assert c != "/";
      CommonDirContains(a, b);
      UnderTransitive(a, c, e);
      UnderTransitive(b, c, e);
    }
  }

  lemma CommonDirContains(a: string, b: string)
    ensures CommonDir(a, b) != "/" ==> Under(a, CommonDir(a, b)) && Under(b, CommonDir(a, b))
  {
    var i := CommonLen(a, b);
    var j := LastSlash(a[..i]);
    if j > 0 {
      assert a[..i][..j] == a[..j] && b[..i][..j] == b[..j] && a[..i][j] == a[j] && b[..i][j] == b[j];
    }
  }

  lemma BothUnder(a: string, b: string, e: string)
    requires Dir(e) && Under(a, e) && Under(b, e)
    ensures Under(CommonDir(a, b), e)
  {
    var i, n := CommonLen(a, b), |e|;
    assert a[..n] == e == b[..n];
    PrefixShared(a, b, n);
    if n < |a| && n < |b| {
      assert n < i by { if n == i { assert a[n] == '/' == b[n]; } }
      assert a[..i][n] == '/';
      var j := LastSlash(a[..i]);
      assert j >= n;
      assert a[..j][..n] == e;
    }
  }

  lemma PrefixShared(a: string, b: string, n: nat)
    requires n <= |a| && n <= |b| && a[..n] == b[..n]
    ensures n <= CommonLen(a, b)
  {
    SameBytes(a, b, n);
  }

  function TrimSlashes(p: string): string
  {
    if p != "" && p[|p| - 1] == '/' then TrimSlashes(p[..|p| - 1]) else p
  }

  /** Trailing slashes dropped; the bare root kept. */
  function CleanPath(p: string): string
  {
    var c := TrimSlashes(p);
    if c != "" then c else "/"
  }

  function FirstSlash(s: string): (n: nat)
    ensures n <= |s| && (n < |s| ==> s[n] == '/') && '/' !in s[..n]
  {
    if s == "" || s[0] == '/' then 0
    else
      assert s[1..][..FirstSlash(s[1..])] == s[..1 + FirstSlash(s[1..])][1..];
      1 + FirstSlash(s[1..])
  }

  /** p's first element below d. */
  function Segment(p: string, d: string): string
    requires Under(p, d) && p != d
  {
    var rest := p[|d| + 1..];
    rest[..FirstSlash(rest)]
  }

  function RelLabel(base: string, p: string): string
  {
    var rest := if base <= p then p[|base|..] else p;
    if "/" <= rest then rest[1..] else rest
  }

  function Join(base: string, rel: string): string
  {
    if rel == "" then base else base + "/" + rel
  }

  /** A label put back under its base is the path. */
  lemma LabelJoins(base: string, p: string)
    requires Under(p, base) && base != "" && p == CleanPath(p)
    ensures Join(base, RelLabel(base, p)) == p
    ensures RelLabel(base, p) == "" <==> p == base
  {
    TrimShortens(p);
    if p != base {
      var rest := p[|base|..];
      assert rest == "/" + rest[1..] && p == base + rest;
      assert base + "/" + rest[1..] == base + ("/" + rest[1..]);
      assert p[|p| - 1] == rest[|rest| - 1];
    }
  }

  lemma {:induction false} TrimShortens(p: string)
    ensures |TrimSlashes(p)| <= |p|
    ensures p != "" && p[|p| - 1] == '/' ==> |TrimSlashes(p)| < |p|
  {
    if p != "" && p[|p| - 1] == '/' { TrimShortens(p[..|p| - 1]); }
  }

  lemma SegmentUnder(p: string, d: string)
    requires Under(p, d) && p != d
    ensures Under(p, d + "/" + Segment(p, d))
  {
    var rest := p[|d| + 1..];
    var n := FirstSlash(rest);
    assert p == d + "/" + rest;
    assert d + "/" + rest[..n] == p[..|d| + 1 + n];
    assert n < |rest| ==> p[|d| + 1 + n] == rest[n];
  }

  // ---------------------------------------------------------------- rows

  datatype Item = Item(host: string, path: string, rest: bool)

  /** One item with its place in the caller's list. */
  datatype Row = Row(index: int, item: Item)
  {
    function Path(): string { CleanPath(item.path) }
  }

  datatype Child = Child(index: int, rel: string, rest: bool)

  datatype Group = Group(host: string, base: string, index: int, rooted: bool, children: seq<Child>)

  /** Hostless items last, then by host, then by path. */
  predicate RowLess(a: Row, b: Row)
  {
    if (a.item.host == "") != (b.item.host == "") then b.item.host == ""
    else if a.item.host != b.item.host then StrLess(a.item.host, b.item.host)
    else StrLess(a.Path(), b.Path())
  }

  ghost predicate OneHost(rows: seq<Row>) { forall i :: 0 <= i < |rows| ==> rows[i].item.host == rows[0].item.host }

  /** Every row lies below (or at) e. */
  ghost predicate AllUnder(rows: seq<Row>, e: string) { forall i :: 0 <= i < |rows| ==> Under(rows[i].Path(), e) }

  ghost predicate ShareDir(rows: seq<Row>) { exists e :: Dir(e) && AllUnder(rows, e) }

  /** A run the arrangement is given: one host, sorted by path, and all below some directory
      unless it is a single row. */
  ghost predicate IsRun(rows: seq<Row>)
  {
    rows != [] && OneHost(rows) && Sorted(rows, RowLess) && (|rows| > 1 ==> ShareDir(rows))
  }

  /** The common directory of a list of rows. */
  function FoldDir(rows: seq<Row>): string
    requires rows != []
  {
    if |rows| == 1 then rows[0].Path() else CommonDir(FoldDir(rows[..|rows| - 1]), rows[|rows| - 1].Path())
  }

  lemma {:induction false} FoldMeets(rows: seq<Row>, e: string)
    requires rows != [] && Dir(e)
    ensures Under(FoldDir(rows), e) <==> AllUnder(rows, e)
  {
    hide CommonDir;
    hide CleanPath;
    if |rows| > 1 {
      var n := |rows| - 1;
      FoldMeets(rows[..n], e);
      CommonDirMeets(FoldDir(rows[..n]), rows[n].Path(), e);
      hide Under;
      assert AllUnder(rows, e) <==> AllUnder(rows[..n], e) && Under(rows[n].Path(), e);
    }
  }

  /** The folded directory of a run is the deepest directory the whole run lies below. */
  lemma FoldIsDeepest(rows: seq<Row>)
    requires rows != [] && ShareDir(rows)
    ensures Dir(FoldDir(rows)) && AllUnder(rows, FoldDir(rows))
    ensures forall e :: Dir(e) && AllUnder(rows, e) ==> Under(FoldDir(rows), e)
  {
    var d := FoldDir(rows);
    forall e | Dir(e) && AllUnder(rows, e) ensures Under(d, e) { FoldMeets(rows, e); }
    var e :| Dir(e) && AllUnder(rows, e);
    assert Under(d, e) && d != "/";
    FoldMeets(rows, d);
  }

  // ---------------------------------------------------------------- buckets

  datatype Bucket = Bucket(seg: string, rows: seq<Row>)

  function AddToBuckets(buckets: seq<Bucket>, seg: string, r: Row): seq<Bucket>
  {
    if buckets == [] then [Bucket(seg, [r])]
    else if buckets[0].seg == seg then [Bucket(seg, buckets[0].rows + [r])] + buckets[1..]
    else [buckets[0]] + AddToBuckets(buckets[1..], seg, r)
  }

  /** Each row strictly below d, and so with a segment there. */
  ghost predicate Below(rows: seq<Row>, d: string)
  {
    forall i :: 0 <= i < |rows| ==> Under(rows[i].Path(), d) && rows[i].Path() != d
  }

  /** Rows by first segment below d, in order of first appearance. */
  function Buckets(rows: seq<Row>, d: string): seq<Bucket>
    requires Below(rows, d)
  {
    if rows == [] then []
    else
      var n := |rows| - 1;
      AddToBuckets(Buckets(rows[..n], d), Segment(rows[n].Path(), d), rows[n])
  }

  /** The rows with one segment, in order. */
  function Filter(rows: seq<Row>, d: string, seg: string): seq<Row>
    requires Below(rows, d)
  {
    if rows == [] then []
    else
      var n := |rows| - 1;
      Filter(rows[..n], d, seg) + if Segment(rows[n].Path(), d) == seg then [rows[n]] else []
  }

  ghost predicate DistinctSegs(buckets: seq<Bucket>)
  {
    forall i, j :: 0 <= i < j < |buckets| ==> buckets[i].seg != buckets[j].seg
  }

  /** The row went to its segment's bucket, or to a new one at the end. */
  ghost predicate Added(before: seq<Bucket>, seg: string, r: Row, after: seq<Bucket>)
  {
    && |before| <= |after| <= |before| + 1
    && (forall i :: 0 <= i < |before| ==> after[i] == Bucket(before[i].seg, before[i].rows + if before[i].seg == seg then [r] else []))
    && (|after| > |before| ==> after[|before|] == Bucket(seg, [r]) && forall i :: 0 <= i < |before| ==> before[i].seg != seg)
    && (|after| == |before| ==> exists i :: 0 <= i < |before| && before[i].seg == seg)
  }

  lemma {:induction false} AddedTo(buckets: seq<Bucket>, seg: string, r: Row)
    requires DistinctSegs(buckets)
    ensures Added(buckets, seg, r, AddToBuckets(buckets, seg, r))
    ensures DistinctSegs(AddToBuckets(buckets, seg, r))
  {
    if buckets != [] && buckets[0].seg != seg {
      assert DistinctSegs(buckets[1..]);
      AddedTo(buckets[1..], seg, r);
      assert buckets[0].rows + [] == buckets[0].rows;
    } else if buckets != [] {
      forall i | 1 <= i < |buckets| ensures buckets[i].rows + [] == buckets[i].rows { }
    }
  }

  /** Each bucket holds exactly the rows of its segment. */
  ghost predicate BucketsOf(rows: seq<Row>, d: string, buckets: seq<Bucket>)
    requires Below(rows, d)
  {
    && DistinctSegs(buckets)
    && (forall i :: 0 <= i < |buckets| ==> buckets[i].rows == Filter(rows, d, buckets[i].seg) && buckets[i].rows != [])
    && (forall j :: 0 <= j < |rows| ==> exists i :: 0 <= i < |buckets| && buckets[i].seg == Segment(rows[j].Path(), d))
  }

  lemma {:induction false} NoneOfSegment(rows: seq<Row>, d: string, seg: string)
    requires Below(rows, d) && forall j :: 0 <= j < |rows| ==> Segment(rows[j].Path(), d) != seg
    ensures Filter(rows, d, seg) == []
  {
    if rows != [] { NoneOfSegment(rows[..|rows| - 1], d, seg); }
  }

  lemma {:induction false} BucketsAre(rows: seq<Row>, d: string)
    requires Below(rows, d)
    ensures BucketsOf(rows, d, Buckets(rows, d))
  {
    if rows != [] {
      var n := |rows| - 1;
      BucketsAre(rows[..n], d);
      var before, seg := Buckets(rows[..n], d), Segment(rows[n].Path(), d);
      AddedTo(before, seg, rows[n]);
      AddedHolds(rows, d, before, Buckets(rows, d));
      AddedCovers(rows, d, before, Buckets(rows, d));
    }
  }

  lemma AddedHolds(rows: seq<Row>, d: string, before: seq<Bucket>, after: seq<Bucket>)
    requires rows != [] && Below(rows, d) && BucketsOf(rows[..|rows| - 1], d, before)
    requires Added(before, Segment(rows[|rows| - 1].Path(), d), rows[|rows| - 1], after)
    ensures forall i :: 0 <= i < |after| ==> after[i].rows == Filter(rows, d, after[i].seg) && after[i].rows != []
  {
    var n := |rows| - 1;
    var seg := Segment(rows[n].Path(), d);
    if |after| > |before| {
      NewSegment(rows[..n], d, before, seg);
      assert Filter(rows, d, seg) == [] + [rows[n]];
    }
    forall i | 0 <= i < |before| ensures after[i].rows == Filter(rows, d, after[i].seg) && after[i].rows != [] {
      assert before[i].rows == Filter(rows[..n], d, before[i].seg);
    }
  }

  lemma NewSegment(rows: seq<Row>, d: string, buckets: seq<Bucket>, seg: string)
    requires Below(rows, d) && BucketsOf(rows, d, buckets) && forall i :: 0 <= i < |buckets| ==> buckets[i].seg != seg
    ensures Filter(rows, d, seg) == []
  {
    forall j | 0 <= j < |rows| ensures Segment(rows[j].Path(), d) != seg {
      var i :| 0 <= i < |buckets| && buckets[i].seg == Segment(rows[j].Path(), d);
    }
    NoneOfSegment(rows, d, seg);
  }

  lemma AddedCovers(rows: seq<Row>, d: string, before: seq<Bucket>, after: seq<Bucket>)
    requires rows != [] && Below(rows, d) && BucketsOf(rows[..|rows| - 1], d, before)
    requires Added(before, Segment(rows[|rows| - 1].Path(), d), rows[|rows| - 1], after)
    ensures forall j :: 0 <= j < |rows| ==> exists i :: 0 <= i < |after| && after[i].seg == Segment(rows[j].Path(), d)
  {
    var n := |rows| - 1;
    forall j | 0 <= j < |rows| ensures exists i :: 0 <= i < |after| && after[i].seg == Segment(rows[j].Path(), d) {
      if j < n {
        assert rows[..n][j] == rows[j];
        var i :| 0 <= i < |before| && before[i].seg == Segment(rows[..n][j].Path(), d);
        assert after[i].seg == before[i].seg;
      } else if |after| > |before| {
        assert after[|before|].seg == Segment(rows[n].Path(), d);
      } else {
        var i :| 0 <= i < |before| && before[i].seg == Segment(rows[n].Path(), d);
        assert after[i].seg == before[i].seg;
      }
    }
  }

  // ---------------------------------------------------------------- a bucket is a smaller run

  lemma {:induction false} PrefixLess(d: string, p: string)
    requires d <= p && d != p
    ensures StrLess(d, p)
  {
    if d != "" {
      PrefixLess(d[1..], p[1..]);
    }
  }

  /** Only a covering first row lies at the common directory itself. */
  lemma AllBelow(rows: seq<Row>)
    requires IsRun(rows) && |rows| > 1 && rows[0].Path() != FoldDir(rows)
    ensures Below(rows, FoldDir(rows))
  {
    var d := FoldDir(rows);
    FoldIsDeepest(rows);
    PrefixLess(d, rows[0].Path());
    forall i | 0 <= i < |rows| ensures rows[i].Path() != d {
      assert i > 0 ==> !RowLess(rows[i], rows[0]);
    }
  }

  lemma {:induction false} FilterMembers(rows: seq<Row>, d: string, seg: string)
    requires Below(rows, d)
    ensures forall r :: r in Filter(rows, d, seg) ==> r in rows && Under(r.Path(), d) && r.Path() != d && Segment(r.Path(), d) == seg
    ensures |Filter(rows, d, seg)| <= |rows|
  {
    if rows != [] { FilterMembers(rows[..|rows| - 1], d, seg); }
  }

  lemma {:induction false} FilterSorted(rows: seq<Row>, d: string, seg: string)
    requires Below(rows, d) && Sorted(rows, RowLess)
    ensures Sorted(Filter(rows, d, seg), RowLess)
  {
    if rows != [] {
      var n := |rows| - 1;
      FilterSorted(rows[..n], d, seg);
      FilterMembers(rows[..n], d, seg);
      var front := Filter(rows[..n], d, seg);
      forall i | 0 <= i < |front| ensures !RowLess(rows[n], front[i]) {
        assert front[i] in rows[..n];
        var j :| 0 <= j < n && rows[j] == front[i];
      }
    }
  }

  lemma {:induction false} FilterSmaller(rows: seq<Row>, d: string, seg: string, i: nat)
    requires Below(rows, d) && i < |rows| && Segment(rows[i].Path(), d) != seg
    ensures |Filter(rows, d, seg)| < |rows|
  {
    var n := |rows| - 1;
    if i < n {
      FilterSmaller(rows[..n], d, seg, i);
    } else {
      FilterMembers(rows[..n], d, seg);
    }
  }

  /** The deepest common directory is not made deeper by any one segment: two rows differ. */
  lemma SegmentsDiffer(rows: seq<Row>, seg: string)
    requires rows != [] && ShareDir(rows) && Below(rows, FoldDir(rows))
    ensures exists i :: 0 <= i < |rows| && Segment(rows[i].Path(), FoldDir(rows)) != seg
  {
    var d := FoldDir(rows);
    var e := d + "/" + seg;
    FoldIsDeepest(rows);
    forall i | 0 <= i < |rows| ensures Segment(rows[i].Path(), d) == seg ==> Under(rows[i].Path(), e) {
      SegmentUnder(rows[i].Path(), d);
    }
    assert !Under(d, e) && Dir(e);
    assert !AllUnder(rows, e);
  }

  /** So every bucket of a run is a run again, and a strictly smaller one. */
  lemma BucketIsSmallerRun(rows: seq<Row>, b: Bucket)
    requires IsRun(rows) && |rows| > 1 && Below(rows, FoldDir(rows)) && b in Buckets(rows, FoldDir(rows))
    ensures IsRun(b.rows) && |b.rows| < |rows|
  {
    var d := FoldDir(rows);
    BucketsAre(rows, d);
    FoldIsDeepest(rows);
    FilterMembers(rows, d, b.seg);
    FilterSorted(rows, d, b.seg);
    SegmentsDiffer(rows, b.seg);
    var i :| 0 <= i < |rows| && Segment(rows[i].Path(), d) != b.seg;
    FilterSmaller(rows, d, b.seg, i);
    var e := d + "/" + b.seg;
    forall k | 0 <= k < |b.rows| ensures Under(b.rows[k].Path(), e) && b.rows[k].item.host == rows[0].item.host {
      assert b.rows[k] in b.rows && b.rows[k] in rows;
      SegmentUnder(b.rows[k].Path(), d);
    }
    assert Dir(e) && AllUnder(b.rows, e);
  }

  // ---------------------------------------------------------------- the arrangement

  const NOISE_BUDGET := 8

  function CountSlashes(s: string): nat
  {
    if s == "" then 0 else CountSlashes(s[..|s| - 1]) + if s[|s| - 1] == '/' then 1 else 0
  }

  /** The label text a merged group would repeat: segments beyond the first, over these rows. */
  function NoiseOf(rows: seq<Row>, d: string): nat
  {
    if rows == [] then 0 else NoiseOf(rows[..|rows| - 1], d) + CountSlashes(RelLabel(d, rows[|rows| - 1].Path()))
  }

  function Noise(buckets: seq<Bucket>, d: string): nat
  {
    if buckets == [] then 0 else Noise(buckets[..|buckets| - 1], d) + NoiseOf(buckets[|buckets| - 1].rows, d)
  }

  predicate Populated(buckets: seq<Bucket>) { exists i :: 0 <= i < |buckets| && |buckets[i].rows| >= 2 }

  /** A bucket that carries its own covering row. */
  predicate Covered(b: Bucket, d: string) { |b.rows| >= 2 && b.rows[0].Path() == d + "/" + b.seg }

  predicate Splits(buckets: seq<Bucket>, d: string) { exists i :: 0 <= i < |buckets| && Covered(buckets[i], d) }

  predicate Merges(buckets: seq<Bucket>, d: string)
  {
    !Splits(buckets, d) && (!Populated(buckets) || Noise(buckets, d) <= NOISE_BUDGET)
  }

  function ChildOf(r: Row, d: string): Child { Child(r.index, RelLabel(d, r.Path()), r.item.rest) }

  /** The children strictly below d, or those at d. */
  function Children(rows: seq<Row>, d: string, covering: bool): seq<Child>
  {
    if rows == [] then []
    else
      var r := rows[|rows| - 1];
      Children(rows[..|rows| - 1], d, covering) + if (r.Path() == d) == covering then [ChildOf(r, d)] else []
  }

  /** One group at base d; rows at d itself root it and come last. */
  function GroupAt(rows: seq<Row>, d: string): Group
    requires rows != []
  {
    Group(rows[0].item.host, d, -1, Children(rows, d, true) != [], Children(rows, d, false) + Children(rows, d, true))
  }

  function Flat(r: Row): Group { Group(r.item.host, r.Path(), r.index, false, []) }

  function Arrange(rows: seq<Row>): seq<Group>
    requires IsRun(rows)
    decreases |rows|, 0, 0
  {
    var d := FoldDir(rows);
    if |rows| == 1 then [Flat(rows[0])]
    else if rows[0].Path() == d then [GroupAt(rows, d)]
    else
      AllBelow(rows);
      var buckets := Buckets(rows, d);
      if Merges(buckets, d) then [GroupAt(rows, d)]
      else
        forall i | 0 <= i < |buckets| ensures IsRun(buckets[i].rows) && |buckets[i].rows| < |rows| { BucketIsSmallerRun(rows, buckets[i]); }
        ArrangeAll(buckets, |rows| - 1)
  }

  function ArrangeAll(buckets: seq<Bucket>, n: nat): seq<Group>
    requires forall i :: 0 <= i < |buckets| ==> IsRun(buckets[i].rows) && |buckets[i].rows| <= n
    decreases n, 1, |buckets|
  {
    if buckets == [] then [] else ArrangeAll(buckets[..|buckets| - 1], n) + Arrange(buckets[|buckets| - 1].rows)
  }

  // ---------------------------------------------------------------- every row exactly once

  function ChildIndexes(children: seq<Child>): seq<int>
  {
    seq(|children|, i requires 0 <= i < |children| => children[i].index)
  }

  /** The rows one group shows. */
  function Shown(g: Group): seq<int> { if g.children == [] then [g.index] else ChildIndexes(g.children) }

  function ShownBy(groups: seq<Group>): seq<int>
  {
    if groups == [] then [] else ShownBy(groups[..|groups| - 1]) + Shown(groups[|groups| - 1])
  }

  function RowIndexes(rows: seq<Row>): seq<int>
  {
    if rows == [] then [] else RowIndexes(rows[..|rows| - 1]) + [rows[|rows| - 1].index]
  }

  function BucketIndexes(buckets: seq<Bucket>): seq<int>
  {
    if buckets == [] then [] else BucketIndexes(buckets[..|buckets| - 1]) + RowIndexes(buckets[|buckets| - 1].rows)
  }

  lemma Reassociate<T>(a: seq<T>, b: seq<T>, c: seq<T>)
    ensures (a + b) + c == a + (b + c)
  {
  }

  ghost predicate Shows(groups: seq<Group>, rows: seq<int>) { ShownBy(groups) == rows }

  lemma ShowsLast(a: seq<Group>, g: Group, rows: seq<int>)
    requires Shows(a, rows)
    ensures Shows(a + [g], rows + Shown(g))
  {
    assert (a + [g])[..|a|] == a;
  }

  lemma {:induction false} ShowsAppend(a: seq<Group>, b: seq<Group>, rows: seq<int>)
    requires Shows(a, rows)
    ensures Shows(a + b, rows + ShownBy(b))
  {
    if b == [] {
      assert a + b == a && rows + ShownBy(b) == rows;
    } else {
      var front, g := b[..|b| - 1], b[|b| - 1];
      ShowsAppend(a, front, rows);
      ShowsLast(a + front, g, rows + ShownBy(front));
      Reassociate(a, front, [g]);
      Reassociate(rows, ShownBy(front), Shown(g));
      assert b == front + [g];
    }
  }

  lemma ShownByAppend(a: seq<Group>, b: seq<Group>)
    ensures ShownBy(a + b) == ShownBy(a) + ShownBy(b)
  {
    ShowsAppend(a, b, ShownBy(a));
  }

  lemma {:induction false} BucketIndexesFront(b: Bucket, rest: seq<Bucket>)
    ensures BucketIndexes([b] + rest) == RowIndexes(b.rows) + BucketIndexes(rest)
  {
    if rest == [] {
      assert [b] + rest == [b] && [b][..0] == [];
    } else {
      var n := |rest| - 1;
      BucketIndexesFront(b, rest[..n]);
      assert ([b] + rest)[..n + 1] == [b] + rest[..n];
    }
  }

  lemma OneRowBucket(seg: string, r: Row)
    ensures BucketIndexes([Bucket(seg, [r])]) == [r.index]
  {
    var none: seq<Bucket> := [];
    BucketIndexesFront(Bucket(seg, [r]), none);
    assert [Bucket(seg, [r])] + none == [Bucket(seg, [r])];
    RowAppended([], r);
    assert [] + [r] == [r];
  }

  lemma RowAppended(rows: seq<Row>, r: Row)
    ensures RowIndexes(rows + [r]) == RowIndexes(rows) + [r.index]
  {
    assert (rows + [r])[..|rows|] == rows;
  }

  lemma {:induction false} AddedIndexes(buckets: seq<Bucket>, seg: string, r: Row)
    ensures multiset(BucketIndexes(AddToBuckets(buckets, seg, r))) == multiset(BucketIndexes(buckets)) + multiset{r.index}
  {
    if buckets == [] {
      OneRowBucket(seg, r);
    } else {
      var b, rest := buckets[0], buckets[1..];
      assert buckets == [b] + rest;
      BucketIndexesFront(b, rest);
      if b.seg == seg {
        BucketIndexesFront(Bucket(seg, b.rows + [r]), rest);
        RowAppended(b.rows, r);
      } else {
        AddedIndexes(rest, seg, r);
        BucketIndexesFront(b, AddToBuckets(rest, seg, r));
      }
    }
  }

  lemma {:induction false} BucketsPartition(rows: seq<Row>, d: string)
    requires Below(rows, d)
    ensures multiset(BucketIndexes(Buckets(rows, d))) == multiset(RowIndexes(rows))
  {
    if rows != [] {
      var n := |rows| - 1;
      BucketsPartition(rows[..n], d);
      AddedIndexes(Buckets(rows[..n], d), Segment(rows[n].Path(), d), rows[n]);
    }
  }

  lemma ChildAppended(children: seq<Child>, c: Child)
    ensures ChildIndexes(children + [c]) == ChildIndexes(children) + [c.index]
  {
  }

  lemma {:induction false} ChildrenPartition(rows: seq<Row>, d: string)
    ensures multiset(ChildIndexes(Children(rows, d, false))) + multiset(ChildIndexes(Children(rows, d, true))) == multiset(RowIndexes(rows))
    ensures |Children(rows, d, false)| + |Children(rows, d, true)| == |rows|
  {
    if rows != [] {
      var front, r := rows[..|rows| - 1], rows[|rows| - 1];
      ChildrenPartition(front, d);
      ChildAppended(Children(front, d, r.Path() == d), ChildOf(r, d));
      assert Children(rows, d, r.Path() == d) == Children(front, d, r.Path() == d) + [ChildOf(r, d)];
      assert Children(rows, d, r.Path() != d) == Children(front, d, r.Path() != d);
    }
  }

  lemma ChildIndexesAppend(a: seq<Child>, b: seq<Child>)
    ensures ChildIndexes(a + b) == ChildIndexes(a) + ChildIndexes(b)
  {
  }

  lemma GroupShowsAll(rows: seq<Row>, d: string)
    requires rows != []
    ensures multiset(Shown(GroupAt(rows, d))) == multiset(RowIndexes(rows))
  {
    ChildrenPartition(rows, d);
    ChildIndexesAppend(Children(rows, d, false), Children(rows, d, true));
  }

  lemma OneGroup(g: Group)
    ensures ShownBy([g]) == Shown(g)
  {
    assert [g][..0] == [];
  }

  /** The arrangement of a run shows every row of it exactly once. */
  lemma {:induction false} ArrangePartitions(rows: seq<Row>)
    requires IsRun(rows)
    ensures multiset(ShownBy(Arrange(rows))) == multiset(RowIndexes(rows))
    decreases |rows|, 0, 0
  {
    var d := FoldDir(rows);
    if |rows| == 1 {
      OneGroup(Flat(rows[0]));
      assert rows[..0] == [];
    } else if rows[0].Path() == d {
      OneGroup(GroupAt(rows, d));
      GroupShowsAll(rows, d);
    } else {
      AllBelow(rows);
      var buckets := Buckets(rows, d);
      if Merges(buckets, d) {
        OneGroup(GroupAt(rows, d));
        GroupShowsAll(rows, d);
      } else {
        forall i | 0 <= i < |buckets| ensures IsRun(buckets[i].rows) && |buckets[i].rows| < |rows| { BucketIsSmallerRun(rows, buckets[i]); }
        ArrangeAllPartitions(buckets, |rows| - 1);
        BucketsPartition(rows, d);
      }
    }
  }

  lemma {:induction false} ArrangeAllPartitions(buckets: seq<Bucket>, n: nat)
    requires forall i :: 0 <= i < |buckets| ==> IsRun(buckets[i].rows) && |buckets[i].rows| <= n
    ensures multiset(ShownBy(ArrangeAll(buckets, n))) == multiset(BucketIndexes(buckets))
    decreases n, 1, |buckets|
  {
    if buckets != [] {
      var k := |buckets| - 1;
      ArrangeAllPartitions(buckets[..k], n);
      ArrangePartitions(buckets[k].rows);
      ShownByAppend(ArrangeAll(buckets[..k], n), Arrange(buckets[k].rows));
    }
  }

  // ---------------------------------------------------------------- what a group says is true

  lemma {:induction false} TrimIsTrimmed(p: string)
    ensures TrimSlashes(TrimSlashes(p)) == TrimSlashes(p)
  {
    if p != "" && p[|p| - 1] == '/' { TrimIsTrimmed(p[..|p| - 1]); }
  }

  lemma PathIsClean(r: Row)
    ensures CleanPath(r.Path()) == r.Path() && r.Path() != ""
  {
    TrimIsTrimmed(r.item.path);
    assert "/"[..0] == "";
  }

  /** The child is this row: its label put back under the base is the row's path, and is empty
      exactly when the row lies at the base. */
  ghost predicate ChildShows(c: Child, base: string, r: Row)
  {
    c.index == r.index && c.rest == r.item.rest && Join(base, c.rel) == r.Path() && (c.rel == "" <==> r.Path() == base)
  }

  ghost predicate ChildFrom(c: Child, host: string, base: string, rows: seq<Row>)
  {
    exists r :: r in rows && r.item.host == host && ChildShows(c, base, r)
  }

  ghost predicate ChildrenFrom(children: seq<Child>, host: string, base: string, rows: seq<Row>)
  {
    forall i :: 0 <= i < |children| ==> ChildFrom(children[i], host, base, rows)
  }

  /** Children at the base come after all others. */
  ghost predicate CoveringLast(children: seq<Child>)
  {
    forall i, j :: 0 <= i < j < |children| && children[i].rel == "" ==> children[j].rel == ""
  }

  ghost predicate GroupTrue(g: Group, rows: seq<Row>)
  {
    if g.children == [] then exists r :: r in rows && g == Flat(r)
    else
      && |g.children| >= 2 && Dir(g.base) && g.index == -1
      && ChildrenFrom(g.children, g.host, g.base, rows) && CoveringLast(g.children)
      && (g.rooted <==> exists i :: 0 <= i < |g.children| && g.children[i].rel == "")
  }

  lemma FromMore(c: Child, host: string, base: string, rows: seq<Row>, more: seq<Row>)
    requires ChildFrom(c, host, base, rows) && forall r :: r in rows ==> r in more
    ensures ChildFrom(c, host, base, more)
  {
    var r :| r in rows && r.item.host == host && ChildShows(c, base, r);
    assert r in more;
  }

  lemma {:induction false} ChildrenShow(rows: seq<Row>, d: string, host: string, covering: bool)
    requires AllUnder(rows, d) && d != "" && forall i :: 0 <= i < |rows| ==> rows[i].item.host == host
    ensures ChildrenFrom(Children(rows, d, covering), host, d, rows)
    ensures forall i :: 0 <= i < |Children(rows, d, covering)| ==> (Children(rows, d, covering)[i].rel == "" <==> covering)
  {
    if rows != [] {
      var n := |rows| - 1;
      var r := rows[n];
      ChildrenShow(rows[..n], d, host, covering);
      PathIsClean(r);
      LabelJoins(d, r.Path());
      assert r in rows && ChildShows(ChildOf(r, d), d, r);
      var front := Children(rows[..n], d, covering);
      forall i | 0 <= i < |front| ensures ChildFrom(front[i], host, d, rows) { FromMore(front[i], host, d, rows[..n], rows); }
    }
  }

  lemma GroupIsTrue(rows: seq<Row>)
    requires IsRun(rows) && |rows| >= 2
    ensures GroupTrue(GroupAt(rows, FoldDir(rows)), rows)
  {
    var d := FoldDir(rows);
    FoldIsDeepest(rows);
    ChildrenShow(rows, d, rows[0].item.host, false);
    ChildrenShow(rows, d, rows[0].item.host, true);
    ChildrenPartition(rows, d);
    TwoHalves(Children(rows, d, false), Children(rows, d, true), rows[0].item.host, d, rows);
  }

  lemma TwoHalves(a: seq<Child>, b: seq<Child>, host: string, d: string, rows: seq<Row>)
    requires ChildrenFrom(a, host, d, rows) && ChildrenFrom(b, host, d, rows)
    requires (forall i :: 0 <= i < |a| ==> a[i].rel != "") && (forall i :: 0 <= i < |b| ==> b[i].rel == "")
    ensures ChildrenFrom(a + b, host, d, rows) && CoveringLast(a + b)
    ensures b != [] <==> exists i :: 0 <= i < |a + b| && (a + b)[i].rel == ""
  {
    if b != [] { assert (a + b)[|a|] == b[0]; }
  }

  lemma TrueAmongMore(g: Group, rows: seq<Row>, more: seq<Row>)
    requires GroupTrue(g, rows) && forall r :: r in rows ==> r in more
    ensures GroupTrue(g, more)
  {
    if g.children != [] {
      forall i | 0 <= i < |g.children| ensures ChildFrom(g.children[i], g.host, g.base, more) {
        FromMore(g.children[i], g.host, g.base, rows, more);
      }
    }
  }

  /** All the groups are true of the rows. */
  ghost predicate AllTrue(groups: seq<Group>, rows: seq<Row>) { forall g :: g in groups ==> GroupTrue(g, rows) }

  /** Every group of an arrangement is true of the rows. */
  lemma {:induction false} ArrangeIsTrue(rows: seq<Row>)
    requires IsRun(rows)
    ensures AllTrue(Arrange(rows), rows)
    decreases |rows|, 0, 0
  {
    if |rows| == 1 {
      assert rows[0] in rows;
    } else {
      GroupIsTrue(rows);
      if rows[0].Path() != FoldDir(rows) {
        AllBelow(rows);
        if !Merges(Buckets(rows, FoldDir(rows)), FoldDir(rows)) {
          SplitIsTrue(rows);
        }
      }
    }
  }

  lemma {:induction false} SplitIsTrue(rows: seq<Row>)
    requires IsRun(rows) && |rows| > 1 && Below(rows, FoldDir(rows))
    ensures var buckets := Buckets(rows, FoldDir(rows));
      (forall i :: 0 <= i < |buckets| ==> IsRun(buckets[i].rows) && |buckets[i].rows| < |rows|) && AllTrue(ArrangeAll(buckets, |rows| - 1), rows)
    decreases |rows| - 1, 2, 0
  {
    var d := FoldDir(rows);
    var buckets := Buckets(rows, d);
    BucketsAre(rows, d);
    forall i | 0 <= i < |buckets| ensures IsRun(buckets[i].rows) && |buckets[i].rows| < |rows| && forall r :: r in buckets[i].rows ==> r in rows {
      BucketIsSmallerRun(rows, buckets[i]);
      FilterMembers(rows, d, buckets[i].seg);
    }
    ArrangeAllTrue(buckets, |rows| - 1, rows);
  }

  lemma {:induction false} ArrangeAllTrue(buckets: seq<Bucket>, n: nat, rows: seq<Row>)
    requires forall i :: 0 <= i < |buckets| ==> IsRun(buckets[i].rows) && |buckets[i].rows| <= n && forall r :: r in buckets[i].rows ==> r in rows
    ensures AllTrue(ArrangeAll(buckets, n), rows)
    decreases n, 1, |buckets|
  {
    if buckets != [] {
      var k := |buckets| - 1;
      ArrangeAllTrue(buckets[..k], n, rows);
      ArrangeIsTrue(buckets[k].rows);
      forall g | g in Arrange(buckets[k].rows) ensures GroupTrue(g, rows) { TrueAmongMore(g, buckets[k].rows, rows); }
    }
  }

  // ---------------------------------------------------------------- the whole list

  predicate Joins(p: Row, r: Row) { r.item.host == p.item.host && CommonDir(p.Path(), r.Path()) != "/" }

  /** How many rows the run starting the list takes. */
  function RunLen(rows: seq<Row>): (n: nat)
    requires rows != []
    ensures 1 <= n <= |rows|
    ensures forall k :: 1 <= k < n ==> Joins(rows[0], rows[k])
    ensures n < |rows| ==> !Joins(rows[0], rows[n])
  {
    RunFrom(rows, 1)
  }

  function RunFrom(rows: seq<Row>, i: nat): (n: nat)
    requires 1 <= i <= |rows|
    ensures i <= n <= |rows|
    ensures forall k :: i <= k < n ==> Joins(rows[0], rows[k])
    ensures n < |rows| ==> !Joins(rows[0], rows[n])
    decreases |rows| - i
  {
    if i < |rows| && Joins(rows[0], rows[i]) then RunFrom(rows, i + 1) else i
  }

  function Hostless(r: Row): Group { Group("", r.item.path, r.index, false, []) }

  /** The rows, sorted, cut into runs and arranged. */
  function BuildFrom(rows: seq<Row>): seq<Group>
    requires Sorted(rows, RowLess)
    decreases |rows|
  {
    if rows == [] then []
    else if rows[0].item.host == "" then [Hostless(rows[0])] + BuildFrom(rows[1..])
    else
      RunIsRun(rows);
      Arrange(rows[..RunLen(rows)]) + BuildFrom(rows[RunLen(rows)..])
  }

  lemma CommonDirNonEmpty(p: string, q: string)
    requires p != "" && q != ""
    ensures CommonDir(p, q) != ""
  {
  }

  lemma Nested(p: string, c: string, e: string)
    requires Under(p, c) && Under(p, e) && |c| <= |e|
    ensures Under(e, c)
  {
    assert e == p[..|e|] && c == p[..|c|] == p[..|e|][..|c|];
    assert |c| < |e| ==> e[|c|] == p[|c|];
  }

  /** Rows that each share a directory with the first all share one directory. */
  lemma {:induction false} JoinedShare(rows: seq<Row>, n: nat)
    requires 2 <= n <= |rows| && forall k :: 1 <= k < n ==> Joins(rows[0], rows[k])
    ensures exists e :: Dir(e) && AllUnder(rows[..n], e)
  {
    var p, q := rows[0].Path(), rows[n - 1].Path();
    var c := CommonDir(p, q);
    PathIsClean(rows[0]);
    PathIsClean(rows[n - 1]);
    CommonDirContains(p, q);
    CommonDirNonEmpty(p, q);
    if n == 2 {
      assert AllUnder(rows[..n], c);
    } else {
      JoinedShare(rows, n - 1);
      var e :| Dir(e) && AllUnder(rows[..n - 1], e);
      assert rows[..n - 1][0] == rows[0];
      ShareOneMore(rows, n, c, e);
    }
  }

  lemma ShareOneMore(rows: seq<Row>, n: nat, c: string, e: string)
    requires 2 < n <= |rows| && Dir(c) && Dir(e) && AllUnder(rows[..n - 1], e)
    requires Under(rows[0].Path(), c) && Under(rows[0].Path(), e) && Under(rows[n - 1].Path(), c)
    ensures exists e :: Dir(e) && AllUnder(rows[..n], e)
  {
    var least := if |c| <= |e| then c else e;
    if |c| <= |e| { Nested(rows[0].Path(), c, e); } else { Nested(rows[0].Path(), e, c); }
    forall i | 0 <= i < n ensures Under(rows[..n][i].Path(), least) {
      if i < n - 1 {
        assert rows[..n - 1][i] == rows[i];
        UnderTransitive(rows[i].Path(), e, least);
      } else {
        UnderTransitive(rows[i].Path(), c, least);
      }
    }
    assert AllUnder(rows[..n], least);
  }

  lemma RunIsRun(rows: seq<Row>)
    requires rows != [] && Sorted(rows, RowLess)
    ensures IsRun(rows[..RunLen(rows)])
    ensures Sorted(rows[RunLen(rows)..], RowLess)
  {
    if RunLen(rows) > 1 { JoinedShare(rows, RunLen(rows)); }
  }

  lemma {:induction false} RowIndexesAppend(a: seq<Row>, b: seq<Row>)
    ensures RowIndexes(a + b) == RowIndexes(a) + RowIndexes(b)
  {
    if b == [] {
      assert a + b == a;
    } else {
      var n := |b| - 1;
      RowIndexesAppend(a, b[..n]);
      assert (a + b)[..|a + b| - 1] == a + b[..n];
    }
  }

  /** Two lists of groups that show their rows, put together, show them all. */
  lemma ShownTogether(a: seq<Group>, b: seq<Group>, rows: seq<Row>, n: nat)
    requires n <= |rows| && multiset(ShownBy(a)) == multiset(RowIndexes(rows[..n])) && multiset(ShownBy(b)) == multiset(RowIndexes(rows[n..]))
    ensures multiset(ShownBy(a + b)) == multiset(RowIndexes(rows))
  {
    ShownByAppend(a, b);
    RowIndexesAppend(rows[..n], rows[n..]);
    assert rows[..n] + rows[n..] == rows;
  }

  lemma HostlessShown(rows: seq<Row>)
    requires rows != []
    ensures multiset(ShownBy([Hostless(rows[0])])) == multiset(RowIndexes(rows[..1]))
  {
    OneGroup(Hostless(rows[0]));
    RowAppended([], rows[0]);
    assert [] + [rows[0]] == rows[..1];
  }

  /** Every row is shown exactly once, wherever the list is cut. */
  lemma {:induction false} BuildPartitions(rows: seq<Row>)
    requires Sorted(rows, RowLess)
    ensures multiset(ShownBy(BuildFrom(rows))) == multiset(RowIndexes(rows))
    decreases |rows|
  {
    if rows == [] {
    } else if rows[0].item.host == "" {
      BuildPartitions(rows[1..]);
      HostlessShown(rows);
      ShownTogether([Hostless(rows[0])], BuildFrom(rows[1..]), rows, 1);
    } else {
      var n := RunLen(rows);
      RunIsRun(rows);
      ArrangePartitions(rows[..n]);
      BuildPartitions(rows[n..]);
      ShownTogether(Arrange(rows[..n]), BuildFrom(rows[n..]), rows, n);
    }
  }

  /** A hostless row is shown flat under its own path; every other group is true of the rows. */
  ghost predicate ShownTruly(g: Group, rows: seq<Row>)
  {
    GroupTrue(g, rows) || exists r :: r in rows && r.item.host == "" && g == Hostless(r)
  }

  lemma {:induction false} BuildIsTrue(rows: seq<Row>)
    requires Sorted(rows, RowLess)
    ensures forall g :: g in BuildFrom(rows) ==> ShownTruly(g, rows)
    decreases |rows|
  {
    if rows == [] {
    } else if rows[0].item.host == "" {
      BuildIsTrue(rows[1..]);
      assert rows[0] in rows;
      forall g | g in BuildFrom(rows[1..]) ensures ShownTruly(g, rows) { TrulyAmongMore(g, rows[1..], rows); }
    } else {
      var n := RunLen(rows);
      RunIsRun(rows);
      ArrangeIsTrue(rows[..n]);
      BuildIsTrue(rows[n..]);
      forall g | g in Arrange(rows[..n]) ensures ShownTruly(g, rows) { TrulyAmongMore(g, rows[..n], rows); }
      forall g | g in BuildFrom(rows[n..]) ensures ShownTruly(g, rows) { TrulyAmongMore(g, rows[n..], rows); }
    }
  }

  lemma TrulyAmongMore(g: Group, rows: seq<Row>, more: seq<Row>)
    requires ShownTruly(g, rows) && forall r :: r in rows ==> r in more
    ensures ShownTruly(g, more)
  {
    if GroupTrue(g, rows) { TrueAmongMore(g, rows, more); }
  }
}
