/** Which rows a run takes: those that share a directory with its first row, up to the first that
    does not; and when that leaves a related row out. */
module DleRuns {
  import opened Order
  import opened DleTree

  /** Some directory below the root has both rows. */
  ghost predicate Related(a: Row, b: Row)
  {
    a.item.host == b.item.host && exists e :: Dir(e) && Under(a.Path(), e) && Under(b.Path(), e)
  }

  lemma JoinsIff(a: Row, b: Row)
    ensures Joins(a, b) <==> Related(a, b)
  {
    var p, q := a.Path(), b.Path();
    var d := CommonDir(p, q);
    PathIsClean(a);
    PathIsClean(b);
    CommonDirContains(p, q);
    CommonDirNonEmpty(p, q);
    if Related(a, b) {
      var e :| Dir(e) && Under(p, e) && Under(q, e);
      CommonDirMeets(p, q, e);
    }
  }

  /** A run is its first row and the rows after it as far as they are related to it. */
  lemma RunTakesRelated(rows: seq<Row>)
    requires rows != []
    ensures forall k :: 1 <= k < RunLen(rows) ==> Related(rows[0], rows[k])
    ensures RunLen(rows) < |rows| ==> !Related(rows[0], rows[RunLen(rows)])
  {
    forall k | 0 <= k < |rows| ensures Joins(rows[0], rows[k]) <==> Related(rows[0], rows[k]) { JoinsIff(rows[0], rows[k]); }
  }

  // ---------------------------------------------------------------- byte order

  /** Past a common prefix the next byte decides. */
  lemma {:induction false} NextByteDecides(e: string, a: string, b: string)
    requires e <= a && e <= b && |a| > |e| && |b| > |e| && a[|e|] != b[|e|]
    ensures StrLess(a, b) <==> a[|e|] < b[|e|]
  {
    if e != "" { NextByteDecides(e[1..], a[1..], b[1..]); }
  }

  /** What sorts between two strings has their common prefix. */
  lemma {:induction false} BetweenHasPrefix(e: string, a: string, b: string, c: string)
    requires e <= a && e <= c && !StrLess(b, a) && !StrLess(c, b)
    ensures e <= b
  {
    if e != "" {
      assert b != "";
      assert a[0] == c[0] == e[0] && b[0] == e[0];
      BetweenHasPrefix(e[1..], a[1..], b[1..], c[1..]);
      assert e == [e[0]] + e[1..];
    }
  }

  lemma HostBetween(rows: seq<Row>, i: nat, j: nat, k: nat)
    requires Sorted(rows, RowLess) && i < j < k < |rows| && rows[i].item.host == rows[k].item.host
    ensures rows[j].item.host == rows[i].item.host
    ensures !StrLess(rows[j].Path(), rows[i].Path()) && !StrLess(rows[k].Path(), rows[j].Path())
  {
    var a, b, c := rows[i], rows[j], rows[k];
    assert !RowLess(b, a) && !RowLess(c, b);
    StrLessTotal(a.item.host, b.item.host);
    if StrLess(a.item.host, b.item.host) && StrLess(b.item.host, a.item.host) {
      StrLessTransitive(a.item.host, b.item.host, a.item.host);
      StrLessIrreflexive(a.item.host);
    }
  }

  // ---------------------------------------------------------------- when a related row is left out

  /** The directory has no other above it but the root. */
  ghost predicate TopLevel(t: string)
  {
    Dir(t) && forall e :: Dir(e) && Under(t, e) ==> e == t
  }

  /** p is t with more to its name, the next byte sorting before the slash. */
  predicate SortsInside(t: string, p: string) { t <= p && |p| > |t| && p[|t|] < '/' }

  /** The run's first row is a top-level directory, and before some row of that directory there
      sorts a row beside it whose name goes on with a byte below the slash, as a dash is. */
  ghost predicate Interrupted(rows: seq<Row>, i: nat, k: nat)
    requires i < |rows| && k < |rows| && rows != []
  {
    var t := rows[0].Path();
    && 0 < i < k && TopLevel(t) && rows[i].item.host == rows[0].item.host == rows[k].item.host
    && SortsInside(t, rows[i].Path()) && Under(rows[k].Path(), t)
  }

  lemma InterruptedLeavesOut(rows: seq<Row>, i: nat, k: nat)
    requires rows != [] && i < |rows| && k < |rows| && Interrupted(rows, i, k)
    ensures Related(rows[0], rows[k]) && k >= RunLen(rows)
  {
    var t := rows[0].Path();
    assert Under(t, t);
    forall e | Dir(e) && Under(t, e) ensures !Under(rows[i].Path(), e) { assert e == t; }
    RunTakesRelated(rows);
  }

  /** Between two paths below e sorts a path that is not: then the first is e itself. */
  lemma OnlyTheDirectoryItself(e: string, a: string, b: string, c: string)
    requires Under(a, e) && Under(c, e) && !Under(b, e) && !StrLess(b, a) && !StrLess(c, b)
    ensures a == e && SortsInside(e, b) && c != e
  {
    BetweenHasPrefix(e, a, b, c);
    assert |b| > |e| && b[|e|] != '/';
    PrefixLess(e, b);
    assert |a| == |e| ==> a == e;
    assert |c| == |e| ==> c == e;
    if |a| > |e| { NextByteDecides(e, b, a); }
    if |c| > |e| { NextByteDecides(e, c, b); }
  }

  lemma LeftOutIsInterrupted(rows: seq<Row>, k: nat)
    requires rows != [] && Sorted(rows, RowLess) && k < |rows| && Related(rows[0], rows[k]) && k >= RunLen(rows)
    ensures RunLen(rows) < |rows| && Interrupted(rows, RunLen(rows), k)
  {
    var n := RunLen(rows);
    RunTakesRelated(rows);
    assert n != k;
    HostBetween(rows, 0, n, k);
    var a, b, c := rows[0].Path(), rows[n].Path(), rows[k].Path();
    var e :| Dir(e) && Under(a, e) && Under(c, e);
    OnlyTheDirectoryItself(e, a, b, c);
    forall u | Dir(u) && Under(a, u) ensures u == a {
      assert !Under(b, u);
      UnderTransitive(c, a, u);
      OnlyTheDirectoryItself(u, a, b, c);
    }
  }

  /** A run takes every later row that is related to its first exactly when none of them is
      interrupted. */
  lemma RunTakesAllIff(rows: seq<Row>)
    requires rows != [] && Sorted(rows, RowLess)
    ensures (forall k :: 0 <= k < |rows| && Related(rows[0], rows[k]) ==> k < RunLen(rows)) <==>
            !exists i, k :: 0 <= i < |rows| && 0 <= k < |rows| && Interrupted(rows, i, k)
  {
    if i, k :| 0 <= i < |rows| && 0 <= k < |rows| && Interrupted(rows, i, k) { InterruptedLeavesOut(rows, i, k); }
    if k :| 0 <= k < |rows| && Related(rows[0], rows[k]) && k >= RunLen(rows) {
      LeftOutIsInterrupted(rows, k);
    }
  }

  /** A partition of /data beside an unrelated /data-beside: its remainder is shown apart from what
      was carved out of it. */
  lemma DashedSiblingInterrupts(rest: Item, beside: Item, carved: Item)
    requires rest.host == beside.host == carved.host != ""
    requires rest.path == "/data" && beside.path == "/data-old" && carved.path == "/data/x"
    ensures var rows := [Row(0, rest), Row(1, beside), Row(2, carved)];
      Sorted(rows, RowLess) && Related(rows[0], rows[2]) && RunLen(rows) == 1
  {
    var rows := [Row(0, rest), Row(1, beside), Row(2, carved)];
    PrefixLess("/data", "/data-old");
    PrefixLess("/data", "/data/x");
    NextByteDecides("/data", "/data-old", "/data/x");
    PlainPaths(rest, beside, carved);
    NoTurningBack("/data", "/data-old");
    NoTurningBack("/data", "/data/x");
    NoTurningBack("/data-old", "/data/x");
    StrLessIrreflexive(rest.host);
    assert Under("/data/x", "/data") && Under("/data", "/data");
    assert SortsInside("/data", "/data-old");
    forall e | Dir(e) && Under("/data", e) ensures e == "/data" { OneSlash(e); }
    assert TopLevel("/data") && Interrupted(rows, 1, 2);
    InterruptedLeavesOut(rows, 1, 2);
    FirstIsInterrupted(rows);
  }

  lemma PlainPaths(rest: Item, beside: Item, carved: Item)
    requires rest.path == "/data" && beside.path == "/data-old" && carved.path == "/data/x"
    ensures Row(0, rest).Path() == "/data" && Row(1, beside).Path() == "/data-old" && Row(2, carved).Path() == "/data/x"
  {
  }

  lemma NoTurningBack(a: string, b: string)
    requires StrLess(a, b)
    ensures !StrLess(b, a)
  {
    if StrLess(b, a) { StrLessTransitive(a, b, a); }
    StrLessIrreflexive(a);
  }

  lemma OneSlash(e: string)
    requires Dir(e) && Under("/data", e)
    ensures e == "/data"
  {
    var data := "/data";
    assert forall k :: 1 <= k < 5 ==> data[k] != '/';
  }

  lemma FirstIsInterrupted(rows: seq<Row>)
    requires |rows| == 3 && rows[0].Path() == "/data" && rows[1].Path() == "/data-old"
    ensures RunLen(rows) == 1
  {
    forall e | Dir(e) && Under("/data", e) ensures !Under("/data-old", e) { OneSlash(e); }
    RunTakesRelated(rows);
  }

  // ---------------------------------------------------------------- the order of the groups

  /** Hosts ascend, the hostless come last. */
  predicate HostsInOrder(earlier: string, later: string)
  {
    if earlier == "" then later == "" else later == "" || earlier == later || StrLess(earlier, later)
  }

  ghost predicate GroupsInOrder(groups: seq<Group>)
  {
    forall i, j :: 0 <= i < j < |groups| ==> HostsInOrder(groups[i].host, groups[j].host)
  }

  lemma HostOfTrueGroup(g: Group, rows: seq<Row>)
    requires ShownTruly(g, rows)
    ensures exists r :: r in rows && r.item.host == g.host
  {
    if GroupTrue(g, rows) {
      if g.children != [] { assert ChildFrom(g.children[0], g.host, g.base, rows); }
    } else {
      var r :| r in rows && r.item.host == "" && g == Hostless(r);
    }
  }

  lemma HostsAscend(rows: seq<Row>, i: nat, j: nat)
    requires Sorted(rows, RowLess) && i <= j < |rows|
    ensures HostsInOrder(rows[i].item.host, rows[j].item.host)
  {
    StrLessTotal(rows[i].item.host, rows[j].item.host);
    if i < j { assert !RowLess(rows[j], rows[i]); }
  }

  lemma FrontBeforeRest(front: seq<Group>, rest: seq<Group>, rows: seq<Row>, n: nat)
    requires Sorted(rows, RowLess) && n <= |rows|
    requires forall g :: g in front ==> ShownTruly(g, rows[..n])
    requires forall g :: g in rest ==> ShownTruly(g, rows[n..])
    ensures forall a, b :: a in front && b in rest ==> HostsInOrder(a.host, b.host)
  {
    forall a, b | a in front && b in rest ensures HostsInOrder(a.host, b.host) {
      HostOfTrueGroup(a, rows[..n]);
      HostOfTrueGroup(b, rows[n..]);
      var r :| r in rows[..n] && r.item.host == a.host;
      var q :| q in rows[n..] && q.item.host == b.host;
      var i :| 0 <= i < n && rows[i] == r;
      var j :| n <= j < |rows| && rows[j] == q;
      HostsAscend(rows, i, j);
    }
  }

  lemma OneHostInOrder(groups: seq<Group>, rows: seq<Row>)
    requires OneHost(rows) && rows != [] && forall g :: g in groups ==> ShownTruly(g, rows)
    ensures GroupsInOrder(groups)
  {
    forall g | g in groups ensures g.host == rows[0].item.host {
      HostOfTrueGroup(g, rows);
      var r :| r in rows && r.item.host == g.host;
      var i :| 0 <= i < |rows| && rows[i] == r;
    }
    forall i | 0 <= i < |groups| ensures groups[i].host == rows[0].item.host { assert groups[i] in groups; }
  }

  lemma InOrderTogether(a: seq<Group>, b: seq<Group>)
    requires GroupsInOrder(a) && GroupsInOrder(b) && forall g, h :: g in a && h in b ==> HostsInOrder(g.host, h.host)
    ensures GroupsInOrder(a + b)
  {
    var all := a + b;
    forall i, j | 0 <= i < j < |all| ensures HostsInOrder(all[i].host, all[j].host) {
      if i < |a| <= j { assert all[i] in a && all[j] in b; }
    }
  }

  /** The groups come by host, hostless ones last. */
  lemma {:induction false} BuildInHostOrder(rows: seq<Row>)
    requires Sorted(rows, RowLess)
    ensures GroupsInOrder(BuildFrom(rows))
    decreases |rows|
  {
    if rows != [] {
      var hostless := rows[0].item.host == "";
      if !hostless { RunIsRun(rows); }
      var n := if hostless then 1 else RunLen(rows);
      var front := if hostless then [Hostless(rows[0])] else Arrange(rows[..n]);
      forall g | g in front ensures ShownTruly(g, rows[..n]) {
        assert rows[0] in rows[..n];
        if !hostless { ArrangeIsTrue(rows[..n]); }
      }
      BuildIsTrue(rows[n..]);
      BuildInHostOrder(rows[n..]);
      OneHostInOrder(front, rows[..n]);
      FrontBeforeRest(front, BuildFrom(rows[n..]), rows, n);
      InOrderTogether(front, BuildFrom(rows[n..]));
    }
  }
}
