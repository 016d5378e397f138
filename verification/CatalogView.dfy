/** The catalog read as maps, which is the catalog up to list order, and what adding,
    absorbing and dropping do to that reading. */
module CatalogView {
  import opened Records
  import opened Entries
  import opened Scan
  import opened CatalogState
  import opened CatalogShape
  import opened FillLedger
  import opened Order

  /** The record of (dle, level) on a run's copy on a medium. */
  function PlacedIn(c: Cat, run: string, medium: string, dle: string, level: int): Option<PlacedArchive>
  {
    var copy := CopyOn(EntryOf(c, run).placements, medium);
    var i := PlacedAt(copy, dle, level);
    if i < |copy| then Some(copy[i]) else None
  }

  /** The content record of (dle, level) in a run. */
  function ContentIn(c: Cat, run: string, dle: string, level: int): Option<Archive>
  {
    var archives := EntryOf(c, run).run.archives;
    var i := ArchiveAt(archives, dle, level);
    if i < |archives| then Some(archives[i]) else None
  }

  /** Two catalogs holding the same runs, content, copies and registry, in whatever order. */
  ghost predicate SameUpToOrder(a: Cat, b: Cat)
  {
    && (forall run, medium, dle, level :: PlacedIn(a, run, medium, dle, level) == PlacedIn(b, run, medium, dle, level))
    && (forall run, dle, level :: ContentIn(a, run, dle, level) == ContentIn(b, run, dle, level))
    && a.volumes == b.volumes
  }

  lemma EntryAfterPut(entries: seq<Entry>, e: Entry, run: string)
    ensures var after := PutEntry(entries, e);
      var i, j := EntryAt(after, run), EntryAt(entries, run);
      if run == e.run.id then i < |after| && after[i] == e
      else (i < |after| <==> j < |entries|) && (i < |after| ==> after[i] == entries[j])
  {
    var after := PutEntry(entries, e);
    var k, i, j := EntryAt(entries, e.run.id), EntryAt(after, run), EntryAt(entries, run);
    assert after[k] == e;
    assert forall n :: 0 <= n < |entries| && n != k ==> after[n] == entries[n];
    if run == e.run.id {
      assert i == k;
    } else {
      if i < |after| { assert i != k; assert i < |entries|; }
      if j < |entries| { assert j != k; }
    }
  }

  lemma CopyAfterPut(placements: seq<Placement>, medium: string, pa: PlacedArchive, m: string)
    ensures CopyOn(PutOnMedium(placements, medium, pa), m) ==
      if m == medium then PutPlaced(CopyOn(placements, medium), pa) else CopyOn(placements, m)
  {
    var after := PutOnMedium(placements, medium, pa);
    var k, i, j := PlacementAt(placements, medium), PlacementAt(after, m), PlacementAt(placements, m);
    assert after[k].medium == medium;
    assert forall n :: 0 <= n < |placements| && n != k ==> after[n] == placements[n];
    if m == medium {
      assert i == k;
    } else {
      if i < |after| { assert i != k; assert i < |placements|; }
      if j < |placements| { assert j != k; }
    }
  }

  lemma PlacedAfterPut(copy: seq<PlacedArchive>, pa: PlacedArchive, dle: string, level: int)
    ensures var after := PutPlaced(copy, pa);
      var i, j := PlacedAt(after, dle, level), PlacedAt(copy, dle, level);
      if dle == pa.dle && level == pa.level then i < |after| && after[i] == pa
      else (i < |after| <==> j < |copy|) && (i < |after| ==> after[i] == copy[j])
  {
    var after := PutPlaced(copy, pa);
    var k, i, j := PlacedAt(copy, pa.dle, pa.level), PlacedAt(after, dle, level), PlacedAt(copy, dle, level);
    assert after[k] == pa;
    assert forall n :: 0 <= n < |copy| && n != k ==> after[n] == copy[n];
    if dle == pa.dle && level == pa.level {
      assert i == k;
    } else {
      if i < |after| { assert i != k; assert i < |copy|; }
      if j < |copy| { assert j != k; }
    }
  }

  lemma ContentAfterPut(archives: seq<Archive>, a: Archive, dle: string, level: int)
    ensures var after := PutArchive(archives, a);
      var i, j := ArchiveAt(after, dle, level), ArchiveAt(archives, dle, level);
      if dle == a.dle && level == a.level then i < |after| && after[i] == a
      else (i < |after| <==> j < |archives|) && (i < |after| ==> after[i] == archives[j])
  {
    var after := PutArchive(archives, a);
    var k, i, j := ArchiveAt(archives, a.dle, a.level), ArchiveAt(after, dle, level), ArchiveAt(archives, dle, level);
    assert after[k] == a;
    assert forall n :: 0 <= n < |archives| && n != k ==> after[n] == archives[n];
    if dle == a.dle && level == a.level {
      assert i == k;
    } else {
      if i < |after| { assert i != k; assert i < |archives|; }
      if j < |archives| { assert j != k; }
    }
  }

  /** Adding changes the one record it names and nothing else. */
  lemma AddView(price: Pricing, c: Cat, arch: Archive, medium: string, pos: ArchivePos, run: string, m: string, dle: string, level: int)
    ensures var c' := AddArchive(price, c, arch, medium, pos);
      && PlacedIn(c', run, m, dle, level) ==
           (if run == arch.run && m == medium && dle == arch.dle && level == arch.level then Some(Place(arch, pos))
            else PlacedIn(c, run, m, dle, level))
      && ContentIn(c', run, dle, level) ==
           (if run == arch.run && dle == arch.dle && level == arch.level then Some(Stripped(arch))
            else ContentIn(c, run, dle, level))
  {
    var e, pa := EntryOf(c, arch.run), Place(arch, pos);
    var e' := Entry(Merged(c, arch), PutOnMedium(e.placements, medium, pa));
    EntryAfterPut(c.entries, e', run);
    CopyAfterPut(e.placements, medium, pa, m);
    PlacedAfterPut(CopyOn(e.placements, medium), pa, dle, level);
    ContentAfterPut(e.run.archives, Stripped(arch), dle, level);
  }

  // ---------------------------------------------------------------- absorbing

  datatype Call = Call(arch: Archive, pos: ArchivePos)

  /** What absorbing a scanned run records for (dle, level). */
  function Found(sp: RunPlacement, dle: string, level: int): Option<Call>
  {
    var i, j := ArchiveAt(sp.run.archives, dle, level), PlacedAt(sp.p.archives, dle, level);
    if i < |sp.run.archives| && j < |sp.p.archives| then Some(Call(sp.run.archives[i], sp.p.archives[j].Pos())) else None
  }

  function FoundIn(out: seq<RunPlacement>, run: string, dle: string, level: int): Option<Call>
  {
    if out == [] then None
    else if out[0].run.id == run then Found(out[0], dle, level)
    else FoundIn(out[1..], run, dle, level)
  }

  function ViewAfter(c: Cat, call: Option<Call>, run: string, m: string, dle: string, level: int, medium: string): Option<PlacedArchive>
  {
    if m == medium && call.Some? then Some(Place(call.value.arch, call.value.pos)) else PlacedIn(c, run, m, dle, level)
  }

  function ContentAfter(c: Cat, call: Option<Call>, run: string, dle: string, level: int): Option<Archive>
  {
    if call.Some? then Some(Stripped(call.value.arch)) else ContentIn(c, run, dle, level)
  }

  /** The scanned run with its first archive taken off. */
  function Rest(run: Run): Run
    requires run.archives != []
  {
    Run(run.id, run.archives[1..])
  }

  lemma FoundRest(run: Run, p: Placement, dle: string, level: int)
    requires ContentShape(run) && run.archives != []
    ensures ContentShape(Rest(run))
    ensures var a := run.archives[0]; var j := PlacedAt(p.archives, a.dle, a.level);
      if a.dle == dle && a.level == level then
        Found(RunPlacement(Rest(run), p), dle, level) == None &&
        Found(RunPlacement(run, p), dle, level) == if j < |p.archives| then Some(Call(a, p.archives[j].Pos())) else None
      else Found(RunPlacement(run, p), dle, level) == Found(RunPlacement(Rest(run), p), dle, level)
  {
    var a := run.archives[0];
    var rest := Rest(run).archives;
    assert forall i :: 0 <= i < |rest| ==> rest[i] == run.archives[i + 1];
    var k := ArchiveAt(rest, dle, level);
    if a.dle == dle && a.level == level {
      forall i | 0 <= i < |rest| ensures !(rest[i].dle == dle && rest[i].level == level) { assert rest[i] == run.archives[i + 1]; }
      assert k == |rest|;
    }
  }

  lemma {:induction false} AbsorbArchivesView(price: Pricing, c: Cat, run: Run, p: Placement, r: string, m: string, dle: string, level: int)
    requires ContentShape(run)
    ensures var c' := AbsorbArchives(price, c, p, run.archives);
      var call := if r == run.id then Found(RunPlacement(run, p), dle, level) else None;
      PlacedIn(c', r, m, dle, level) == ViewAfter(c, call, r, m, dle, level, p.medium)
      && ContentIn(c', r, dle, level) == ContentAfter(c, call, r, dle, level)
    decreases |run.archives|
  {
    if run.archives != [] {
      var a := run.archives[0];
      var j := PlacedAt(p.archives, a.dle, a.level);
      FoundRest(run, p, dle, level);
      if j < |p.archives| {
        var pos := p.archives[j].Pos();
        AddView(price, c, a, p.medium, pos, r, m, dle, level);
        AbsorbArchivesView(price, AddArchive(price, c, a, p.medium, pos), Rest(run), p, r, m, dle, level);
      } else {
        AbsorbArchivesView(price, c, Rest(run), p, r, m, dle, level);
      }
    }
  }

  ghost predicate ScanShaped(out: seq<RunPlacement>, medium: string)
  {
    && (forall i, j :: 0 <= i < j < |out| ==> out[i].run.id != out[j].run.id)
    && (forall i :: 0 <= i < |out| ==> ContentShape(out[i].run) && out[i].p.medium == medium)
  }

  lemma {:induction false} FoundElsewhere(out: seq<RunPlacement>, run: string, dle: string, level: int)
    requires forall i :: 0 <= i < |out| ==> out[i].run.id != run
    ensures FoundIn(out, run, dle, level) == None
  {
    if out != [] { FoundElsewhere(out[1..], run, dle, level); }
  }

  /** Absorbing records exactly what the scan found, and leaves every other record alone. */
  lemma {:induction false} AbsorbRunsView(price: Pricing, c: Cat, out: seq<RunPlacement>, medium: string, r: string, m: string, dle: string, level: int)
    requires ScanShaped(out, medium)
    ensures var c' := AbsorbRuns(price, c, out);
      var call := FoundIn(out, r, dle, level);
      PlacedIn(c', r, m, dle, level) == ViewAfter(c, call, r, m, dle, level, medium)
      && ContentIn(c', r, dle, level) == ContentAfter(c, call, r, dle, level)
    decreases |out|
  {
    if out != [] {
      var sp := out[0];
      AbsorbArchivesView(price, c, sp.run, sp.p, r, m, dle, level);
      assert RunPlacement(sp.run, sp.p) == sp;
      assert forall i :: 0 <= i < |out[1..]| ==> out[1..][i] == out[i + 1];
      AbsorbRunsView(price, AbsorbArchives(price, c, sp.p, sp.run.archives), out[1..], medium, r, m, dle, level);
      if sp.run.id == r { FoundElsewhere(out[1..], r, dle, level); }
    }
  }

  // ---------------------------------------------------------------- what the stored fill depends on

  /** One recorded copy with the sizes it is priced by. */
  datatype Row = Row(run: string, medium: string, pa: PlacedArchive, compressed: int, indexSize: int)

  function RowOf(run: Run, medium: string, pa: PlacedArchive): Row
  {
    var a := ArchiveOf(run, pa.dle, pa.level);
    Row(run.id, medium, pa, a.compressed, a.indexSize)
  }

  function RowCharge(price: Pricing, row: Row, l: string): nat
  {
    match price(row.medium)
    case None => 0
    case Some(cost) => ChargeWith(cost, NO_ARCHIVE.(compressed := row.compressed, indexSize := row.indexSize), row.pa, l)
  }

  function RowsOfCopy(run: Run, p: Placement): seq<Row>
  {
    seq(|p.archives|, i requires 0 <= i < |p.archives| => RowOf(run, p.medium, p.archives[i]))
  }

  function RowsOfEntry(run: Run, placements: seq<Placement>): seq<Row>
  {
    if placements == [] then [] else RowsOfCopy(run, placements[0]) + RowsOfEntry(run, placements[1..])
  }

  function Rows(entries: seq<Entry>): seq<Row>
  {
    if entries == [] then [] else RowsOfEntry(entries[0].run, entries[0].placements) + Rows(entries[1..])
  }

  function SumRows(price: Pricing, rows: seq<Row>, l: string): nat
  {
    if rows == [] then 0 else RowCharge(price, rows[0], l) + SumRows(price, rows[1..], l)
  }

  lemma {:induction false} SumRowsAppend(price: Pricing, a: seq<Row>, b: seq<Row>, l: string)
    ensures SumRows(price, a + b, l) == SumRows(price, a, l) + SumRows(price, b, l)
  {
    if a == [] {
      assert a + b == b;
    } else {
      assert (a + b)[0] == a[0] && (a + b)[1..] == a[1..] + b;
      SumRowsAppend(price, a[1..], b, l);
    }
  }

  lemma ChargeOfRow(price: Pricing, run: Run, medium: string, pa: PlacedArchive, l: string)
    ensures Charge(price, medium, run, pa, l) == RowCharge(price, RowOf(run, medium, pa), l)
  {
  }

  lemma {:induction false} FillOfCopy(price: Pricing, run: Run, p: Placement, l: string)
    ensures FillArchives(price, p.medium, run, p.archives, l) == SumRows(price, RowsOfCopy(run, p), l)
    decreases |p.archives|
  {
    if p.archives != [] {
      var rest := p.(archives := p.archives[1..]);
      assert RowsOfCopy(run, p)[1..] == RowsOfCopy(run, rest);
      ChargeOfRow(price, run, p.medium, p.archives[0], l);
      FillOfCopy(price, run, rest, l);
    }
  }

  lemma {:induction false} FillOfPlacements(price: Pricing, run: Run, placements: seq<Placement>, l: string)
    ensures FillPlacements(price, run, placements, l) == SumRows(price, RowsOfEntry(run, placements), l)
  {
    if placements != [] {
      FillOfCopy(price, run, placements[0], l);
      FillOfPlacements(price, run, placements[1..], l);
      SumRowsAppend(price, RowsOfCopy(run, placements[0]), RowsOfEntry(run, placements[1..]), l);
    }
  }

  lemma {:induction false} FillOfRows(price: Pricing, entries: seq<Entry>, l: string)
    ensures FillOn(price, entries, l) == SumRows(price, Rows(entries), l)
  {
    if entries != [] {
      FillOfPlacements(price, entries[0].run, entries[0].placements, l);
      FillOfRows(price, entries[1..], l);
      SumRowsAppend(price, RowsOfEntry(entries[0].run, entries[0].placements), Rows(entries[1..]), l);
    }
  }

  lemma SameElementsSameCounts<T>(a: seq<T>, b: seq<T>)
    requires Distinct(a) && Distinct(b) && forall x :: x in a <==> x in b
    ensures multiset(a) == multiset(b)
  {
    forall x ensures multiset(a)[x] == multiset(b)[x] {
      DistinctCounts(a, x);
      DistinctCounts(b, x);
      assert x in multiset(a) <==> x in a;
      assert x in multiset(b) <==> x in b;
    }
  }

  /** The sum depends only on which rows there are, not on their order. */
  lemma {:induction false} SumRowsPermuted(price: Pricing, a: seq<Row>, b: seq<Row>, l: string)
    requires multiset(a) == multiset(b)
    ensures SumRows(price, a, l) == SumRows(price, b, l)
    decreases |a|
  {
    assert |a| == |multiset(a)| && |b| == |multiset(b)|;
    if a != [] {
      assert a[0] in multiset(b);
      var k :| 0 <= k < |b| && b[k] == a[0];
      SplitAt(price, b, k, l);
      var rest := b[..k] + b[k + 1..];
      assert a == [a[0]] + a[1..];
      assert b == b[..k] + [b[k]] + b[k + 1..];
      assert multiset(a[1..]) == multiset(a) - multiset{a[0]};
      assert multiset(rest) == multiset(b) - multiset{b[k]};
      SumRowsPermuted(price, a[1..], rest, l);
    }
  }

  lemma SplitAt(price: Pricing, b: seq<Row>, k: nat, l: string)
    requires k < |b|
    ensures SumRows(price, b, l) == RowCharge(price, b[k], l) + SumRows(price, b[..k] + b[k + 1..], l)
  {
    assert b == b[..k] + ([b[k]] + b[k + 1..]);
    SumRowsAppend(price, b[..k], [b[k]] + b[k + 1..], l);
    SumRowsAppend(price, b[..k], b[k + 1..], l);
    assert ([b[k]] + b[k + 1..])[1..] == b[k + 1..];
  }

  // ---------------------------------------------------------------- rows and the reading

  lemma {:induction false} RowsOfEntryMembers(run: Run, placements: seq<Placement>, row: Row)
    ensures row in RowsOfEntry(run, placements) <==>
      exists j, k :: 0 <= j < |placements| && 0 <= k < |placements[j].archives| && row == RowOf(run, placements[j].medium, placements[j].archives[k])
  {
    if placements != [] {
      RowsOfEntryMembers(run, placements[1..], row);
      assert row in RowsOfEntry(run, placements) <==> row in RowsOfCopy(run, placements[0]) || row in RowsOfEntry(run, placements[1..]);
      if row in RowsOfEntry(run, placements[1..]) {
        var j, k :| 0 <= j < |placements[1..]| && 0 <= k < |placements[1..][j].archives| && row == RowOf(run, placements[1..][j].medium, placements[1..][j].archives[k]);
        assert placements[j + 1] == placements[1..][j];
      }
      if exists j, k :: 0 <= j < |placements| && 0 <= k < |placements[j].archives| && row == RowOf(run, placements[j].medium, placements[j].archives[k]) {
        var j, k :| 0 <= j < |placements| && 0 <= k < |placements[j].archives| && row == RowOf(run, placements[j].medium, placements[j].archives[k]);
        if j > 0 {
          assert placements[1..][j - 1] == placements[j];
        } else {
          assert RowsOfCopy(run, placements[0])[k] == row;
        }
      }
    }
  }

  lemma {:induction false} RowsMembers(entries: seq<Entry>, row: Row)
    ensures row in Rows(entries) <==> exists i :: 0 <= i < |entries| && row in RowsOfEntry(entries[i].run, entries[i].placements)
  {
    if entries != [] {
      RowsMembers(entries[1..], row);
      var first := RowsOfEntry(entries[0].run, entries[0].placements);
      assert row in Rows(entries) <==> row in first || row in Rows(entries[1..]);
      if row in Rows(entries[1..]) {
        var i :| 0 <= i < |entries[1..]| && row in RowsOfEntry(entries[1..][i].run, entries[1..][i].placements);
        assert entries[i + 1] == entries[1..][i];
      }
      if exists i :: 0 <= i < |entries| && row in RowsOfEntry(entries[i].run, entries[i].placements) {
        var i :| 0 <= i < |entries| && row in RowsOfEntry(entries[i].run, entries[i].placements);
        if i > 0 { assert entries[1..][i - 1] == entries[i]; }
      }
    }
  }

  /** Within one entry, a row is there exactly when the lookups find it. */
  lemma EntryRowsAreLookups(e: Entry, row: Row)
    requires EntryShape(e)
    ensures row in RowsOfEntry(e.run, e.placements) <==>
      var copy := CopyOn(e.placements, row.medium);
      var k := PlacedAt(copy, row.pa.dle, row.pa.level);
      k < |copy| && copy[k] == row.pa && row == RowOf(e.run, row.medium, row.pa)
  {
    RowsOfEntryMembers(e.run, e.placements, row);
    var copy := CopyOn(e.placements, row.medium);
    var n := PlacementAt(e.placements, row.medium);
    var k := PlacedAt(copy, row.pa.dle, row.pa.level);
    if row in RowsOfEntry(e.run, e.placements) {
      var j, i :| 0 <= j < |e.placements| && 0 <= i < |e.placements[j].archives| && row == RowOf(e.run, e.placements[j].medium, e.placements[j].archives[i]);
      assert n == j;
      assert CopyShape(e.run, e.placements[j]);
      assert k == i;
    }
    if k < |copy| && copy[k] == row.pa && row == RowOf(e.run, row.medium, row.pa) {
      assert n < |e.placements| && e.placements[n].archives[k] == row.pa;
    }
  }

  /** A row of a well-shaped catalog is exactly what its reading says. */
  lemma RowsAreTheReading(c: Cat, row: Row)
    requires WellShaped(c)
    ensures row in Rows(c.entries) <==>
      && PlacedIn(c, row.run, row.medium, row.pa.dle, row.pa.level) == Some(row.pa)
      && ContentIn(c, row.run, row.pa.dle, row.pa.level).Some?
      && ContentIn(c, row.run, row.pa.dle, row.pa.level).value.compressed == row.compressed
      && ContentIn(c, row.run, row.pa.dle, row.pa.level).value.indexSize == row.indexSize
  {
    RowsMembers(c.entries, row);
    var n := EntryAt(c.entries, row.run);
    if row in Rows(c.entries) {
      var i :| 0 <= i < |c.entries| && row in RowsOfEntry(c.entries[i].run, c.entries[i].placements);
      assert EntryShape(c.entries[i]);
      EntryRowsAreLookups(c.entries[i], row);
      assert n == i;
      PlacedHasContent(c.entries[i], row.medium, row.pa);
    }
    if n < |c.entries| {
      assert EntryShape(c.entries[n]);
      EntryRowsAreLookups(c.entries[n], row);
    }
  }

  lemma PlacedHasContent(e: Entry, medium: string, pa: PlacedArchive)
    requires EntryShape(e)
    ensures pa in CopyOn(e.placements, medium) ==> InContent(e.run, pa)
  {
    var n := PlacementAt(e.placements, medium);
    if n < |e.placements| { assert CopyShape(e.run, e.placements[n]); }
  }

  lemma {:induction false} RowsOfEntryDistinct(run: Run, placements: seq<Placement>)
    requires OneCopyPerMedium(placements)
    requires forall i :: 0 <= i < |placements| ==> OneRecordPerKey(placements[i].archives)
    ensures Distinct(RowsOfEntry(run, placements))
  {
    if placements != [] {
      assert forall i :: 0 <= i < |placements[1..]| ==> placements[1..][i] == placements[i + 1];
      RowsOfEntryDistinct(run, placements[1..]);
      var first, rest := RowsOfCopy(run, placements[0]), RowsOfEntry(run, placements[1..]);
      forall i | 0 <= i < |rest| ensures rest[i].medium != placements[0].medium {
        RowsOfEntryMembers(run, placements[1..], rest[i]);
      }
      DistinctAppend(first, rest);
    }
  }

  lemma DistinctAppend(a: seq<Row>, b: seq<Row>)
    requires Distinct(a) && Distinct(b) && forall i, j :: 0 <= i < |a| && 0 <= j < |b| ==> a[i] != b[j]
    ensures Distinct(a + b)
  {
  }

  lemma {:induction false} RowsDistinct(entries: seq<Entry>)
    requires OneEntryPerRun(entries) && forall i :: 0 <= i < |entries| ==> EntryShape(entries[i])
    ensures Distinct(Rows(entries))
  {
    if entries != [] {
      var tail := entries[1..];
      assert forall i :: 0 <= i < |tail| ==> tail[i] == entries[i + 1];
      RowsDistinct(tail);
      var e := entries[0];
      assert EntryShape(e);
      forall i | 0 <= i < |e.placements| ensures OneRecordPerKey(e.placements[i].archives) { assert CopyShape(e.run, e.placements[i]); }
      RowsOfEntryDistinct(e.run, e.placements);
      var first, rest := RowsOfEntry(e.run, e.placements), Rows(tail);
      forall i | 0 <= i < |first| ensures first[i].run == e.run.id { RowsOfEntryMembers(e.run, e.placements, first[i]); }
      forall j | 0 <= j < |rest| ensures rest[j].run != e.run.id {
        RowsMembers(tail, rest[j]);
        var i :| 0 <= i < |tail| && rest[j] in RowsOfEntry(tail[i].run, tail[i].placements);
        RowsOfEntryMembers(tail[i].run, tail[i].placements, rest[j]);
      }
      DistinctAppend(first, rest);
    }
  }

  /** What is recorded against a label depends only on the catalog's reading. */
  lemma FillDependsOnReading(price: Pricing, a: Cat, b: Cat, l: string)
    requires WellShaped(a) && WellShaped(b)
    requires forall run, medium, dle, level :: PlacedIn(a, run, medium, dle, level) == PlacedIn(b, run, medium, dle, level)
    requires forall run, dle, level :: ContentIn(a, run, dle, level) == ContentIn(b, run, dle, level)
    ensures FillOn(price, a.entries, l) == FillOn(price, b.entries, l)
  {
    forall row ensures row in Rows(a.entries) <==> row in Rows(b.entries) {
      RowsAreTheReading(a, row);
      RowsAreTheReading(b, row);
    }
    RowsDistinct(a.entries);
    RowsDistinct(b.entries);
    SameElementsSameCounts(Rows(a.entries), Rows(b.entries));
    SumRowsPermuted(price, Rows(a.entries), Rows(b.entries), l);
    FillOfRows(price, a.entries, l);
    FillOfRows(price, b.entries, l);
  }
}
