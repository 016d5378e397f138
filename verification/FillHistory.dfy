/** The stored fill over the catalog's whole life: single mutations and rescans in any order,
    the drop-stale, register, absorb sequence of a rescan included. */
module FillHistory {
  import opened Records
  import opened Entries
  import opened Scan
  import opened CatalogState
  import opened CatalogShape
  import opened CatalogView
  import opened FillLedger
  import opened RemovalView

  // ---------------------------------------------------------------- current references

  ghost predicate NothingStale(c: Cat, lbl: Label)
  {
    forall run, m, dle, level :: PlacedIn(c, run, m, dle, level).Some? ==> !Stale(PlacedIn(c, run, m, dle, level).value, lbl)
  }

  lemma RecordIsRead(c: Cat, i: nat, j: nat, k: nat)
    requires WellShaped(c) && i < |c.entries| && j < |c.entries[i].placements| && k < |c.entries[i].placements[j].archives|
    ensures var e := c.entries[i]; var p := e.placements[j]; var pa := p.archives[k];
      PlacedIn(c, e.run.id, p.medium, pa.dle, pa.level) == Some(pa)
  {
    var e := c.entries[i];
    var p := e.placements[j];
    assert EntryShape(e) && CopyShape(e.run, p);
    assert EntryAt(c.entries, e.run.id) == i;
    assert PlacementAt(e.placements, p.medium) == j;
    assert PlacedAt(p.archives, p.archives[k].dle, p.archives[k].level) == k;
  }

  /** Every record that names a registered label names it at its registered epoch. */
  ghost predicate RefsCurrent(c: Cat)
  {
    forall name :: name in c.volumes ==> c.volumes[name].lbl.name == name && NothingStale(c, c.volumes[name].lbl)
  }

  /** No record names this label at all. */
  ghost predicate Unnamed(c: Cat, l: string)
  {
    forall run, m, dle, level :: PlacedIn(c, run, m, dle, level).Some? ==> !Names(PlacedIn(c, run, m, dle, level).value, l)
  }

  predicate Names(pa: PlacedArchive, l: string)
  {
    (exists i :: 0 <= i < |pa.parts| && pa.parts[i].volume == l) || pa.commit.volume == l || pa.index.volume == l
  }

  lemma {:induction false} UnnamedParts(cost: FileCost, parts: seq<FilePos>, seals: seq<PartSeal>, compressed: int, l: string)
    requires forall i :: 0 <= i < |parts| ==> parts[i].volume != l
    ensures |parts| == |seals| ==> PartsCharge(cost, parts, seals, l) == 0
    ensures WholeCharge(cost, parts, compressed, l) == 0
  {
    if parts != [] { UnnamedParts(cost, parts[1..], if seals == [] then [] else seals[1..], compressed, l); }
  }

  lemma UnnamedRow(price: Pricing, row: Row, l: string)
    requires !Names(row.pa, l)
    ensures RowCharge(price, row, l) == 0
  {
    if price(row.medium).Some? {
      UnnamedParts(price(row.medium).value, row.pa.parts, row.pa.seals, row.compressed, l);
    }
  }

  lemma {:induction false} UnnamedRows(price: Pricing, rows: seq<Row>, l: string)
    requires forall i :: 0 <= i < |rows| ==> !Names(rows[i].pa, l)
    ensures SumRows(price, rows, l) == 0
  {
    if rows != [] {
      UnnamedRow(price, rows[0], l);
      UnnamedRows(price, rows[1..], l);
    }
  }

  /** Nothing is recorded against a label no record names. */
  lemma UnnamedCostsNothing(price: Pricing, c: Cat, l: string)
    requires WellShaped(c) && Unnamed(c, l)
    ensures FillOn(price, c.entries, l) == 0
  {
    var rows := Rows(c.entries);
    forall i | 0 <= i < |rows| ensures !Names(rows[i].pa, l) {
      RowsAreTheReading(c, rows[i]);
    }
    UnnamedRows(price, rows, l);
    FillOfRows(price, c.entries, l);
  }

  lemma StaleEitherWay(pa: PlacedArchive, a: Label, b: Label)
    requires a.name == b.name && a.epoch != b.epoch && a.name != "" && !Stale(pa, a) && !Stale(pa, b)
    ensures !Names(pa, a.name)
  {
    forall i | 0 <= i < |pa.parts| ensures pa.parts[i].volume != a.name {
      assert !StaleRef(pa.parts[i], a) && !StaleRef(pa.parts[i], b);
    }
  }

  /** Records current at two epochs of a label do not name it, so nothing is charged to it. */
  lemma TwoEpochsCostNothing(price: Pricing, c: Cat, a: Label, b: Label)
    requires WellShaped(c) && NothingStale(c, a) && NothingStale(c, b) && a.name == b.name && a.epoch != b.epoch
    ensures FillOn(price, c.entries, a.name) == 0
  {
    if a.name == "" {
      NoLabelCostsNothing(price, c.entries);
    } else {
      forall run, m, dle, level | PlacedIn(c, run, m, dle, level).Some? ensures !Names(PlacedIn(c, run, m, dle, level).value, a.name) {
        StaleEitherWay(PlacedIn(c, run, m, dle, level).value, a, b);
      }
      UnnamedCostsNothing(price, c, a.name);
    }
  }

  lemma {:induction false} NoLabelRows(price: Pricing, rows: seq<Row>)
    ensures SumRows(price, rows, "") == 0
  {
    if rows != [] { NoLabelRows(price, rows[1..]); }
  }

  lemma NoLabelCostsNothing(price: Pricing, entries: seq<Entry>)
    ensures FillOn(price, entries, "") == 0
  {
    FillOfRows(price, entries, "");
    NoLabelRows(price, Rows(entries));
  }

  // ---------------------------------------------------------------- dropping what scanned labels make stale

  /** d records nothing c does not, and registers the same labels. */
  ghost predicate Fewer(d: Cat, c: Cat)
  {
    && (forall run, m, dle, level :: PlacedIn(d, run, m, dle, level) in {None, PlacedIn(c, run, m, dle, level)})
    && d.volumes.Keys == c.volumes.Keys && forall name :: name in c.volumes ==> d.volumes[name].lbl == c.volumes[name].lbl
  }

  /** ... and the content it still lists is as it was. */
  ghost predicate Within(d: Cat, c: Cat)
  {
    Fewer(d, c) && forall run, dle, level :: ContentIn(d, run, dle, level) in {None, ContentIn(c, run, dle, level)}
  }

  lemma FewerStaysFresh(d: Cat, c: Cat, lbl: Label)
    requires Fewer(d, c) && NothingStale(c, lbl)
    ensures NothingStale(d, lbl)
  {
    forall run, m, dle, level | PlacedIn(d, run, m, dle, level).Some? ensures !Stale(PlacedIn(d, run, m, dle, level).value, lbl) {
      assert PlacedIn(c, run, m, dle, level).Some?;
    }
  }

  lemma FewerStaysCurrent(d: Cat, c: Cat)
    requires Fewer(d, c) && RefsCurrent(c)
    ensures RefsCurrent(d)
  {
    forall name | name in d.volumes ensures NothingStale(d, d.volumes[name].lbl) { FewerStaysFresh(d, c, c.volumes[name].lbl); }
  }

  lemma DropStaleWithin(price: Pricing, c: Cat, lbl: Label)
    requires WellShaped(c)
    ensures Within(DropStaleOn(price, c, lbl), c) && NothingStale(DropStaleOn(price, c, lbl), lbl)
  {
    var d := DropStaleOn(price, c, lbl);
    forall run, m, dle, level ensures PlacedIn(d, run, m, dle, level) == Unstale(PlacedIn(c, run, m, dle, level), lbl) {
      DropStaleView(price, c, lbl, run, m, dle, level);
    }
    forall run, dle, level { DropStaleContent(price, c, lbl, run, dle, level); }
    forall name ensures name in d.volumes <==> name in c.volumes { GiveBackEntriesMoves(price, c.volumes, c.entries, lbl, name); }
    forall name | name in c.volumes ensures d.volumes[name].lbl == c.volumes[name].lbl {
      GiveBackEntriesMoves(price, c.volumes, c.entries, lbl, name);
    }
  }

  ghost predicate NoneStale(c: Cat, labels: seq<Label>) { forall i :: 0 <= i < |labels| ==> NothingStale(c, labels[i]) }

  lemma WithinTrans(a: Cat, b: Cat, c: Cat)
    requires Within(a, b) && Within(b, c)
    ensures Within(a, c)
  {
  }

  /** After the drops nothing recorded is stale against any scanned label, and what is left is
      as it was. */
  lemma {:induction false} DropAllWithin(price: Pricing, c: Cat, labels: seq<Label>)
    requires WellShaped(c)
    ensures var d := DropStaleAll(price, c, labels); WellShaped(d) && Within(d, c) && NoneStale(d, labels)
    decreases |labels|
  {
    if labels != [] {
      var d := DropStaleOn(price, c, labels[0]);
      FreshEntriesShape(c.entries, labels[0]);
      DropStaleWithin(price, c, labels[0]);
      DropAllWithin(price, d, labels[1..]);
      var e := DropStaleAll(price, d, labels[1..]);
      WithinTrans(e, d, c);
      FewerStaysFresh(e, d, labels[0]);
      forall i | 0 <= i < |labels| ensures NothingStale(e, labels[i]) { assert i > 0 ==> labels[i] == labels[1..][i - 1]; }
    }
  }

  lemma {:induction false} DropAllExact(price: Pricing, c: Cat, labels: seq<Label>, l: string)
    requires Exact(price, c, l)
    ensures Exact(price, DropStaleAll(price, c, labels), l)
    decreases |labels|
  {
    if labels != [] {
      DropStaleExact(price, c, labels[0], l);
      DropAllExact(price, DropStaleOn(price, c, labels[0]), labels[1..], l);
    }
  }

  // ---------------------------------------------------------------- registering scanned labels

  predicate OneReelPerLabel(labels: seq<Label>)
  {
    forall i, j :: 0 <= i < j < |labels| ==> labels[i].name != labels[j].name
  }

  /** A label met again at its epoch still costs what it cost. */
  predicate SameLabelCost(price: Pricing, c: Cat, lbl: Label)
  {
    lbl.name in c.volumes && c.volumes[lbl.name].lbl.epoch == lbl.epoch ==>
      LabelFill(price, c.volumes[lbl.name].lbl) == LabelFill(price, lbl)
  }

  predicate SameLabelCosts(price: Pricing, c: Cat, labels: seq<Label>)
  {
    forall i :: 0 <= i < |labels| ==> SameLabelCost(price, c, labels[i])
  }

  /** Registering a label no record is stale against keeps fills exact and references current,
      also when the label has come back at another epoch. */
  lemma RegisterSettles(price: Pricing, c: Cat, lbl: Label, l: string)
    requires WellShaped(c) && RefsCurrent(c) && Exact(price, c, l)
    requires NothingStale(c, lbl) && SameLabelCost(price, c, lbl)
    ensures var c' := UpsertVolume(price, c, lbl); WellShaped(c') && RefsCurrent(c') && Exact(price, c', l)
  {
    var c' := UpsertVolume(price, c, lbl);
    forall name | name in c'.volumes ensures c'.volumes[name].lbl.name == name && NothingStale(c', c'.volumes[name].lbl) {
      SameRecordsStayFresh(c, c', c'.volumes[name].lbl);
    }
    if l == lbl.name {
      if l in c.volumes && c.volumes[l].lbl.epoch != lbl.epoch {
        TwoEpochsCostNothing(price, c, c.volumes[l].lbl, lbl);
      }
      UpsertExactIff(price, c, lbl);
    } else {
      UpsertKeepsOthers(price, c, lbl, l);
    }
  }

  lemma SameRecordsStayFresh(c: Cat, c': Cat, lbl: Label)
    requires c'.entries == c.entries && NothingStale(c, lbl)
    ensures NothingStale(c', lbl)
  {
    forall run, m, dle, level ensures PlacedIn(c', run, m, dle, level) == PlacedIn(c, run, m, dle, level) {}
  }

  lemma RestOfLabels(price: Pricing, c: Cat, labels: seq<Label>)
    requires labels != [] && NoneStale(c, labels) && SameLabelCosts(price, c, labels) && OneReelPerLabel(labels)
    ensures var c1 := UpsertVolume(price, c, labels[0]);
      NoneStale(c1, labels[1..]) && SameLabelCosts(price, c1, labels[1..]) && OneReelPerLabel(labels[1..])
  {
    var c1, rest := UpsertVolume(price, c, labels[0]), labels[1..];
    forall i | 0 <= i < |rest| ensures NothingStale(c1, rest[i]) && SameLabelCost(price, c1, rest[i]) {
      assert rest[i] == labels[i + 1] && NothingStale(c, labels[i + 1]) && SameLabelCost(price, c, labels[i + 1]);
      SameRecordsStayFresh(c, c1, rest[i]);
    }
  }

  lemma {:induction false} RegisterAllSettles(price: Pricing, c: Cat, labels: seq<Label>, l: string)
    requires WellShaped(c) && RefsCurrent(c) && Exact(price, c, l)
    requires NoneStale(c, labels) && SameLabelCosts(price, c, labels) && OneReelPerLabel(labels)
    ensures var c' := UpsertAll(price, c, labels); WellShaped(c') && RefsCurrent(c') && Exact(price, c', l) && c'.entries == c.entries
    decreases |labels|
  {
    if labels != [] {
      RegisterSettles(price, c, labels[0], l);
      RestOfLabels(price, c, labels);
      RegisterAllSettles(price, UpsertVolume(price, c, labels[0]), labels[1..], l);
    }
  }

  // ---------------------------------------------------------------- absorbing keeps fills exact

  /** Whatever a call is about to record again is recorded with the sizes it already has. */
  ghost predicate Agreeable(c: Cat, out: seq<RunPlacement>)
  {
    forall run, dle, level :: FoundIn(out, run, dle, level).Some? && ContentIn(c, run, dle, level).Some? ==>
      SamePrice(ContentIn(c, run, dle, level).value, FoundIn(out, run, dle, level).value.arch)
  }

  lemma AddExactByContent(price: Pricing, c: Cat, arch: Archive, medium: string, pos: ArchivePos, l: string)
    requires WellShaped(c) && Exact(price, c, l)
    requires var x := ContentIn(c, arch.run, arch.dle, arch.level); x.Some? ==> SamePrice(x.value, arch)
    ensures WellShaped(AddArchive(price, c, arch, medium, pos)) && Exact(price, AddArchive(price, c, arch, medium, pos), l)
  {
    AddKeepsShape(price, c, arch, medium, pos);
    var e := EntryOf(c, arch.run);
    var n := EntryAt(c.entries, arch.run);
    if ContentIn(c, arch.run, arch.dle, arch.level).None? {
      forall i | 0 <= i < |e.placements| ensures !Holds(e.placements[i], arch.dle, arch.level) {
        assert EntryShape(c.entries[n]) && CopyShape(e.run, e.placements[i]);
        var k := PlacedAt(e.placements[i].archives, arch.dle, arch.level);
        if k < |e.placements[i].archives| { assert InContent(e.run, e.placements[i].archives[k]); }
      }
    }
    AddArchiveExact(price, c, arch, medium, pos, l);
  }

  ghost predicate AgreeableRun(c: Cat, sp: RunPlacement)
  {
    forall dle, level :: Found(sp, dle, level).Some? && ContentIn(c, sp.run.id, dle, level).Some? ==>
      SamePrice(ContentIn(c, sp.run.id, dle, level).value, Found(sp, dle, level).value.arch)
  }

  lemma {:induction false} AbsorbArchivesExact(price: Pricing, c: Cat, run: Run, p: Placement, l: string)
    requires WellShaped(c) && Exact(price, c, l) && ContentShape(run)
    requires AgreeableRun(c, RunPlacement(run, p))
    ensures WellShaped(AbsorbArchives(price, c, p, run.archives)) && Exact(price, AbsorbArchives(price, c, p, run.archives), l)
    decreases |run.archives|
  {
    if run.archives != [] {
      var a := run.archives[0];
      var j := PlacedAt(p.archives, a.dle, a.level);
      FoundRest(run, p, a.dle, a.level);
      var c1 := c;
      if j < |p.archives| {
        var pos := p.archives[j].Pos();
        assert Found(RunPlacement(run, p), a.dle, a.level) == Some(Call(a, pos));
        AddExactByContent(price, c, a, p.medium, pos, l);
        c1 := AddArchive(price, c, a, p.medium, pos);
      }
      RestAgreeable(price, c, c1, run, p);
      AbsorbArchivesExact(price, c1, Rest(run), p, l);
    }
  }

  lemma RestAgreeable(price: Pricing, c: Cat, c1: Cat, run: Run, p: Placement)
    requires ContentShape(run) && run.archives != [] && AgreeableRun(c, RunPlacement(run, p))
    requires var a := run.archives[0]; var j := PlacedAt(p.archives, a.dle, a.level);
      c1 == if j < |p.archives| then AddArchive(price, c, a, p.medium, p.archives[j].Pos()) else c
    ensures AgreeableRun(c1, RunPlacement(Rest(run), p))
  {
    var a := run.archives[0];
    var j := PlacedAt(p.archives, a.dle, a.level);
    var sp' := RunPlacement(Rest(run), p);
    forall dle, level | Found(sp', dle, level).Some? && ContentIn(c1, run.id, dle, level).Some?
      ensures SamePrice(ContentIn(c1, run.id, dle, level).value, Found(sp', dle, level).value.arch)
    {
      FoundRest(run, p, dle, level);
      if j < |p.archives| { AddView(price, c, a, p.medium, p.archives[j].Pos(), run.id, p.medium, dle, level); }
    }
  }

  lemma {:induction false} AbsorbRunsExact(price: Pricing, c: Cat, out: seq<RunPlacement>, medium: string, l: string)
    requires WellShaped(c) && Exact(price, c, l) && ScanShaped(out, medium) && Agreeable(c, out)
    ensures WellShaped(AbsorbRuns(price, c, out)) && Exact(price, AbsorbRuns(price, c, out), l)
    decreases |out|
  {
    hide WellShaped;
    hide Exact;
    if out != [] {
      var sp := out[0];
      var tail := out[1..];
      assert forall i :: 0 <= i < |tail| ==> tail[i] == out[i + 1];
      forall dle, level | Found(sp, dle, level).Some? && ContentIn(c, sp.run.id, dle, level).Some?
        ensures SamePrice(ContentIn(c, sp.run.id, dle, level).value, Found(sp, dle, level).value.arch)
      {
        assert FoundIn(out, sp.run.id, dle, level) == Found(sp, dle, level);
      }
      assert RunPlacement(sp.run, sp.p) == sp;
      AbsorbArchivesExact(price, c, sp.run, sp.p, l);
      var c1 := AbsorbArchives(price, c, sp.p, sp.run.archives);
      forall run, dle, level | FoundIn(tail, run, dle, level).Some? && ContentIn(c1, run, dle, level).Some?
        ensures SamePrice(ContentIn(c1, run, dle, level).value, FoundIn(tail, run, dle, level).value.arch)
      {
        if run == sp.run.id { FoundElsewhere(tail, run, dle, level); }
        AbsorbArchivesView(price, c, sp.run, sp.p, run, medium, dle, level);
      }
      AbsorbRunsExact(price, c1, tail, medium, l);
    }
  }

  // ---------------------------------------------------------------- a rescan

  lemma WithinAgreeable(d: Cat, c: Cat, out: seq<RunPlacement>)
    requires Within(d, c) && Agreeable(c, out)
    ensures Agreeable(d, out)
  {
    forall run, dle, level | FoundIn(out, run, dle, level).Some? && ContentIn(d, run, dle, level).Some?
      ensures SamePrice(ContentIn(d, run, dle, level).value, FoundIn(out, run, dle, level).value.arch)
    {
      assert ContentIn(d, run, dle, level) == ContentIn(c, run, dle, level);
    }
  }

  lemma SameEntriesAgreeable(d: Cat, c: Cat, out: seq<RunPlacement>)
    requires d.entries == c.entries && Agreeable(c, out)
    ensures Agreeable(d, out)
  {
    forall run, dle, level ensures ContentIn(d, run, dle, level) == ContentIn(c, run, dle, level) {}
  }

  /** What a rescan may meet: one reel per label, none costing differently at its recorded
      epoch, and archives already known coming back with their recorded sizes. */
  ghost predicate Plausible(price: Pricing, c: Cat, medium: string, idx: MediumIndex)
  {
    && OneReelPerLabel(idx.labels) && SameLabelCosts(price, c, idx.labels)
    && ScanShaped(idx.placements, medium) && Agreeable(c, idx.placements)
  }

  /** Dropping a wiped reel's records, registering it at its new epoch and absorbing what it
      now holds leaves every fill exact, as long as recorded references were current. */
  lemma RescanKeepsExact(price: Pricing, c: Cat, medium: string, idx: MediumIndex, l: string)
    requires WellShaped(c) && RefsCurrent(c) && Exact(price, c, l) && Plausible(price, c, medium, idx)
    ensures WellShaped(Rescan(price, c, idx)) && Exact(price, Rescan(price, c, idx), l)
  {
    var d := DropStaleAll(price, c, idx.labels);
    DropAllWithin(price, c, idx.labels);
    DropAllExact(price, c, idx.labels, l);
    FewerStaysCurrent(d, c);
    forall i | 0 <= i < |idx.labels| ensures SameLabelCost(price, d, idx.labels[i]) { assert SameLabelCost(price, c, idx.labels[i]); }
    RegisterAllSettles(price, d, idx.labels, l);
    var u := UpsertAll(price, d, idx.labels);
    WithinAgreeable(d, c, idx.placements);
    SameEntriesAgreeable(u, d, idx.placements);
    AbsorbRunsExact(price, u, idx.placements, medium, l);
  }

  // ---------------------------------------------------------------- references stay current

  /** The record names registered labels at their registered epochs only. */
  ghost predicate RecordCurrent(c: Cat, pa: PlacedArchive)
  {
    forall name :: name in c.volumes ==> !Stale(pa, c.volumes[name].lbl)
  }

  /** The same volumes under the same labels; only their fills may differ. */
  ghost predicate SameIdentities(a: Cat, b: Cat)
  {
    a.volumes.Keys == b.volumes.Keys &&
    forall name :: name in a.volumes ==> a.volumes[name].lbl == b.volumes[name].lbl && a.volumes[name].barcode == b.volumes[name].barcode
  }

  lemma AddKeepsCurrent(price: Pricing, c: Cat, arch: Archive, medium: string, pos: ArchivePos)
    requires RefsCurrent(c) && RecordCurrent(c, Place(arch, pos))
    ensures RefsCurrent(AddArchive(price, c, arch, medium, pos))
  {
    var c' := AddArchive(price, c, arch, medium, pos);
    assert SameIdentities(c, c');
    forall name | name in c'.volumes ensures c'.volumes[name].lbl.name == name && NothingStale(c', c'.volumes[name].lbl) {
      var lbl := c.volumes[name].lbl;
      assert NothingStale(c, lbl);
      forall run, m, dle, level | PlacedIn(c', run, m, dle, level).Some? ensures !Stale(PlacedIn(c', run, m, dle, level).value, lbl) {
        AddView(price, c, arch, medium, pos, run, m, dle, level);
      }
    }
  }

  lemma DropCopyIsFewer(price: Pricing, c: Cat, run: string, medium: string)
    ensures Fewer(RemovePlacement(price, c, run, medium), c)
  {
    forall r, m, d, l { DropCopyView(price, c, run, medium, r, m, d, l); }
    var i := EntryAt(c.entries, run);
    if i < |c.entries| {
      forall name { GiveBackMoves(price, c.volumes, medium, c.entries[i].run, OnMedium(c.entries[i].placements, medium), name); }
    }
  }

  lemma PruneIsFewer(price: Pricing, c: Cat, run: string, medium: string, dle: string)
    requires WellShaped(c)
    ensures Fewer(RemoveArchive(price, c, run, medium, dle), c)
  {
    forall r, m, d, l { PruneView(price, c, run, medium, dle, r, m, d, l); }
    var i := EntryAt(c.entries, run);
    if i < |c.entries| {
      forall name { GiveBackMoves(price, c.volumes, medium, c.entries[i].run, OfDle(CopyOn(c.entries[i].placements, medium), dle), name); }
    }
  }

  lemma UnregisterKeepsCurrent(c: Cat, name: string)
    requires RefsCurrent(c)
    ensures RefsCurrent(RemoveVolume(c, name))
  {
    var c' := RemoveVolume(c, name);
    forall n | n in c'.volumes ensures NothingStale(c', c'.volumes[n].lbl) { SameRecordsStayFresh(c, c', c.volumes[n].lbl); }
  }

  lemma {:induction false} AbsorbArchivesRegistry(price: Pricing, c: Cat, p: Placement, archives: seq<Archive>)
    ensures SameIdentities(c, AbsorbArchives(price, c, p, archives))
    decreases |archives|
  {
    if archives != [] {
      var j := PlacedAt(p.archives, archives[0].dle, archives[0].level);
      var c1 := if j < |p.archives| then AddArchive(price, c, archives[0], p.medium, p.archives[j].Pos()) else c;
      AbsorbArchivesRegistry(price, c1, p, archives[1..]);
    }
  }

  lemma {:induction false} AbsorbKeepsRegistry(price: Pricing, c: Cat, out: seq<RunPlacement>)
    ensures SameIdentities(c, AbsorbRuns(price, c, out))
    decreases |out|
  {
    if out != [] {
      AbsorbArchivesRegistry(price, c, out[0].p, out[0].run.archives);
      AbsorbKeepsRegistry(price, AbsorbArchives(price, c, out[0].p, out[0].run.archives), out[1..]);
    }
  }

  predicate Labeled(labels: seq<Label>, name: string) { exists i :: 0 <= i < |labels| && labels[i].name == name }

  /** The label a name stands for once these labels have been registered. */
  ghost predicate StandsFor(c: Cat, labels: seq<Label>, name: string, lbl: Label)
  {
    lbl.name == name && (lbl in labels || (!Labeled(labels, name) && name in c.volumes && lbl == c.volumes[name].lbl))
  }

  lemma {:induction false} RegisteredLabels(price: Pricing, c: Cat, labels: seq<Label>, name: string)
    requires OneReelPerLabel(labels) && forall n :: n in c.volumes ==> c.volumes[n].lbl.name == n
    ensures var u := UpsertAll(price, c, labels); name in u.volumes ==> StandsFor(c, labels, name, u.volumes[name].lbl)
    decreases |labels|
  {
    if labels != [] {
      var c1, rest := UpsertVolume(price, c, labels[0]), labels[1..];
      assert forall i :: 0 <= i < |rest| ==> rest[i] == labels[i + 1];
      RegisteredLabels(price, c1, rest, name);
      if Labeled(labels, name) && !Labeled(rest, name) { assert name == labels[0].name; }
    }
  }

  /** What the scan places names the labels it read, and the registered ones it did not read,
      at the epochs they carry. */
  ghost predicate ScanCurrent(c: Cat, idx: MediumIndex)
  {
    forall run, dle, level :: FoundIn(idx.placements, run, dle, level).Some? ==>
      var call := FoundIn(idx.placements, run, dle, level).value;
      forall name, lbl :: StandsFor(c, idx.labels, name, lbl) ==> !Stale(Place(call.arch, call.pos), lbl)
  }

  lemma AbsorbKeepsCurrent(price: Pricing, u: Cat, out: seq<RunPlacement>, medium: string)
    requires RefsCurrent(u) && ScanShaped(out, medium)
    requires forall run, dle, level :: FoundIn(out, run, dle, level).Some? ==>
      RecordCurrent(u, Place(FoundIn(out, run, dle, level).value.arch, FoundIn(out, run, dle, level).value.pos))
    ensures RefsCurrent(AbsorbRuns(price, u, out))
  {
    var c' := AbsorbRuns(price, u, out);
    AbsorbKeepsRegistry(price, u, out);
    forall name | name in c'.volumes ensures c'.volumes[name].lbl.name == name && NothingStale(c', c'.volumes[name].lbl) {
      var lbl := u.volumes[name].lbl;
      assert NothingStale(u, lbl);
      forall run, m, dle, level | PlacedIn(c', run, m, dle, level).Some? ensures !Stale(PlacedIn(c', run, m, dle, level).value, lbl) {
        AbsorbRunsView(price, u, out, medium, run, m, dle, level);
      }
    }
  }

  lemma RescanKeepsCurrent(price: Pricing, c: Cat, medium: string, idx: MediumIndex, l: string)
    requires WellShaped(c) && RefsCurrent(c) && Exact(price, c, l) && Plausible(price, c, medium, idx) && ScanCurrent(c, idx)
    ensures RefsCurrent(Rescan(price, c, idx))
  {
    var d := DropStaleAll(price, c, idx.labels);
    DropAllWithin(price, c, idx.labels);
    FewerStaysCurrent(d, c);
    var u := UpsertAll(price, d, idx.labels);
    forall i | 0 <= i < |idx.labels| ensures SameLabelCost(price, d, idx.labels[i]) { assert SameLabelCost(price, c, idx.labels[i]); }
    DropAllExact(price, c, idx.labels, l);
    RegisterAllSettles(price, d, idx.labels, l);
    forall run, dle, level | FoundIn(idx.placements, run, dle, level).Some?
      ensures RecordCurrent(u, Place(FoundIn(idx.placements, run, dle, level).value.arch, FoundIn(idx.placements, run, dle, level).value.pos))
    {
      var call := FoundIn(idx.placements, run, dle, level).value;
      forall name | name in u.volumes ensures !Stale(Place(call.arch, call.pos), u.volumes[name].lbl) {
        RegisteredLabels(price, d, idx.labels, name);
        assert StandsFor(c, idx.labels, name, u.volumes[name].lbl);
      }
    }
    AbsorbKeepsCurrent(price, u, idx.placements, medium);
  }

  // ---------------------------------------------------------------- the whole history

  datatype Move = One(x: Change) | Scan(medium: string, idx: MediumIndex)

  function Moved(price: Pricing, c: Cat, move: Move): Cat
  {
    match move
    case One(x) => Changed(price, c, x)
    case Scan(_, idx) => Rescan(price, c, idx)
  }

  /** What a caller can check before a move: a first landing or a re-add with the recorded
      sizes, naming registered labels at their epochs; a label registered at an epoch no record
      contradicts; a plausible scan whose footers name labels at the epochs they carry. */
  ghost predicate Apt(price: Pricing, c: Cat, move: Move)
  {
    match move
    case One(x) =>
      (match x
       case Add(arch, _, pos) => NotPlaced(EntryOf(c, arch.run).placements, arch.dle, arch.level) && RecordCurrent(c, Place(arch, pos))
       case AddAgain(arch, _, pos) => SameSizes(EntryOf(c, arch.run).run, arch) && RecordCurrent(c, Place(arch, pos))
       case Register(lbl) => NothingStale(c, lbl) && SameLabelCost(price, c, lbl)
       case _ => true)
    case Scan(medium, idx) => Plausible(price, c, medium, idx) && ScanCurrent(c, idx)
  }

  ghost predicate Settled(price: Pricing, c: Cat, l: string)
  {
    WellShaped(c) && RefsCurrent(c) && Exact(price, c, l)
  }

  lemma ChangeSettles(price: Pricing, c: Cat, x: Change, l: string)
    requires Settled(price, c, l) && Apt(price, c, One(x))
    ensures Settled(price, Changed(price, c, x), l)
  {
    ChangeKeepsShape(price, c, x);
    match x
    case Add(arch, medium, pos) =>
      AddArchiveExact(price, c, arch, medium, pos, l);
      AddKeepsCurrent(price, c, arch, medium, pos);
    case AddAgain(arch, medium, pos) =>
      AddArchiveExact(price, c, arch, medium, pos, l);
      AddKeepsCurrent(price, c, arch, medium, pos);
    case DropCopy(run, medium) =>
      RemovePlacementExact(price, c, run, medium, l);
      DropCopyIsFewer(price, c, run, medium);
      FewerStaysCurrent(Changed(price, c, x), c);
    case Prune(run, medium, dle) =>
      RemoveArchiveExact(price, c, run, medium, dle, l);
      PruneIsFewer(price, c, run, medium, dle);
      FewerStaysCurrent(Changed(price, c, x), c);
    case Register(lbl) => RegisterSettles(price, c, lbl, l);
    case Unregister(name) => UnregisterKeepsCurrent(c, name);
    case DropStale(lbl) =>
      DropStaleExact(price, c, lbl, l);
      DropStaleWithin(price, c, lbl);
      FewerStaysCurrent(Changed(price, c, x), c);
  }

  lemma MoveSettles(price: Pricing, c: Cat, move: Move, l: string)
    requires Settled(price, c, l) && Apt(price, c, move)
    ensures Settled(price, Moved(price, c, move), l)
  {
    match move
    case One(x) => ChangeSettles(price, c, x, l);
    case Scan(medium, idx) =>
      RescanKeepsExact(price, c, medium, idx, l);
      RescanKeepsCurrent(price, c, medium, idx, l);
  }

  function AfterMoves(price: Pricing, c: Cat, moves: seq<Move>): Cat
    decreases |moves|
  {
    if moves == [] then c else AfterMoves(price, Moved(price, c, moves[0]), moves[1..])
  }

  ghost predicate AptMoves(price: Pricing, c: Cat, moves: seq<Move>)
    decreases |moves|
  {
    moves == [] || (Apt(price, c, moves[0]) && AptMoves(price, Moved(price, c, moves[0]), moves[1..]))
  }

  /** However the catalog is mutated and rescanned, the incrementally kept fill of every
      registered volume equals its recomputation, the shape holds, and references to registered
      labels stay current. */
  lemma {:induction false} FillStaysExact(price: Pricing, c: Cat, moves: seq<Move>, l: string)
    requires WellShaped(c) && RefsCurrent(c) && Exact(price, c, l) && AptMoves(price, c, moves)
    ensures var c' := AfterMoves(price, c, moves); WellShaped(c') && RefsCurrent(c') && Exact(price, c', l)
    decreases |moves|
  {
    if moves != [] {
      MoveSettles(price, c, moves[0], l);
      FillStaysExact(price, Moved(price, c, moves[0]), moves[1..], l);
    }
  }
}
