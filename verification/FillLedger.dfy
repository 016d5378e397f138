/** The stored fill of every volume equals what its recorded archives cost, recomputed from
    nothing, through every mutator; and where a mutator can break that, exactly when it does. */
module FillLedger {
  import opened Records
  import opened Entries
  import opened Scan
  import opened CatalogState

  /** The stored fill of label l is its label file's charge plus every recorded charge. */
  ghost predicate Exact(price: Pricing, c: Cat, l: string)
  {
    l in c.volumes ==> c.volumes[l].used == LabelFill(price, c.volumes[l].lbl) + FillOn(price, c.entries, l)
  }

  predicate OneEntryPerRun(entries: seq<Entry>)
  {
    forall i, j :: 0 <= i < j < |entries| ==> entries[i].run.id != entries[j].run.id
  }

  // ---------------------------------------------------------------- sums over lists

  lemma {:induction false} FillArchivesAppend(price: Pricing, medium: string, run: Run, a: seq<PlacedArchive>, b: seq<PlacedArchive>, l: string)
    ensures FillArchives(price, medium, run, a + b, l) ==
      FillArchives(price, medium, run, a, l) + FillArchives(price, medium, run, b, l)
  {
    if a == [] {
      assert a + b == b;
    } else {
      assert (a + b)[0] == a[0] && (a + b)[1..] == a[1..] + b;
      FillArchivesAppend(price, medium, run, a[1..], b, l);
    }
  }

  lemma FillArchivesAt(price: Pricing, medium: string, run: Run, s: seq<PlacedArchive>, i: nat, pa: PlacedArchive, l: string)
    requires i < |s|
    ensures FillArchives(price, medium, run, s[i := pa], l) + Charge(price, medium, run, s[i], l) ==
      FillArchives(price, medium, run, s, l) + Charge(price, medium, run, pa, l)
  {
    assert s == s[..i] + ([s[i]] + s[i + 1..]);
    assert s[i := pa] == s[..i] + ([pa] + s[i + 1..]);
    FillArchivesAppend(price, medium, run, s[..i], [s[i]] + s[i + 1..], l);
    FillArchivesAppend(price, medium, run, s[..i], [pa] + s[i + 1..], l);
    FillArchivesAppend(price, medium, run, [s[i]], s[i + 1..], l);
    FillArchivesAppend(price, medium, run, [pa], s[i + 1..], l);
  }

  lemma FillOne(price: Pricing, medium: string, run: Run, pa: PlacedArchive, l: string)
    ensures FillArchives(price, medium, run, [pa], l) == Charge(price, medium, run, pa, l)
  {
    assert [pa][1..] == [];
  }

  lemma {:induction false} FillPlacementsAppend(price: Pricing, run: Run, a: seq<Placement>, b: seq<Placement>, l: string)
    ensures FillPlacements(price, run, a + b, l) == FillPlacements(price, run, a, l) + FillPlacements(price, run, b, l)
  {
    if a == [] {
      assert a + b == b;
    } else {
      assert (a + b)[0] == a[0] && (a + b)[1..] == a[1..] + b;
      FillPlacementsAppend(price, run, a[1..], b, l);
    }
  }

  function FillPlacement(price: Pricing, run: Run, p: Placement, l: string): nat
  {
    FillArchives(price, p.medium, run, p.archives, l)
  }

  lemma FillPlacementsAt(price: Pricing, run: Run, s: seq<Placement>, i: nat, p: Placement, l: string)
    requires i < |s|
    ensures FillPlacements(price, run, s[i := p], l) + FillPlacement(price, run, s[i], l) ==
      FillPlacements(price, run, s, l) + FillPlacement(price, run, p, l)
  {
    assert s == s[..i] + [s[i]] + s[i + 1..];
    assert s[i := p] == s[..i] + [p] + s[i + 1..];
    FillPlacementsAppend(price, run, s[..i] + [s[i]], s[i + 1..], l);
    FillPlacementsAppend(price, run, s[..i] + [p], s[i + 1..], l);
    FillPlacementsAppend(price, run, s[..i], [s[i]], l);
    FillPlacementsAppend(price, run, s[..i], [p], l);
    assert [p][1..] == [] && [s[i]][1..] == [];
  }

  function FillEntry(price: Pricing, e: Entry, l: string): nat { FillPlacements(price, e.run, e.placements, l) }

  lemma {:induction false} FillOnAppend(price: Pricing, a: seq<Entry>, b: seq<Entry>, l: string)
    ensures FillOn(price, a + b, l) == FillOn(price, a, l) + FillOn(price, b, l)
  {
    if a == [] {
      assert a + b == b;
    } else {
      assert (a + b)[0] == a[0] && (a + b)[1..] == a[1..] + b;
      FillOnAppend(price, a[1..], b, l);
    }
  }

  lemma FillOnAt(price: Pricing, s: seq<Entry>, i: nat, e: Entry, l: string)
    requires i < |s|
    ensures FillOn(price, s[i := e], l) + FillEntry(price, s[i], l) == FillOn(price, s, l) + FillEntry(price, e, l)
  {
    assert s == s[..i] + [s[i]] + s[i + 1..];
    assert s[i := e] == s[..i] + [e] + s[i + 1..];
    FillOnAppend(price, s[..i] + [s[i]], s[i + 1..], l);
    FillOnAppend(price, s[..i] + [e], s[i + 1..], l);
    FillOnAppend(price, s[..i], [s[i]], l);
    FillOnAppend(price, s[..i], [e], l);
    assert [e][1..] == [] && [s[i]][1..] == [];
  }

  lemma {:induction false} NothingToDrop(entries: seq<Entry>, run: string)
    requires forall k :: 0 <= k < |entries| ==> entries[k].run.id != run
    ensures DropEntry(entries, run) == entries
  {
    if entries != [] {
      NothingToDrop(entries[1..], run);
      assert entries == [entries[0]] + entries[1..];
    }
  }

  lemma SkipFirst(entries: seq<Entry>, j: nat)
    requires j + 1 < |entries|
    ensures [entries[0]] + (entries[1..][..j] + entries[1..][j + 1..]) == entries[..j + 1] + entries[j + 2..]
  {
  }

  lemma {:induction false} DropEntryRemovesOne(entries: seq<Entry>, run: string)
    requires OneEntryPerRun(entries)
    ensures var i := EntryAt(entries, run);
      DropEntry(entries, run) == if i < |entries| then entries[..i] + entries[i + 1..] else entries
  {
    if entries == [] {
    } else if entries[0].run.id == run {
      NothingToDrop(entries[1..], run);
      assert entries[..0] + entries[1..] == entries[1..];
    } else {
      DropEntryRemovesOne(entries[1..], run);
      var j := EntryAt(entries[1..], run);
      if j < |entries[1..]| {
        SkipFirst(entries, j);
      } else {
        assert entries == [entries[0]] + entries[1..];
      }
    }
  }

  lemma FillWithoutEntry(price: Pricing, entries: seq<Entry>, run: string, l: string)
    requires OneEntryPerRun(entries) && EntryAt(entries, run) < |entries|
    ensures FillOn(price, DropEntry(entries, run), l) + FillEntry(price, entries[EntryAt(entries, run)], l) == FillOn(price, entries, l)
  {
    var i := EntryAt(entries, run);
    DropEntryRemovesOne(entries, run);
    assert entries == entries[..i] + [entries[i]] + entries[i + 1..];
    FillOnAppend(price, entries[..i] + [entries[i]], entries[i + 1..], l);
    FillOnAppend(price, entries[..i], [entries[i]], l);
    FillOnAppend(price, entries[..i], entries[i + 1..], l);
    assert [entries[i]][1..] == [];
  }

  // ---------------------------------------------------------------- giving charges back

  lemma {:induction false} GiveBackMoves(price: Pricing, volumes: map<string, VolumeRecord>, medium: string, run: Run, dropped: seq<PlacedArchive>, l: string)
    ensures var after := GiveBack(price, volumes, medium, run, dropped);
      && (l in after <==> l in volumes)
      && (l in volumes ==> after[l].lbl == volumes[l].lbl && after[l].barcode == volumes[l].barcode)
      && (l in volumes && volumes[l].used >= FillArchives(price, medium, run, dropped, l) ==>
            after[l].used == volumes[l].used - FillArchives(price, medium, run, dropped, l))
    decreases |dropped|
  {
    if dropped != [] {
      FillOne(price, medium, run, dropped[0], l);
      GiveBackMoves(price, Settle(price, volumes, medium, run, [], [dropped[0]]), medium, run, dropped[1..], l);
    }
  }

  // ---------------------------------------------------------------- adding

  lemma FillPut(price: Pricing, run: Run, placements: seq<Placement>, medium: string, pa: PlacedArchive, l: string)
    ensures FillPlacements(price, run, PutOnMedium(placements, medium, pa), l)
      + FillArchives(price, medium, run, Replaced(placements, medium, pa.dle, pa.level), l) ==
      FillPlacements(price, run, placements, l) + Charge(price, medium, run, pa, l)
  {
    var i := PlacementAt(placements, medium);
    FillOne(price, medium, run, pa, l);
    if i < |placements| {
      var copy := placements[i].archives;
      var k := PlacedAt(copy, pa.dle, pa.level);
      FillPlacementsAt(price, run, placements, i, Placement(medium, PutPlaced(copy, pa)), l);
      if k < |copy| {
        FillArchivesAt(price, medium, run, copy, k, pa, l);
        FillOne(price, medium, run, copy[k], l);
      } else {
        FillArchivesAppend(price, medium, run, copy, [pa], l);
      }
    } else {
      FillPlacementsAppend(price, run, placements, [Placement(medium, [pa])], l);
      assert [Placement(medium, [pa])][1..] == [];
    }
  }

  /** The run's content once arch is merged into it. */
  function Merged(c: Cat, arch: Archive): Run
  {
    Run(arch.run, PutArchive(EntryOf(c, arch.run).run.archives, Stripped(arch)))
  }

  /** What the run's recorded copies cost on l, before and after the content is merged. */
  function PricedBefore(price: Pricing, c: Cat, arch: Archive, l: string): nat
  {
    FillEntry(price, EntryOf(c, arch.run), l)
  }

  function PricedAfter(price: Pricing, c: Cat, arch: Archive, l: string): nat
  {
    FillPlacements(price, Merged(c, arch), EntryOf(c, arch.run).placements, l)
  }

  lemma FillAfterAdd(price: Pricing, c: Cat, arch: Archive, medium: string, pos: ArchivePos, l: string)
    ensures var e := EntryOf(c, arch.run);
      FillOn(price, AddArchive(price, c, arch, medium, pos).entries, l)
        + FillArchives(price, medium, Merged(c, arch), Replaced(e.placements, medium, arch.dle, arch.level), l)
        + PricedBefore(price, c, arch, l) ==
      FillOn(price, c.entries, l) + Charge(price, medium, Merged(c, arch), Place(arch, pos), l) + PricedAfter(price, c, arch, l)
  {
    var e, run, pa := EntryOf(c, arch.run), Merged(c, arch), Place(arch, pos);
    var e' := Entry(run, PutOnMedium(e.placements, medium, pa));
    FillPut(price, run, e.placements, medium, pa, l);
    var i := EntryAt(c.entries, arch.run);
    if i < |c.entries| {
      FillOnAt(price, c.entries, i, e', l);
    } else {
      FillOnAppend(price, c.entries, [e'], l);
      assert [e'][1..] == [];
    }
  }

  /** Adding or replacing keeps a label's stored fill exact exactly when merging the new
      content does not re-price the copies already recorded against it (a fill that is zero
      anyway hides a re-pricing downwards behind the floor). */
  lemma AddArchiveExactIff(price: Pricing, c: Cat, arch: Archive, medium: string, pos: ArchivePos, l: string)
    requires l in c.volumes && Exact(price, c, l)
    ensures var c' := AddArchive(price, c, arch, medium, pos);
      Exact(price, c', l) <==>
      || PricedAfter(price, c, arch, l) == PricedBefore(price, c, arch, l)
      || (PricedAfter(price, c, arch, l) > PricedBefore(price, c, arch, l)
          && LabelFill(price, c.volumes[l].lbl) + FillOn(price, c'.entries, l) == 0)
  {
    FillAfterAdd(price, c, arch, medium, pos, l);
    UsedAfterAdd(price, c, arch, medium, pos, l);
    FlooredMove(c.volumes[l].used + Charge(price, medium, Merged(c, arch), Place(arch, pos), l) - OutCharge(price, c, arch, medium, l),
                PricedAfter(price, c, arch, l) - PricedBefore(price, c, arch, l));
  }

  /** What the record that a new copy replaces costs, at the merged content's sizes. */
  function OutCharge(price: Pricing, c: Cat, arch: Archive, medium: string, l: string): nat
  {
    FillArchives(price, medium, Merged(c, arch), Replaced(EntryOf(c, arch.run).placements, medium, arch.dle, arch.level), l)
  }

  lemma UsedAfterAdd(price: Pricing, c: Cat, arch: Archive, medium: string, pos: ArchivePos, l: string)
    requires l in c.volumes
    ensures var c' := AddArchive(price, c, arch, medium, pos);
      && l in c'.volumes && c'.volumes[l].lbl == c.volumes[l].lbl
      && c'.volumes[l].used ==
           Floor(c.volumes[l].used + Charge(price, medium, Merged(c, arch), Place(arch, pos), l) - OutCharge(price, c, arch, medium, l))
  {
    FillOne(price, medium, Merged(c, arch), Place(arch, pos), l);
  }

  lemma FlooredMove(x: int, d: int)
    requires x + d >= 0
    ensures Floor(x) == x + d <==> d == 0 || (d > 0 && x + d == 0)
  {
  }

  /** Re-adding an archive with the sizes it is recorded with re-prices nothing. */
  ghost predicate SameSizes(run: Run, a: Archive)
  {
    var i := ArchiveAt(run.archives, a.dle, a.level);
    i < |run.archives| && run.archives[i].compressed == a.compressed && run.archives[i].indexSize == a.indexSize
  }

  ghost predicate NotPlaced(placements: seq<Placement>, dle: string, level: int)
  {
    forall i :: 0 <= i < |placements| ==> !Holds(placements[i], dle, level)
  }

  lemma ArchiveOfMerged(run: Run, a: Archive, dle: string, level: int)
    ensures var r := Run(run.id, PutArchive(run.archives, a));
      ArchiveOf(r, dle, level) == if a.dle == dle && a.level == level then a else ArchiveOf(run, dle, level)
  {
    var archives := run.archives;
    var i := ArchiveAt(archives, a.dle, a.level);
    var after := PutArchive(archives, a);
    var k, j := ArchiveAt(after, dle, level), ArchiveAt(archives, dle, level);
    if a.dle == dle && a.level == level {
      assert after[i] == a;
      assert k == i;
    } else {
      assert forall n :: 0 <= n < |archives| && n != i ==> after[n] == archives[n];
      if k < |after| { assert after[k] != a; assert k < |archives|; }
      assert j < |archives| ==> j != i && after[j] == archives[j];
    }
  }

  lemma {:induction false} SamePricesArchives(price: Pricing, medium: string, run: Run, run': Run, archives: seq<PlacedArchive>, l: string)
    requires forall i :: 0 <= i < |archives| ==>
      SamePrice(ArchiveOf(run, archives[i].dle, archives[i].level), ArchiveOf(run', archives[i].dle, archives[i].level))
    ensures FillArchives(price, medium, run, archives, l) == FillArchives(price, medium, run', archives, l)
  {
    if archives != [] {
      assert SamePrice(ArchiveOf(run, archives[0].dle, archives[0].level), ArchiveOf(run', archives[0].dle, archives[0].level));
      forall i | 0 <= i < |archives[1..]| ensures SamePrice(ArchiveOf(run, archives[1..][i].dle, archives[1..][i].level), ArchiveOf(run', archives[1..][i].dle, archives[1..][i].level)) {
        assert archives[1..][i] == archives[i + 1];
      }
      SamePricesArchives(price, medium, run, run', archives[1..], l);
    }
  }

  predicate SamePrice(a: Archive, b: Archive) { a.compressed == b.compressed && a.indexSize == b.indexSize }

  ghost predicate SamePrices(run: Run, run': Run, placements: seq<Placement>)
  {
    forall i, j :: 0 <= i < |placements| && 0 <= j < |placements[i].archives| ==>
      var pa := placements[i].archives[j];
      SamePrice(ArchiveOf(run, pa.dle, pa.level), ArchiveOf(run', pa.dle, pa.level))
  }

  lemma {:induction false} SamePricesPlacements(price: Pricing, run: Run, run': Run, placements: seq<Placement>, l: string)
    requires SamePrices(run, run', placements)
    ensures FillPlacements(price, run, placements, l) == FillPlacements(price, run', placements, l)
  {
    if placements != [] {
      forall i | 0 <= i < |placements[0].archives| ensures
        SamePrice(ArchiveOf(run, placements[0].archives[i].dle, placements[0].archives[i].level),
                  ArchiveOf(run', placements[0].archives[i].dle, placements[0].archives[i].level)) {}
      SamePricesArchives(price, placements[0].medium, run, run', placements[0].archives, l);
      forall i, j | 0 <= i < |placements[1..]| && 0 <= j < |placements[1..][i].archives| ensures
        var pa := placements[1..][i].archives[j];
        SamePrice(ArchiveOf(run, pa.dle, pa.level), ArchiveOf(run', pa.dle, pa.level)) {
        assert placements[1..][i] == placements[i + 1];
      }
      SamePricesPlacements(price, run, run', placements[1..], l);
    }
  }

  /** A first landing, or a re-add with the recorded sizes, keeps every fill exact. */
  lemma AddArchiveExact(price: Pricing, c: Cat, arch: Archive, medium: string, pos: ArchivePos, l: string)
    requires Exact(price, c, l)
    requires var e := EntryOf(c, arch.run); SameSizes(e.run, arch) || NotPlaced(e.placements, arch.dle, arch.level)
    ensures Exact(price, AddArchive(price, c, arch, medium, pos), l)
  {
    if l in c.volumes {
      var e, run' := EntryOf(c, arch.run), Merged(c, arch);
      forall i, j | 0 <= i < |e.placements| && 0 <= j < |e.placements[i].archives| ensures
        var pa := e.placements[i].archives[j];
        SamePrice(ArchiveOf(e.run, pa.dle, pa.level), ArchiveOf(run', pa.dle, pa.level))
      {
        var pa := e.placements[i].archives[j];
        ArchiveOfMerged(e.run, Stripped(arch), pa.dle, pa.level);
        if pa.dle == arch.dle && pa.level == arch.level {
          assert Holds(e.placements[i], arch.dle, arch.level);
        }
      }
      SamePricesPlacements(price, e.run, run', e.placements, l);
      AddArchiveExactIff(price, c, arch, medium, pos, l);
    }
  }

  // ---------------------------------------------------------------- removing

  lemma {:induction false} FillKeepMedia(price: Pricing, run: Run, placements: seq<Placement>, medium: string, l: string)
    ensures FillPlacements(price, run, KeepMedia(placements, medium), l)
      + FillArchives(price, medium, run, OnMedium(placements, medium), l) == FillPlacements(price, run, placements, l)
  {
    if placements != [] {
      FillKeepMedia(price, run, placements[1..], medium, l);
      if placements[0].medium == medium {
        FillArchivesAppend(price, medium, run, placements[0].archives, OnMedium(placements[1..], medium), l);
      } else {
        assert [] + OnMedium(placements[1..], medium) == OnMedium(placements[1..], medium);
      }
    }
  }

  lemma {:induction false} EntryWithin(price: Pricing, entries: seq<Entry>, i: nat, l: string)
    requires i < |entries|
    ensures FillEntry(price, entries[i], l) <= FillOn(price, entries, l)
  {
    if i > 0 { EntryWithin(price, entries[1..], i - 1, l); }
  }

  /** Dropping a run's whole copy on a medium gives back exactly what it cost; the floor
      never bites. */
  lemma RemovePlacementExact(price: Pricing, c: Cat, run: string, medium: string, l: string)
    requires OneEntryPerRun(c.entries) && Exact(price, c, l)
    ensures Exact(price, RemovePlacement(price, c, run, medium), l)
  {
    var i := EntryAt(c.entries, run);
    if i < |c.entries| {
      var e := c.entries[i];
      var kept := KeepMedia(e.placements, medium);
      FillKeepMedia(price, e.run, e.placements, medium, l);
      EntryWithin(price, c.entries, i, l);
      GiveBackMoves(price, c.volumes, medium, e.run, OnMedium(e.placements, medium), l);
      FillWithoutEntry(price, c.entries, run, l);
      FillOnAt(price, c.entries, i, e.(placements := kept), l);
    }
  }

  lemma {:induction false} FillKeepDles(price: Pricing, medium: string, run: Run, archives: seq<PlacedArchive>, dle: string, l: string)
    ensures FillArchives(price, medium, run, KeepDles(archives, dle), l)
      + FillArchives(price, medium, run, OfDle(archives, dle), l) == FillArchives(price, medium, run, archives, l)
  {
    if archives != [] {
      FillKeepDles(price, medium, run, archives[1..], dle, l);
      FillArchivesAppend(price, medium, run, [archives[0]], OfDle(archives[1..], dle), l);
      FillOne(price, medium, run, archives[0], l);
      assert [] + OfDle(archives[1..], dle) == OfDle(archives[1..], dle);
    }
  }

  lemma {:induction false} FillKeepNonEmpty(price: Pricing, run: Run, placements: seq<Placement>, l: string)
    ensures FillPlacements(price, run, KeepNonEmpty(placements), l) == FillPlacements(price, run, placements, l)
  {
    if placements != [] {
      FillKeepNonEmpty(price, run, placements[1..], l);
      FillPlacementsAppend(price, run, [placements[0]], KeepNonEmpty(placements[1..]), l);
      assert [placements[0]][1..] == [];
      assert [] + KeepNonEmpty(placements[1..]) == KeepNonEmpty(placements[1..]);
    }
  }

  lemma FillWithoutDle(price: Pricing, run: Run, placements: seq<Placement>, medium: string, dle: string, l: string)
    ensures FillPlacements(price, run, WithoutDle(placements, medium, dle), l)
      + FillArchives(price, medium, run, OfDle(CopyOn(placements, medium), dle), l) == FillPlacements(price, run, placements, l)
  {
    var j := PlacementAt(placements, medium);
    if j < |placements| {
      var p := Placement(medium, KeepDles(placements[j].archives, dle));
      FillPlacementsAt(price, run, placements, j, p, l);
      FillKeepDles(price, medium, run, placements[j].archives, dle, l);
      FillKeepNonEmpty(price, run, placements[j := p], l);
    } else {
      FillKeepNonEmpty(price, run, placements, l);
    }
  }

  lemma ArchiveOfCons(a: Archive, rest: seq<Archive>, id: string, dle: string, level: int)
    ensures ArchiveOf(Run(id, [a] + rest), dle, level) ==
      if a.dle == dle && a.level == level then a else ArchiveOf(Run(id, rest), dle, level)
  {
    assert ([a] + rest)[1..] == rest;
  }

  lemma {:induction false} ArchiveOfOthers(archives: seq<Archive>, id: string, gone: string, dle: string, level: int)
    requires dle != gone
    ensures ArchiveOf(Run(id, DropArchives(archives, gone)), dle, level) == ArchiveOf(Run(id, archives), dle, level)
  {
    if archives != [] {
      var a, rest := archives[0], archives[1..];
      assert archives == [a] + rest;
      ArchiveOfOthers(rest, id, gone, dle, level);
      ArchiveOfCons(a, rest, id, dle, level);
      if a.dle != gone { ArchiveOfCons(a, DropArchives(rest, gone), id, dle, level); }
    }
  }

  /** Pruning one DLE's image from one copy keeps every fill exact, also when the run's
      content drops the image. */
  lemma RemoveArchiveExact(price: Pricing, c: Cat, run: string, medium: string, dle: string, l: string)
    requires OneEntryPerRun(c.entries) && Exact(price, c, l)
    ensures Exact(price, RemoveArchive(price, c, run, medium, dle), l)
  {
    var i := EntryAt(c.entries, run);
    if i < |c.entries| {
      var e := c.entries[i];
      var kept := WithoutDle(e.placements, medium, dle);
      var content := if AnyPlacementHolds(kept, dle) then e.run.archives else DropArchives(e.run.archives, dle);
      var run' := Run(e.run.id, content);
      FillWithoutDle(price, e.run, e.placements, medium, dle, l);
      EntryWithin(price, c.entries, i, l);
      GiveBackMoves(price, c.volumes, medium, e.run, OfDle(CopyOn(e.placements, medium), dle), l);
      FillWithoutEntry(price, c.entries, run, l);
      FillOnAt(price, c.entries, i, Entry(run', kept), l);
      forall a, b | 0 <= a < |kept| && 0 <= b < |kept[a].archives| ensures
        var pa := kept[a].archives[b];
        SamePrice(ArchiveOf(e.run, pa.dle, pa.level), ArchiveOf(run', pa.dle, pa.level))
      {
        var pa := kept[a].archives[b];
        if !AnyPlacementHolds(kept, dle) {
          assert !HoldsDle(kept[a], dle);
          ArchiveOfOthers(e.run.archives, e.run.id, dle, pa.dle, pa.level);
        }
      }
      SamePricesPlacements(price, e.run, run', kept, l);
    }
  }

  // ---------------------------------------------------------------- the registry

  /** Recording a volume keeps its stored fill exact exactly when: it was unknown; or it was
      known at this epoch and its label file still costs the same; or it is known at another
      epoch and nothing is recorded against it any more. */
  lemma UpsertExactIff(price: Pricing, c: Cat, lbl: Label)
    requires Exact(price, c, lbl.name)
    ensures Exact(price, UpsertVolume(price, c, lbl), lbl.name) <==>
      || lbl.name !in c.volumes
      || (c.volumes[lbl.name].lbl.epoch == lbl.epoch && LabelFill(price, c.volumes[lbl.name].lbl) == LabelFill(price, lbl))
      || (c.volumes[lbl.name].lbl.epoch != lbl.epoch && FillOn(price, c.entries, lbl.name) == 0)
  {
  }

  lemma UpsertKeepsOthers(price: Pricing, c: Cat, lbl: Label, l: string)
    requires Exact(price, c, l) && l != lbl.name
    ensures Exact(price, UpsertVolume(price, c, lbl), l)
  {
  }

  // ---------------------------------------------------------------- wiped reels

  function StalePlacements(price: Pricing, run: Run, placements: seq<Placement>, lbl: Label, l: string): nat
  {
    if placements == [] then 0
    else
      FillArchives(price, placements[0].medium, run, StaleOnes(placements[0].archives, lbl), l)
      + StalePlacements(price, run, placements[1..], lbl, l)
  }

  function StaleEntries(price: Pricing, entries: seq<Entry>, lbl: Label, l: string): nat
  {
    if entries == [] then 0
    else StalePlacements(price, entries[0].run, entries[0].placements, lbl, l) + StaleEntries(price, entries[1..], lbl, l)
  }

  lemma {:induction false} FillFresh(price: Pricing, medium: string, run: Run, archives: seq<PlacedArchive>, lbl: Label, l: string)
    ensures FillArchives(price, medium, run, Fresh(archives, lbl), l)
      + FillArchives(price, medium, run, StaleOnes(archives, lbl), l) == FillArchives(price, medium, run, archives, l)
  {
    if archives != [] {
      FillFresh(price, medium, run, archives[1..], lbl, l);
      FillArchivesAppend(price, medium, run, [archives[0]], Fresh(archives[1..], lbl), l);
      FillArchivesAppend(price, medium, run, [archives[0]], StaleOnes(archives[1..], lbl), l);
      FillOne(price, medium, run, archives[0], l);
      assert [] + Fresh(archives[1..], lbl) == Fresh(archives[1..], lbl);
      assert [] + StaleOnes(archives[1..], lbl) == StaleOnes(archives[1..], lbl);
    }
  }

  lemma {:induction false} FillFreshPlacements(price: Pricing, run: Run, placements: seq<Placement>, lbl: Label, l: string)
    ensures FillPlacements(price, run, FreshPlacements(placements, lbl), l)
      + StalePlacements(price, run, placements, lbl, l) == FillPlacements(price, run, placements, l)
  {
    if placements != [] {
      FillFreshPlacements(price, run, placements[1..], lbl, l);
      FillFresh(price, placements[0].medium, run, placements[0].archives, lbl, l);
      var p := Placement(placements[0].medium, Fresh(placements[0].archives, lbl));
      FillPlacementsAppend(price, run, [p], FreshPlacements(placements[1..], lbl), l);
      assert [p][1..] == [];
      assert [] + FreshPlacements(placements[1..], lbl) == FreshPlacements(placements[1..], lbl);
    }
  }

  lemma {:induction false} FillFreshEntries(price: Pricing, entries: seq<Entry>, lbl: Label, l: string)
    ensures FillOn(price, FreshEntries(entries, lbl), l) + StaleEntries(price, entries, lbl, l) == FillOn(price, entries, l)
  {
    if entries != [] {
      FillFreshEntries(price, entries[1..], lbl, l);
      FillFreshPlacements(price, entries[0].run, entries[0].placements, lbl, l);
      var e := Entry(entries[0].run, FreshPlacements(entries[0].placements, lbl));
      FillOnAppend(price, [e], FreshEntries(entries[1..], lbl), l);
      assert [e][1..] == [];
      assert [] + FreshEntries(entries[1..], lbl) == FreshEntries(entries[1..], lbl);
    }
  }

  ghost predicate GaveBack(before: map<string, VolumeRecord>, after: map<string, VolumeRecord>, l: string, n: nat)
  {
    && (l in after <==> l in before)
    && (l in before ==> after[l].lbl == before[l].lbl && after[l].barcode == before[l].barcode)
    && (l in before && before[l].used >= n ==> after[l].used == before[l].used - n)
  }

  lemma {:induction false} GiveBackPlacementsMoves(price: Pricing, volumes: map<string, VolumeRecord>, run: Run, placements: seq<Placement>, lbl: Label, l: string)
    ensures GaveBack(volumes, GiveBackPlacements(price, volumes, run, placements, lbl), l, StalePlacements(price, run, placements, lbl, l))
    decreases |placements|
  {
    if placements != [] {
      var out := StaleOnes(placements[0].archives, lbl);
      GiveBackMoves(price, volumes, placements[0].medium, run, out, l);
      GiveBackPlacementsMoves(price, GiveBack(price, volumes, placements[0].medium, run, out), run, placements[1..], lbl, l);
    }
  }

  lemma {:induction false} GiveBackEntriesMoves(price: Pricing, volumes: map<string, VolumeRecord>, entries: seq<Entry>, lbl: Label, l: string)
    ensures GaveBack(volumes, GiveBackEntries(price, volumes, entries, lbl), l, StaleEntries(price, entries, lbl, l))
    decreases |entries|
  {
    if entries != [] {
      GiveBackPlacementsMoves(price, volumes, entries[0].run, entries[0].placements, lbl, l);
      GiveBackEntriesMoves(price, GiveBackPlacements(price, volumes, entries[0].run, entries[0].placements, lbl), entries[1..], lbl, l);
    }
  }

  /** Dropping a wiped reel's records gives back exactly what they cost, on every reel. */
  lemma DropStaleExact(price: Pricing, c: Cat, lbl: Label, l: string)
    requires Exact(price, c, l)
    ensures Exact(price, DropStaleOn(price, c, lbl), l)
    ensures l in DropStaleOn(price, c, lbl).volumes <==> l in c.volumes
    ensures l in c.volumes ==> DropStaleOn(price, c, lbl).volumes[l].lbl == c.volumes[l].lbl
  {
    FillFreshEntries(price, c.entries, lbl, l);
    GiveBackEntriesMoves(price, c.volumes, c.entries, lbl, l);
  }

  // ---------------------------------------------------------------- any run of mutations

  datatype Change =
    | Add(arch: Archive, medium: string, pos: ArchivePos)
    | AddAgain(arch: Archive, medium: string, pos: ArchivePos)
    | DropCopy(run: string, medium: string)
    | Prune(run: string, medium: string, dle: string)
    | Register(lbl: Label)
    | Unregister(name: string)
    | DropStale(lbl: Label)

  function Changed(price: Pricing, c: Cat, x: Change): Cat
  {
    match x
    case Add(arch, medium, pos) => AddArchive(price, c, arch, medium, pos)
    case AddAgain(arch, medium, pos) => AddArchive(price, c, arch, medium, pos)
    case DropCopy(run, medium) => RemovePlacement(price, c, run, medium)
    case Prune(run, medium, dle) => RemoveArchive(price, c, run, medium, dle)
    case Register(lbl) => UpsertVolume(price, c, lbl)
    case Unregister(name) => RemoveVolume(c, name)
    case DropStale(lbl) => DropStaleOn(price, c, lbl)
  }
}
