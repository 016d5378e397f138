/** The shape every mutator keeps: one entry per run, one non-empty copy per medium, one
    record per (DLE, level), and every placed archive present in its run's content. */
module CatalogShape {
  import opened Records
  import opened Entries
  import opened CatalogState
  import opened FillLedger
  import opened Scan

  predicate OneCopyPerMedium(placements: seq<Placement>)
  {
    forall i, j :: 0 <= i < j < |placements| ==> placements[i].medium != placements[j].medium
  }

  predicate OneRecordPerKey(archives: seq<PlacedArchive>)
  {
    forall i, j :: 0 <= i < j < |archives| ==> !(archives[i].dle == archives[j].dle && archives[i].level == archives[j].level)
  }

  predicate OneContentPerKey(archives: seq<Archive>)
  {
    forall i, j :: 0 <= i < j < |archives| ==> !(archives[i].dle == archives[j].dle && archives[i].level == archives[j].level)
  }

  predicate InContent(run: Run, pa: PlacedArchive)
  {
    ArchiveAt(run.archives, pa.dle, pa.level) < |run.archives|
  }

  predicate CopyShape(run: Run, p: Placement)
  {
    && p.archives != [] && OneRecordPerKey(p.archives)
    && forall i :: 0 <= i < |p.archives| ==> InContent(run, p.archives[i])
  }

  predicate ContentShape(run: Run)
  {
    OneContentPerKey(run.archives) && forall i :: 0 <= i < |run.archives| ==> run.archives[i].run == run.id
  }

  predicate EntryShape(e: Entry)
  {
    && e.placements != [] && OneCopyPerMedium(e.placements) && ContentShape(e.run)
    && forall i :: 0 <= i < |e.placements| ==> CopyShape(e.run, e.placements[i])
  }

  predicate WellShaped(c: Cat)
  {
    OneEntryPerRun(c.entries) && forall i :: 0 <= i < |c.entries| ==> EntryShape(c.entries[i])
  }

  // ---------------------------------------------------------------- adding

  lemma PutPlacedShape(run: Run, archives: seq<PlacedArchive>, pa: PlacedArchive)
    requires OneRecordPerKey(archives) && InContent(run, pa)
    requires forall i :: 0 <= i < |archives| ==> InContent(run, archives[i])
    ensures OneRecordPerKey(PutPlaced(archives, pa))
    ensures var after := PutPlaced(archives, pa); forall i :: 0 <= i < |after| ==> InContent(run, after[i])
  {
  }

  lemma ContentGrows(run: Run, a: Archive, pa: PlacedArchive)
    requires InContent(run, pa) || (pa.dle == a.dle && pa.level == a.level)
    ensures InContent(Run(run.id, PutArchive(run.archives, a)), pa)
  {
    var archives, after := run.archives, PutArchive(run.archives, a);
    var i := ArchiveAt(archives, a.dle, a.level);
    var k := ArchiveAt(after, pa.dle, pa.level);
    assert after[i] == a;
    var j := ArchiveAt(archives, pa.dle, pa.level);
    if j < |archives| && j != i { assert after[j] == archives[j]; }
  }

  lemma PutArchiveShape(run: Run, a: Archive)
    requires ContentShape(run) && a.run == run.id
    ensures ContentShape(Run(run.id, PutArchive(run.archives, a)))
  {
  }

  lemma PutOnMediumShape(run: Run, placements: seq<Placement>, medium: string, pa: PlacedArchive)
    requires OneCopyPerMedium(placements) && InContent(run, pa)
    requires forall i :: 0 <= i < |placements| ==> CopyShape(run, placements[i])
    ensures var after := PutOnMedium(placements, medium, pa);
      after != [] && OneCopyPerMedium(after) && forall i :: 0 <= i < |after| ==> CopyShape(run, after[i])
  {
    var i := PlacementAt(placements, medium);
    if i < |placements| {
      assert CopyShape(run, placements[i]);
      PutPlacedShape(run, placements[i].archives, pa);
    }
  }

  lemma PutEntryShape(c: Cat, e: Entry, volumes: map<string, VolumeRecord>)
    requires WellShaped(c) && EntryShape(e)
    ensures WellShaped(Cat(PutEntry(c.entries, e), volumes))
  {
  }

  lemma AddKeepsShape(price: Pricing, c: Cat, arch: Archive, medium: string, pos: ArchivePos)
    requires WellShaped(c)
    ensures WellShaped(AddArchive(price, c, arch, medium, pos))
  {
    var e := EntryOf(c, arch.run);
    var run := Merged(c, arch);
    PutArchiveShape(e.run, Stripped(arch));
    forall i | 0 <= i < |e.placements| ensures CopyShape(run, e.placements[i]) {
      var p := e.placements[i];
      assert CopyShape(e.run, p);
      forall j | 0 <= j < |p.archives| ensures InContent(run, p.archives[j]) { ContentGrows(e.run, Stripped(arch), p.archives[j]); }
    }
    ContentGrows(e.run, Stripped(arch), Place(arch, pos));
    PutOnMediumShape(run, e.placements, medium, Place(arch, pos));
    PutEntryShape(c, Entry(run, PutOnMedium(e.placements, medium, Place(arch, pos))), AddArchive(price, c, arch, medium, pos).volumes);
  }

  // ---------------------------------------------------------------- removing

  lemma {:induction false} KeepDlesMembers(archives: seq<PlacedArchive>, dle: string)
    ensures forall x :: x in KeepDles(archives, dle) <==> x in archives && x.dle != dle
    ensures OneRecordPerKey(archives) ==> OneRecordPerKey(KeepDles(archives, dle))
  {
    if archives != [] {
      KeepDlesMembers(archives[1..], dle);
      if archives[0].dle != dle && OneRecordPerKey(archives) {
        var rest := KeepDles(archives[1..], dle);
        forall i | 0 <= i < |rest| ensures !(rest[i].dle == archives[0].dle && rest[i].level == archives[0].level) {
          assert rest[i] in archives[1..];
        }
      }
    }
  }

  lemma {:induction false} FreshMembers(archives: seq<PlacedArchive>, lbl: Label)
    ensures forall x :: x in Fresh(archives, lbl) <==> x in archives && !Stale(x, lbl)
    ensures OneRecordPerKey(archives) ==> OneRecordPerKey(Fresh(archives, lbl))
  {
    if archives != [] {
      FreshMembers(archives[1..], lbl);
      if !Stale(archives[0], lbl) && OneRecordPerKey(archives) {
        var rest := Fresh(archives[1..], lbl);
        forall i | 0 <= i < |rest| ensures !(rest[i].dle == archives[0].dle && rest[i].level == archives[0].level) {
          assert rest[i] in archives[1..];
        }
      }
    }
  }

  ghost predicate MediaAmong(before: seq<Placement>, after: seq<Placement>)
  {
    forall i :: 0 <= i < |after| ==> HasMedium(before, after[i].medium)
  }

  ghost predicate HasMedium(placements: seq<Placement>, medium: string)
  {
    exists j :: 0 <= j < |placements| && placements[j].medium == medium
  }

  lemma ConsKeepsOneCopy(p: Placement, before: seq<Placement>, after: seq<Placement>)
    requires OneCopyPerMedium([p] + before) && OneCopyPerMedium(after) && MediaAmong(before, after)
    ensures OneCopyPerMedium([p] + after)
  {
    forall i | 0 <= i < |after| ensures after[i].medium != p.medium {
      assert HasMedium(before, after[i].medium);
      var j :| 0 <= j < |before| && before[j].medium == after[i].medium;
      assert ([p] + before)[j + 1] == before[j] && ([p] + before)[0] == p;
    }
  }

  lemma {:induction false} KeepMediaMembers(placements: seq<Placement>, medium: string)
    ensures forall p :: p in KeepMedia(placements, medium) <==> p in placements && p.medium != medium
  {
    if placements != [] {
      KeepMediaMembers(placements[1..], medium);
      assert placements == [placements[0]] + placements[1..];
    }
  }

  lemma {:induction false} KeepMediaOneCopy(placements: seq<Placement>, medium: string)
    requires OneCopyPerMedium(placements)
    ensures OneCopyPerMedium(KeepMedia(placements, medium))
  {
    if placements != [] {
      var tail := placements[1..];
      assert OneCopyPerMedium(tail);
      KeepMediaOneCopy(tail, medium);
      KeepMediaMembers(tail, medium);
      MembersMedia(tail, KeepMedia(tail, medium));
      assert placements == [placements[0]] + tail;
      ConsKeepsOneCopy(placements[0], tail, KeepMedia(tail, medium));
    }
  }

  lemma KeepMediaShape(placements: seq<Placement>, medium: string)
    ensures forall p :: p in KeepMedia(placements, medium) <==> p in placements && p.medium != medium
    ensures MediaAmong(placements, KeepMedia(placements, medium))
    ensures OneCopyPerMedium(placements) ==> OneCopyPerMedium(KeepMedia(placements, medium))
  {
    KeepMediaMembers(placements, medium);
    MembersMedia(placements, KeepMedia(placements, medium));
    if OneCopyPerMedium(placements) { KeepMediaOneCopy(placements, medium); }
  }

  lemma {:induction false} KeepNonEmptyMembers(placements: seq<Placement>)
    ensures forall p :: p in KeepNonEmpty(placements) <==> p in placements && p.archives != []
  {
    if placements != [] {
      KeepNonEmptyMembers(placements[1..]);
      assert placements == [placements[0]] + placements[1..];
    }
  }

  lemma MembersMedia(before: seq<Placement>, after: seq<Placement>)
    requires forall p :: p in after ==> p in before
    ensures MediaAmong(before, after)
  {
    forall i | 0 <= i < |after| ensures HasMedium(before, after[i].medium) {
      assert after[i] in before;
      var j :| 0 <= j < |before| && before[j] == after[i];
      assert before[j].medium == after[i].medium;
    }
  }

  lemma {:induction false} KeepNonEmptyOneCopy(placements: seq<Placement>)
    requires OneCopyPerMedium(placements)
    ensures OneCopyPerMedium(KeepNonEmpty(placements))
  {
    if placements != [] {
      var tail := placements[1..];
      var rest := KeepNonEmpty(tail);
      assert OneCopyPerMedium(tail);
      KeepNonEmptyOneCopy(tail);
      KeepNonEmptyMembers(tail);
      MembersMedia(tail, rest);
      assert placements == [placements[0]] + tail && [] + rest == rest;
      ConsKeepsOneCopy(placements[0], tail, rest);
    }
  }

  lemma KeepNonEmptyShape(placements: seq<Placement>)
    ensures forall p :: p in KeepNonEmpty(placements) <==> p in placements && p.archives != []
    ensures MediaAmong(placements, KeepNonEmpty(placements))
    ensures OneCopyPerMedium(placements) ==> OneCopyPerMedium(KeepNonEmpty(placements))
  {
    KeepNonEmptyMembers(placements);
    MembersMedia(placements, KeepNonEmpty(placements));
    if OneCopyPerMedium(placements) { KeepNonEmptyOneCopy(placements); }
  }

  lemma FreshCopyShape(run: Run, p: Placement, lbl: Label)
    requires CopyShape(run, p) && Fresh(p.archives, lbl) != []
    ensures CopyShape(run, Placement(p.medium, Fresh(p.archives, lbl)))
  {
    var kept := Fresh(p.archives, lbl);
    FreshMembers(p.archives, lbl);
    forall k | 0 <= k < |kept| ensures InContent(run, kept[k]) { assert kept[k] in p.archives; }
  }

  /** Each surviving copy is an original copy without its stale records. */
  lemma {:induction false} FreshPlacementsMembers(placements: seq<Placement>, lbl: Label)
    ensures forall q :: q in FreshPlacements(placements, lbl) ==>
      exists p :: p in placements && Fresh(p.archives, lbl) != [] && q == Placement(p.medium, Fresh(p.archives, lbl))
  {
    if placements != [] {
      FreshPlacementsMembers(placements[1..], lbl);
      var kept := Fresh(placements[0].archives, lbl);
      forall q | q in FreshPlacements(placements, lbl)
        ensures exists p :: p in placements && Fresh(p.archives, lbl) != [] && q == Placement(p.medium, Fresh(p.archives, lbl))
      {
        if q in FreshPlacements(placements[1..], lbl) {
          var p :| p in placements[1..] && Fresh(p.archives, lbl) != [] && q == Placement(p.medium, Fresh(p.archives, lbl));
          assert p in placements;
        } else {
          assert q == Placement(placements[0].medium, kept) && placements[0] in placements;
        }
      }
    }
  }

  lemma {:induction false} FreshPlacementsMedia(placements: seq<Placement>, lbl: Label)
    ensures MediaAmong(placements, FreshPlacements(placements, lbl))
  {
    FreshPlacementsMembers(placements, lbl);
    var after := FreshPlacements(placements, lbl);
    forall i | 0 <= i < |after| ensures HasMedium(placements, after[i].medium) {
      assert after[i] in after;
      var p :| p in placements && after[i] == Placement(p.medium, Fresh(p.archives, lbl));
      var j :| 0 <= j < |placements| && placements[j] == p;
    }
  }

  lemma {:induction false} FreshPlacementsOneCopy(placements: seq<Placement>, lbl: Label)
    requires OneCopyPerMedium(placements)
    ensures OneCopyPerMedium(FreshPlacements(placements, lbl))
  {
    if placements != [] {
      var tail := placements[1..];
      assert OneCopyPerMedium(tail);
      FreshPlacementsOneCopy(tail, lbl);
      FreshPlacementsMedia(tail, lbl);
      var p := Placement(placements[0].medium, Fresh(placements[0].archives, lbl));
      HeadRelabeled(placements, p);
      ConsKeepsOneCopy(p, tail, FreshPlacements(tail, lbl));
      assert [] + FreshPlacements(tail, lbl) == FreshPlacements(tail, lbl);
    }
  }

  lemma HeadRelabeled(placements: seq<Placement>, p: Placement)
    requires placements != [] && OneCopyPerMedium(placements) && p.medium == placements[0].medium
    ensures OneCopyPerMedium([p] + placements[1..])
  {
  }

  lemma FreshPlacementsShape(run: Run, placements: seq<Placement>, lbl: Label)
    requires forall i :: 0 <= i < |placements| ==> CopyShape(run, placements[i])
    ensures var after := FreshPlacements(placements, lbl); forall i :: 0 <= i < |after| ==> CopyShape(run, after[i])
  {
    var after := FreshPlacements(placements, lbl);
    FreshPlacementsMembers(placements, lbl);
    forall i | 0 <= i < |after| ensures CopyShape(run, after[i]) {
      assert after[i] in after;
      var p :| p in placements && Fresh(p.archives, lbl) != [] && after[i] == Placement(p.medium, Fresh(p.archives, lbl));
      FreshCopyShape(run, p, lbl);
    }
  }

  lemma EntryReplacedShape(c: Cat, i: nat, e: Entry, volumes: map<string, VolumeRecord>)
    requires WellShaped(c) && i < |c.entries| && e.run.id == c.entries[i].run.id && EntryShape(e)
    ensures WellShaped(Cat(c.entries[i := e], volumes))
  {
  }

  lemma EntryDroppedShape(c: Cat, run: string, volumes: map<string, VolumeRecord>)
    requires WellShaped(c)
    ensures WellShaped(Cat(DropEntry(c.entries, run), volumes))
  {
    DropEntryRemovesOne(c.entries, run);
  }

  lemma RemovePlacementKeepsShape(price: Pricing, c: Cat, run: string, medium: string)
    requires WellShaped(c)
    ensures WellShaped(RemovePlacement(price, c, run, medium))
  {
    var i := EntryAt(c.entries, run);
    if i < |c.entries| {
      var e := c.entries[i];
      assert EntryShape(e);
      var kept := KeepMedia(e.placements, medium);
      KeepMediaShape(e.placements, medium);
      forall k | 0 <= k < |kept| ensures CopyShape(e.run, kept[k]) { assert kept[k] in e.placements; }
      var after := RemovePlacement(price, c, run, medium);
      EntryDroppedShape(c, run, after.volumes);
      if kept != [] { EntryReplacedShape(c, i, e.(placements := kept), after.volumes); }
    }
  }

  lemma {:induction false} DropArchivesMembers(archives: seq<Archive>, dle: string)
    ensures forall a :: a in DropArchives(archives, dle) <==> a in archives && a.dle != dle
    ensures OneContentPerKey(archives) ==> OneContentPerKey(DropArchives(archives, dle))
  {
    if archives != [] {
      DropArchivesMembers(archives[1..], dle);
      if archives[0].dle != dle && OneContentPerKey(archives) {
        var rest := DropArchives(archives[1..], dle);
        forall i | 0 <= i < |rest| ensures !(rest[i].dle == archives[0].dle && rest[i].level == archives[0].level) {
          assert rest[i] in archives[1..];
        }
      }
    }
  }

  lemma WithoutDleShape(run: Run, placements: seq<Placement>, medium: string, dle: string)
    requires OneCopyPerMedium(placements) && forall i :: 0 <= i < |placements| ==> CopyShape(run, placements[i])
    ensures var kept := WithoutDle(placements, medium, dle);
      OneCopyPerMedium(kept) && forall i :: 0 <= i < |kept| ==> CopyShape(run, kept[i])
  {
    var j := PlacementAt(placements, medium);
    var cut := if j < |placements| then placements[j := Placement(medium, KeepDles(placements[j].archives, dle))] else placements;
    KeepNonEmptyShape(cut);
    var kept := WithoutDle(placements, medium, dle);
    forall i | 0 <= i < |kept| ensures CopyShape(run, kept[i]) {
      assert kept[i] in cut;
      var k :| 0 <= k < |cut| && cut[k] == kept[i];
      assert CopyShape(run, placements[k]);
      if k == j && j < |placements| {
        KeepDlesMembers(placements[j].archives, dle);
        forall m | 0 <= m < |kept[i].archives| ensures InContent(run, kept[i].archives[m]) {
          assert kept[i].archives[m] in placements[j].archives;
        }
      }
    }
  }

  lemma RemoveArchiveKeepsShape(price: Pricing, c: Cat, run: string, medium: string, dle: string)
    requires WellShaped(c)
    ensures WellShaped(RemoveArchive(price, c, run, medium, dle))
  {
    var i := EntryAt(c.entries, run);
    if i < |c.entries| {
      var e := c.entries[i];
      assert EntryShape(e);
      var kept := WithoutDle(e.placements, medium, dle);
      WithoutDleShape(e.run, e.placements, medium, dle);
      DropArchivesMembers(e.run.archives, dle);
      var after := RemoveArchive(price, c, run, medium, dle);
      EntryDroppedShape(c, run, after.volumes);
      if kept != [] {
        var run' := after.entries[i].run;
        forall a | 0 <= a < |kept| ensures CopyShape(run', kept[a]) {
          assert CopyShape(e.run, kept[a]);
          forall b | 0 <= b < |kept[a].archives| ensures InContent(run', kept[a].archives[b]) {
            if !AnyPlacementHolds(kept, dle) {
              assert !HoldsDle(kept[a], dle);
              StillInContent(e.run, kept[a].archives[b], dle);
            }
          }
        }
        assert ContentShape(run') by {
          assert forall k :: 0 <= k < |run'.archives| ==> run'.archives[k] in e.run.archives;
        }
        EntryReplacedShape(c, i, Entry(run', kept), after.volumes);
      }
    }
  }

  lemma StillInContent(run: Run, pa: PlacedArchive, dle: string)
    requires InContent(run, pa) && pa.dle != dle
    ensures InContent(Run(run.id, DropArchives(run.archives, dle)), pa)
  {
    DropArchivesMembers(run.archives, dle);
    var a := run.archives[ArchiveAt(run.archives, pa.dle, pa.level)];
    assert a in DropArchives(run.archives, dle);
  }

  lemma {:induction false} FreshEntriesMembers(entries: seq<Entry>, lbl: Label)
    ensures forall q :: q in FreshEntries(entries, lbl) ==>
      exists e :: e in entries && FreshPlacements(e.placements, lbl) != [] && q == Entry(e.run, FreshPlacements(e.placements, lbl))
  {
    if entries != [] {
      FreshEntriesMembers(entries[1..], lbl);
      var kept := FreshPlacements(entries[0].placements, lbl);
      forall q | q in FreshEntries(entries, lbl)
        ensures exists e :: e in entries && FreshPlacements(e.placements, lbl) != [] && q == Entry(e.run, FreshPlacements(e.placements, lbl))
      {
        if q in FreshEntries(entries[1..], lbl) {
          var e :| e in entries[1..] && FreshPlacements(e.placements, lbl) != [] && q == Entry(e.run, FreshPlacements(e.placements, lbl));
          assert e in entries;
        } else {
          assert q == Entry(entries[0].run, kept) && entries[0] in entries;
        }
      }
    }
  }

  lemma {:induction false} FreshEntriesOnePerRun(entries: seq<Entry>, lbl: Label)
    requires OneEntryPerRun(entries)
    ensures OneEntryPerRun(FreshEntries(entries, lbl))
  {
    if entries != [] {
      assert OneEntryPerRun(entries[1..]);
      FreshEntriesOnePerRun(entries[1..], lbl);
      var rest := FreshEntries(entries[1..], lbl);
      FreshRestOthers(entries, lbl);
      hide FreshPlacements;
      assert [] + rest == rest;
    }
  }

  lemma FreshRestOthers(entries: seq<Entry>, lbl: Label)
    requires OneEntryPerRun(entries) && entries != []
    ensures var rest := FreshEntries(entries[1..], lbl); forall i :: 0 <= i < |rest| ==> rest[i].run.id != entries[0].run.id
  {
    hide FreshPlacements;
    var rest := FreshEntries(entries[1..], lbl);
    FreshEntriesMembers(entries[1..], lbl);
    hide FreshEntries;
    forall i | 0 <= i < |rest| ensures rest[i].run.id != entries[0].run.id {
      assert rest[i] in rest;
      var e :| e in entries[1..] && rest[i] == Entry(e.run, FreshPlacements(e.placements, lbl));
      var k :| 0 <= k < |entries[1..]| && entries[1..][k] == e;
      assert entries[k + 1] == e;
    }
  }

  lemma FreshEntryShape(e: Entry, lbl: Label)
    requires EntryShape(e) && FreshPlacements(e.placements, lbl) != []
    ensures EntryShape(Entry(e.run, FreshPlacements(e.placements, lbl)))
  {
    FreshPlacementsShape(e.run, e.placements, lbl);
    FreshPlacementsOneCopy(e.placements, lbl);
  }

  lemma FreshEntriesShape(entries: seq<Entry>, lbl: Label)
    requires OneEntryPerRun(entries) && forall i :: 0 <= i < |entries| ==> EntryShape(entries[i])
    ensures var after := FreshEntries(entries, lbl);
      OneEntryPerRun(after) && forall i :: 0 <= i < |after| ==> EntryShape(after[i])
  {
    var after := FreshEntries(entries, lbl);
    FreshEntriesOnePerRun(entries, lbl);
    FreshEntriesMembers(entries, lbl);
    forall i | 0 <= i < |after| ensures EntryShape(after[i]) {
      assert after[i] in after;
      var e :| e in entries && FreshPlacements(e.placements, lbl) != [] && after[i] == Entry(e.run, FreshPlacements(e.placements, lbl));
      var k :| 0 <= k < |entries| && entries[k] == e;
      assert EntryShape(entries[k]);
      FreshEntryShape(e, lbl);
    }
  }

  /** Every mutator keeps the catalog's shape. */
  lemma ChangeKeepsShape(price: Pricing, c: Cat, x: Change)
    requires WellShaped(c)
    ensures WellShaped(Changed(price, c, x))
  {
    match x
    case Add(arch, medium, pos) => AddKeepsShape(price, c, arch, medium, pos);
    case AddAgain(arch, medium, pos) => AddKeepsShape(price, c, arch, medium, pos);
    case DropCopy(run, medium) => RemovePlacementKeepsShape(price, c, run, medium);
    case Prune(run, medium, dle) => RemoveArchiveKeepsShape(price, c, run, medium, dle);
    case DropStale(lbl) => FreshEntriesShape(c.entries, lbl);
    case Register(_) =>
    case Unregister(_) =>
  }

  // ---------------------------------------------------------------- absorbing scans

  lemma {:induction false} UpsertAllEntries(price: Pricing, c: Cat, labels: seq<Label>)
    ensures UpsertAll(price, c, labels).entries == c.entries
    decreases |labels|
  {
    if labels != [] { UpsertAllEntries(price, UpsertVolume(price, c, labels[0]), labels[1..]); }
  }

  lemma {:induction false} DropStaleAllShape(price: Pricing, c: Cat, labels: seq<Label>)
    requires WellShaped(c)
    ensures WellShaped(DropStaleAll(price, c, labels))
    decreases |labels|
  {
    if labels != [] {
      FreshEntriesShape(c.entries, labels[0]);
      DropStaleAllShape(price, DropStaleOn(price, c, labels[0]), labels[1..]);
    }
  }

  lemma {:induction false} AbsorbArchivesShape(price: Pricing, c: Cat, p: Placement, archives: seq<Archive>)
    requires WellShaped(c)
    ensures WellShaped(AbsorbArchives(price, c, p, archives))
    decreases |archives|
  {
    if archives != [] {
      var i := PlacedAt(p.archives, archives[0].dle, archives[0].level);
      if i < |p.archives| {
        AddKeepsShape(price, c, archives[0], p.medium, p.archives[i].Pos());
        AbsorbArchivesShape(price, AddArchive(price, c, archives[0], p.medium, p.archives[i].Pos()), p, archives[1..]);
      } else {
        AbsorbArchivesShape(price, c, p, archives[1..]);
      }
    }
  }

  lemma {:induction false} AbsorbRunsShape(price: Pricing, c: Cat, placements: seq<RunPlacement>)
    requires WellShaped(c)
    ensures WellShaped(AbsorbRuns(price, c, placements))
    decreases |placements|
  {
    if placements != [] {
      AbsorbArchivesShape(price, c, placements[0].p, placements[0].run.archives);
      AbsorbRunsShape(price, AbsorbArchives(price, c, placements[0].p, placements[0].run.archives), placements[1..]);
    }
  }

  /** Whatever a scan holds, absorbing it keeps the catalog's shape. */
  lemma RescanKeepsShape(price: Pricing, c: Cat, idx: MediumIndex)
    requires WellShaped(c)
    ensures WellShaped(Rescan(price, c, idx))
  {
    DropStaleAllShape(price, c, idx.labels);
    var d := DropStaleAll(price, c, idx.labels);
    UpsertAllEntries(price, d, idx.labels);
    AbsorbRunsShape(price, UpsertAll(price, d, idx.labels), idx.placements);
  }
}
