/** What removals do to the catalog's reading: pruning one image, dropping a copy, and dropping
    the records of a wiped reel change what they name and nothing else. */
module RemovalView {
  import opened Records
  import opened Entries
  import opened CatalogState
  import opened CatalogShape
  import opened CatalogView
  import opened FillLedger

  // ---------------------------------------------------------------- first records of a list

  lemma CopyAmongNonEmpty(placements: seq<Placement>, m: string)
    requires OneCopyPerMedium(placements)
    ensures CopyOn(KeepNonEmpty(placements), m) == CopyOn(placements, m)
  {
    KeepNonEmptyShape(placements);
    var kept := KeepNonEmpty(placements);
    var i, j := PlacementAt(kept, m), PlacementAt(placements, m);
    assert j < |placements| && placements[j].archives != [] ==> placements[j] in kept;
    if i < |kept| {
      assert kept[i] in placements;
      var n :| 0 <= n < |placements| && placements[n] == kept[i];
      assert n == j;
    }
  }

  /** The first record of (dle, level) in a list, if any. */
  function FirstPlaced(archives: seq<PlacedArchive>, dle: string, level: int): Option<PlacedArchive>
  {
    var i := PlacedAt(archives, dle, level);
    if i < |archives| then Some(archives[i]) else None
  }

  lemma FirstPlacedCons(pa: PlacedArchive, rest: seq<PlacedArchive>, dle: string, level: int)
    ensures FirstPlaced([pa] + rest, dle, level) == if pa.dle == dle && pa.level == level then Some(pa) else FirstPlaced(rest, dle, level)
  {
    assert ([pa] + rest)[1..] == rest;
  }

  lemma {:induction false} KeptDlesAt(archives: seq<PlacedArchive>, gone: string, dle: string, level: int)
    ensures FirstPlaced(KeepDles(archives, gone), dle, level) == if dle == gone then None else FirstPlaced(archives, dle, level)
  {
    if archives != [] {
      var pa, rest := archives[0], archives[1..];
      assert archives == [pa] + rest;
      KeptDlesAt(rest, gone, dle, level);
      FirstPlacedCons(pa, rest, dle, level);
      if pa.dle != gone { FirstPlacedCons(pa, KeepDles(rest, gone), dle, level); }
    }
  }

  lemma CopyWithoutDle(placements: seq<Placement>, medium: string, dle: string, m: string)
    requires OneCopyPerMedium(placements)
    ensures CopyOn(WithoutDle(placements, medium, dle), m) ==
      if m == medium then KeepDles(CopyOn(placements, m), dle) else CopyOn(placements, m)
  {
    var j := PlacementAt(placements, medium);
    var cut := if j < |placements| then placements[j := Placement(medium, KeepDles(placements[j].archives, dle))] else placements;
    CopyAmongNonEmpty(cut, m);
    var i, k := PlacementAt(cut, m), PlacementAt(placements, m);
    assert forall n :: 0 <= n < |cut| ==> cut[n].medium == placements[n].medium;
    assert i == k;
  }

  /** The first content record of (dle, level), if any. */
  function FirstContent(archives: seq<Archive>, dle: string, level: int): Option<Archive>
  {
    var i := ArchiveAt(archives, dle, level);
    if i < |archives| then Some(archives[i]) else None
  }

  lemma FirstContentCons(a: Archive, rest: seq<Archive>, dle: string, level: int)
    ensures FirstContent([a] + rest, dle, level) == if a.dle == dle && a.level == level then Some(a) else FirstContent(rest, dle, level)
  {
    assert ([a] + rest)[1..] == rest;
  }

  lemma {:induction false} KeptContentAt(archives: seq<Archive>, gone: string, dle: string, level: int)
    ensures FirstContent(DropArchives(archives, gone), dle, level) == if dle == gone then None else FirstContent(archives, dle, level)
  {
    if archives != [] {
      var a, rest := archives[0], archives[1..];
      assert archives == [a] + rest;
      KeptContentAt(rest, gone, dle, level);
      FirstContentCons(a, rest, dle, level);
      if a.dle != gone { FirstContentCons(a, DropArchives(rest, gone), dle, level); }
    }
  }

  /** The first entry of a run, if any. */
  function FirstEntry(entries: seq<Entry>, run: string): Option<Entry>
  {
    var i := EntryAt(entries, run);
    if i < |entries| then Some(entries[i]) else None
  }

  lemma FirstEntryCons(e: Entry, rest: seq<Entry>, run: string)
    ensures FirstEntry([e] + rest, run) == if e.run.id == run then Some(e) else FirstEntry(rest, run)
  {
    assert ([e] + rest)[1..] == rest;
  }

  lemma {:induction false} EntryAfterDrop(entries: seq<Entry>, run: string, r: string)
    ensures FirstEntry(DropEntry(entries, run), r) == if r == run then None else FirstEntry(entries, r)
  {
    if entries != [] {
      var e, rest := entries[0], entries[1..];
      assert entries == [e] + rest;
      EntryAfterDrop(rest, run, r);
      FirstEntryCons(e, rest, r);
      if e.run.id != run { FirstEntryCons(e, DropEntry(rest, run), r); }
    }
  }

  // ---------------------------------------------------------------- pruning one image

  /** The run's content once the DLE's image has gone and these copies are left. */
  function ContentLeft(run: Run, kept: seq<Placement>, dle: string): Run
  {
    Run(run.id, if AnyPlacementHolds(kept, dle) then run.archives else DropArchives(run.archives, dle))
  }

  lemma EntryAfterPrune(price: Pricing, c: Cat, run: string, medium: string, dle: string, r: string)
    requires WellShaped(c) && EntryAt(c.entries, run) < |c.entries|
    ensures var e := EntryOf(c, run); var kept := WithoutDle(e.placements, medium, dle);
      FirstEntry(RemoveArchive(price, c, run, medium, dle).entries, r) ==
        if r != run then FirstEntry(c.entries, r)
        else if kept == [] then None
        else Some(Entry(ContentLeft(e.run, kept, dle), kept))
  {
    var e := c.entries[EntryAt(c.entries, run)];
    var kept := WithoutDle(e.placements, medium, dle);
    if kept == [] {
      EntryAfterDrop(c.entries, run, r);
    } else {
      EntryAfterPut(c.entries, Entry(ContentLeft(e.run, kept, dle), kept), r);
    }
  }

  lemma CopiesAfterPrune(price: Pricing, c: Cat, run: string, medium: string, dle: string, m: string)
    requires WellShaped(c) && EntryAt(c.entries, run) < |c.entries|
    ensures CopyOn(EntryOf(RemoveArchive(price, c, run, medium, dle), run).placements, m) ==
      if m == medium then KeepDles(CopyOn(EntryOf(c, run).placements, m), dle) else CopyOn(EntryOf(c, run).placements, m)
  {
    var e := c.entries[EntryAt(c.entries, run)];
    assert EntryShape(e);
    EntryAfterPrune(price, c, run, medium, dle, run);
    CopyWithoutDle(e.placements, medium, dle, m);
  }

  /** Removing one DLE's image changes the records it names and no other. */
  lemma PruneView(price: Pricing, c: Cat, run: string, medium: string, dle: string, r: string, m: string, d: string, l: int)
    requires WellShaped(c)
    ensures PlacedIn(RemoveArchive(price, c, run, medium, dle), r, m, d, l) ==
      if r == run && m == medium && d == dle then None else PlacedIn(c, r, m, d, l)
  {
    if EntryAt(c.entries, run) < |c.entries| {
      if r == run {
        CopiesAfterPrune(price, c, run, medium, dle, m);
        KeptDlesAt(CopyOn(EntryOf(c, run).placements, medium), dle, d, l);
      } else {
        EntryAfterPrune(price, c, run, medium, dle, r);
      }
    }
  }

  ghost predicate DleHeld(c: Cat, run: string, dle: string)
  {
    exists m, level :: PlacedIn(c, run, m, dle, level).Some?
  }

  ghost predicate RunHeld(c: Cat, run: string) { exists dle :: DleHeld(c, run, dle) }

  lemma ShapeOfEntry(c: Cat, run: string)
    requires WellShaped(c)
    ensures var e := EntryOf(c, run); OneCopyPerMedium(e.placements) && forall i :: 0 <= i < |e.placements| ==> e.placements[i].archives != []
  {
    var n := EntryAt(c.entries, run);
    if n < |c.entries| {
      var e := c.entries[n];
      assert EntryShape(e);
      forall i | 0 <= i < |e.placements| ensures e.placements[i].archives != [] { assert CopyShape(e.run, e.placements[i]); }
    }
  }

  lemma CopyIsRead(c: Cat, run: string, i: nat, j: nat)
    requires var e := EntryOf(c, run); OneCopyPerMedium(e.placements) && i < |e.placements| && j < |e.placements[i].archives|
    ensures var p := EntryOf(c, run).placements[i];
      PlacedIn(c, run, p.medium, p.archives[j].dle, p.archives[j].level).Some? && DleHeld(c, run, p.archives[j].dle)
  {
    var e := EntryOf(c, run);
    assert PlacementAt(e.placements, e.placements[i].medium) == i;
  }

  lemma DleHeldByCopies(c: Cat, run: string, dle: string)
    requires WellShaped(c)
    ensures DleHeld(c, run, dle) <==> AnyPlacementHolds(EntryOf(c, run).placements, dle)
  {
    var placements := EntryOf(c, run).placements;
    ShapeOfEntry(c, run);
    if AnyPlacementHolds(placements, dle) {
      var i :| 0 <= i < |placements| && HoldsDle(placements[i], dle);
      var j :| 0 <= j < |placements[i].archives| && placements[i].archives[j].dle == dle;
      CopyIsRead(c, run, i, j);
    }
    if DleHeld(c, run, dle) {
      var m, level :| PlacedIn(c, run, m, dle, level).Some?;
      assert HoldsDle(placements[PlacementAt(placements, m)], dle);
    }
  }

  lemma RunHeldByCopies(c: Cat, run: string)
    requires WellShaped(c)
    ensures RunHeld(c, run) <==> EntryOf(c, run).placements != []
  {
    ShapeOfEntry(c, run);
    if EntryOf(c, run).placements != [] { CopyIsRead(c, run, 0, 0); }
  }

  /** Pruning leaves a run's content alone, except for what no copy holds any more. */
  lemma PruneContent(price: Pricing, c: Cat, run: string, medium: string, dle: string, r: string, d: string, l: int)
    requires WellShaped(c)
    ensures var c' := RemoveArchive(price, c, run, medium, dle);
      ContentIn(c', r, d, l) ==
        if r == run && (!RunHeld(c', run) || (d == dle && !DleHeld(c', run, dle))) then None else ContentIn(c, r, d, l)
  {
    var c' := RemoveArchive(price, c, run, medium, dle);
    RemoveArchiveKeepsShape(price, c, run, medium, dle);
    DleHeldByCopies(c', run, dle);
    RunHeldByCopies(c', run);
    var i := EntryAt(c.entries, run);
    if i < |c.entries| {
      EntryAfterPrune(price, c, run, medium, dle, r);
      KeptContentAt(c.entries[i].run.archives, dle, d, l);
    }
  }

  // ---------------------------------------------------------------- dropping a copy

  lemma {:induction false} CopyAfterDrop(placements: seq<Placement>, medium: string, m: string)
    ensures CopyOn(KeepMedia(placements, medium), m) == if m == medium then [] else CopyOn(placements, m)
  {
    if placements != [] {
      var p, rest := placements[0], placements[1..];
      assert placements == [p] + rest;
      CopyAfterDrop(rest, medium, m);
      CopyOnCons(p, rest, m);
      if p.medium != medium { CopyOnCons(p, KeepMedia(rest, medium), m); }
    }
  }

  lemma CopyOnCons(p: Placement, rest: seq<Placement>, m: string)
    ensures CopyOn([p] + rest, m) == if p.medium == m then p.archives else CopyOn(rest, m)
  {
    assert ([p] + rest)[1..] == rest;
  }

  /** Dropping a run's copy on a medium changes the records of that copy and no other. */
  lemma DropCopyView(price: Pricing, c: Cat, run: string, medium: string, r: string, m: string, d: string, l: int)
    ensures PlacedIn(RemovePlacement(price, c, run, medium), r, m, d, l) ==
      if r == run && m == medium then None else PlacedIn(c, r, m, d, l)
  {
    var i := EntryAt(c.entries, run);
    if i < |c.entries| {
      var e := c.entries[i];
      var kept := KeepMedia(e.placements, medium);
      CopyAfterDrop(e.placements, medium, m);
      if kept == [] {
        EntryAfterDrop(c.entries, run, r);
      } else {
        EntryAfterPut(c.entries, e.(placements := kept), r);
      }
    }
  }

  // ---------------------------------------------------------------- dropping a wiped reel's records

  lemma FreshCons(pa: PlacedArchive, rest: seq<PlacedArchive>, lbl: Label)
    ensures Fresh([pa] + rest, lbl) == if Stale(pa, lbl) then Fresh(rest, lbl) else [pa] + Fresh(rest, lbl)
  {
    assert ([pa] + rest)[1..] == rest;
  }

  /** x as long as it is not stale. */
  function Unstale(x: Option<PlacedArchive>, lbl: Label): Option<PlacedArchive>
  {
    if x.Some? && Stale(x.value, lbl) then None else x
  }

  lemma {:induction false} FreshAt(archives: seq<PlacedArchive>, lbl: Label, dle: string, level: int)
    requires OneRecordPerKey(archives)
    ensures FirstPlaced(Fresh(archives, lbl), dle, level) == Unstale(FirstPlaced(archives, dle, level), lbl)
  {
    if archives != [] {
      var pa, rest := archives[0], archives[1..];
      assert archives == [pa] + rest;
      FreshAt(rest, lbl, dle, level);
      FreshCons(pa, rest, lbl);
      FirstPlacedCons(pa, rest, dle, level);
      FirstPlacedCons(pa, Fresh(rest, lbl), dle, level);
      if pa.dle == dle && pa.level == level {
        forall i | 0 <= i < |rest| ensures !(rest[i].dle == dle && rest[i].level == level) { assert rest[i] == archives[i + 1]; }
        assert FirstPlaced(rest, dle, level) == None;
      }
    }
  }

  lemma {:induction false} NoCopyHere(placements: seq<Placement>, m: string)
    requires forall i :: 0 <= i < |placements| ==> placements[i].medium != m
    ensures CopyOn(placements, m) == []
  {
  }

  lemma {:induction false} FreshCopyOn(placements: seq<Placement>, lbl: Label, m: string)
    requires OneCopyPerMedium(placements)
    ensures CopyOn(FreshPlacements(placements, lbl), m) == Fresh(CopyOn(placements, m), lbl)
  {
    if placements != [] {
      var p, rest := placements[0], placements[1..];
      var kept, others := Fresh(p.archives, lbl), FreshPlacements(rest, lbl);
      assert placements == [p] + rest && [] + others == others;
      FreshCopyOn(rest, lbl, m);
      CopyOnCons(p, rest, m);
      CopyOnCons(Placement(p.medium, kept), others, m);
      if p.medium == m {
        forall i | 0 <= i < |rest| ensures rest[i].medium != m { assert rest[i] == placements[i + 1]; }
        NoCopyHere(rest, m);
      }
    }
  }

  lemma {:induction false} FreshEntryAt(entries: seq<Entry>, lbl: Label, run: string)
    requires OneEntryPerRun(entries)
    ensures FirstEntry(FreshEntries(entries, lbl), run) ==
      (match FirstEntry(entries, run)
       case None => None
       case Some(e) =>
         var kept := FreshPlacements(e.placements, lbl);
         if kept == [] then None else Some(Entry(e.run, kept)))
  {
    if entries != [] {
      var e, rest := entries[0], entries[1..];
      var kept, others := FreshPlacements(e.placements, lbl), FreshEntries(rest, lbl);
      assert entries == [e] + rest && [] + others == others;
      FreshEntryAt(rest, lbl, run);
      FirstEntryCons(e, rest, run);
      FirstEntryCons(Entry(e.run, kept), others, run);
      if e.run.id == run {
        forall i | 0 <= i < |rest| ensures rest[i].run.id != run { assert rest[i] == entries[i + 1]; }
      }
    }
  }

  lemma CopyAfterDropStale(price: Pricing, c: Cat, lbl: Label, run: string, m: string)
    requires WellShaped(c)
    ensures CopyOn(EntryOf(DropStaleOn(price, c, lbl), run).placements, m) == Fresh(CopyOn(EntryOf(c, run).placements, m), lbl)
  {
    FreshEntryAt(c.entries, lbl, run);
    ShapeOfEntry(c, run);
    FreshCopyOn(EntryOf(c, run).placements, lbl, m);
  }

  lemma CopyIsOneRecordPerKey(c: Cat, run: string, m: string)
    requires WellShaped(c)
    ensures OneRecordPerKey(CopyOn(EntryOf(c, run).placements, m))
  {
    var n := EntryAt(c.entries, run);
    if n < |c.entries| {
      var e := c.entries[n];
      assert EntryShape(e);
      var j := PlacementAt(e.placements, m);
      if j < |e.placements| { assert CopyShape(e.run, e.placements[j]); }
    }
  }

  /** Dropping a wiped reel's records takes away exactly the stale ones. */
  lemma DropStaleView(price: Pricing, c: Cat, lbl: Label, run: string, m: string, dle: string, level: int)
    requires WellShaped(c)
    ensures PlacedIn(DropStaleOn(price, c, lbl), run, m, dle, level) == Unstale(PlacedIn(c, run, m, dle, level), lbl)
  {
    CopyAfterDropStale(price, c, lbl, run, m);
    CopyIsOneRecordPerKey(c, run, m);
    FreshAt(CopyOn(EntryOf(c, run).placements, m), lbl, dle, level);
  }

  /** A file of the record: a part, its footer, or its index if it has one. */
  predicate FileOf(pa: PlacedArchive, fp: FilePos)
  {
    fp in pa.parts || fp == pa.commit || (fp == pa.index && fp.volume != "")
  }

  /** A record goes exactly when one of its files lies on the label at another epoch; every other
      record stays as it is. */
  lemma DropStaleByFile(price: Pricing, c: Cat, lbl: Label, run: string, m: string, dle: string, level: int)
    requires WellShaped(c)
    ensures var was, now := PlacedIn(c, run, m, dle, level), PlacedIn(DropStaleOn(price, c, lbl), run, m, dle, level);
      && (now == None || now == was)
      && (was.Some? ==>
            (now == None <==> exists fp :: FileOf(was.value, fp) && fp.volume == lbl.name && fp.epoch != lbl.epoch))
  {
    DropStaleView(price, c, lbl, run, m, dle, level);
    var was := PlacedIn(c, run, m, dle, level);
    if was.Some? {
      var pa := was.value;
      if i :| 0 <= i < |pa.parts| && StaleRef(pa.parts[i], lbl) { assert FileOf(pa, pa.parts[i]); }
      assert FileOf(pa, pa.commit);
      if fp :| FileOf(pa, fp) && fp.volume == lbl.name && fp.epoch != lbl.epoch { assert StaleRef(fp, lbl); }
    }
  }

  /** What content is left is as it was. */
  lemma DropStaleContent(price: Pricing, c: Cat, lbl: Label, run: string, dle: string, level: int)
    requires WellShaped(c)
    ensures ContentIn(DropStaleOn(price, c, lbl), run, dle, level) in {None, ContentIn(c, run, dle, level)}
  {
    FreshEntryAt(c.entries, lbl, run);
  }
}
