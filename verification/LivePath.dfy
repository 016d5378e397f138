/** The catalog a run leaves behind: the mutators the program calls at each step of a medium's
    life, against the records that life says there are, and against a rebuild. */
module LivePath {
  import opened Records
  import opened Entries
  import opened Scan
  import opened Orphans
  import opened Store
  import opened Lifecycle
  import opened CrashSafety
  import opened CatalogState
  import opened CatalogShape
  import opened CatalogView
  import opened RemovalView
  import opened Confluence
  import FillHistory

  /** One scan of an address-identified medium: what it assembles, and no labels. */
  ghost function StoreIndex(medium: string, s: State): MediumIndex
  {
    var acc := ScanNow(s);
    EnumerationExists(acc.commits.Keys);
    var keys :| Enumerates(keys, acc.commits.Keys);
    MediumIndex(GroupAll(medium, acc, keys).Output(), [], StrayLabels(acc, acc.parts.Keys))
  }

  /** What a step does to the catalog: a recorded commit is added, a finished reclaim removes
      its archive, a rebuild absorbs a scan, a lost cache starts over. */
  ghost function Live(price: Pricing, medium: string, c: Cat, s: State, op: Op): Cat
    requires Enabled(s, op)
  {
    match op
    case Record(key) =>
      var result := s.writers[key].sealed.value;
      AddArchive(price, c, result.footer, medium, result.Pos())
    case Forget(key) => RemoveArchive(price, c, key.run, medium, key.dle)
    case LoseCatalog => NOTHING_YET
    case Rebuild(full) => Rescan(price, if full then NOTHING_YET else c, StoreIndex(medium, s))
    case _ => c
  }

  /** The catalog after a whole run of steps. */
  ghost function LiveAfter(price: Pricing, medium: string, c: Cat, s: State, ops: seq<Op>): Cat
    decreases |ops|
  {
    if ops == [] || !Enabled(s, ops[0]) then c
    else LiveAfter(price, medium, Live(price, medium, c, s, ops[0]), Apply(s, ops[0]), ops[1..])
  }

  // ---------------------------------------------------------------- the catalog holds the records

  /** The record of key on the medium. */
  function RecordAt(c: Cat, medium: string, key: ArchiveKey): Option<PlacedArchive>
  {
    PlacedIn(c, key.run, medium, key.dle, key.level)
  }

  function Lookup<T>(m: map<ArchiveKey, T>, key: ArchiveKey): Option<T> { if key in m then Some(m[key]) else None }

  /** The catalog's copies are exactly these records on this medium. */
  ghost predicate Mirrors(c: Cat, medium: string, records: map<ArchiveKey, PlacedArchive>)
  {
    && WellShaped(c) && c.volumes == map[]
    && (forall key :: RecordAt(c, medium, key) == Lookup(records, key))
    && (forall run, m, dle, level :: PlacedIn(c, run, m, dle, level).Some? ==> m == medium)
  }

  /** The catalog's copies are exactly this moment's records. */
  ghost predicate MirrorsNow(c: Cat, medium: string, s: State)
  {
    match s
    case State(_, _, _, _, _, _, catalog, _) => Mirrors(c, medium, catalog)
  }

  lemma EmptyMirrors(medium: string)
    ensures Mirrors(NOTHING_YET, medium, map[])
  {
  }

  lemma AddMirrors(price: Pricing, c: Cat, medium: string, records: map<ArchiveKey, PlacedArchive>, arch: Archive, pos: ArchivePos)
    requires Mirrors(c, medium, records)
    ensures Mirrors(AddArchive(price, c, arch, medium, pos), medium, records[arch.Key() := Place(arch, pos)])
  {
    var c' := AddArchive(price, c, arch, medium, pos);
    AddKeepsShape(price, c, arch, medium, pos);
    forall key ensures RecordAt(c', medium, key) == Lookup(records[arch.Key() := Place(arch, pos)], key) {
      AddView(price, c, arch, medium, pos, key.run, medium, key.dle, key.level);
      assert RecordAt(c, medium, key) == Lookup(records, key);
    }
    forall run, m, dle, level | PlacedIn(c', run, m, dle, level).Some? ensures m == medium {
      AddView(price, c, arch, medium, pos, run, m, dle, level);
    }
  }

  function WithoutKey(records: map<ArchiveKey, PlacedArchive>, key: ArchiveKey): map<ArchiveKey, PlacedArchive>
  {
    map k | k in records && !SameDle(k, key) :: records[k]
  }

  lemma {:induction false} NoVolumesStay(price: Pricing, medium: string, run: Run, dropped: seq<PlacedArchive>)
    ensures GiveBack(price, map[], medium, run, dropped) == map[]
    decreases |dropped|
  {
    if dropped != [] {
      assert Settle(price, map[], medium, run, [], [dropped[0]]) == map[];
      NoVolumesStay(price, medium, run, dropped[1..]);
    }
  }

  lemma RemoveMirrors(price: Pricing, c: Cat, medium: string, records: map<ArchiveKey, PlacedArchive>, key: ArchiveKey)
    requires Mirrors(c, medium, records)
    ensures Mirrors(RemoveArchive(price, c, key.run, medium, key.dle), medium, WithoutKey(records, key))
  {
    var c' := RemoveArchive(price, c, key.run, medium, key.dle);
    RemoveArchiveKeepsShape(price, c, key.run, medium, key.dle);
    forall k ensures RecordAt(c', medium, k) == Lookup(WithoutKey(records, key), k) {
      PruneView(price, c, key.run, medium, key.dle, k.run, medium, k.dle, k.level);
      assert RecordAt(c, medium, k) == Lookup(records, k);
    }
    forall run, m, dle, level | PlacedIn(c', run, m, dle, level).Some? ensures m == medium {
      PruneView(price, c, key.run, medium, key.dle, run, m, dle, level);
    }
    var i := EntryAt(c.entries, key.run);
    if i < |c.entries| {
      NoVolumesStay(price, medium, c.entries[i].run, OfDle(CopyOn(c.entries[i].placements, medium), key.dle));
    }
  }

  // ---------------------------------------------------------------- absorbing a scan of the store

  lemma StoreSpeaksTrue(s: State)
    requires Holding(s.files, s.next, s.committed)
    ensures KeysSpeakTrue(ScanNow(s)) && ScanNow(s).commits.Keys == s.committed.Keys
    ensures forall k :: k in s.committed ==> Content(ScanNow(s), k) == s.committed[k].footer
  {
    var acc := ScanNow(s);
    forall k ensures k in acc.commits <==> k in s.committed { ScanFindsWhole(s.files, s.next, s.committed, k); }
    forall k | k in s.committed ensures Content(acc, k) == s.committed[k].footer && s.committed[k].footer.Key() == k {
      ScanFindsWhole(s.files, s.next, s.committed, k);
      assert Whole(s.files, k, s.committed[k]);
    }
  }

  /** What absorbing a scan of the store calls for each archive. */
  lemma StoreFinds(medium: string, s: State, key: ArchiveKey)
    requires Holding(s.files, s.next, s.committed)
    ensures ScanShaped(StoreIndex(medium, s).placements, medium)
    ensures var acc := ScanNow(s);
      FoundIn(StoreIndex(medium, s).placements, key.run, key.dle, key.level) ==
        if key in acc.commits then Some(Call(Content(acc, key), Placed(acc, key).Pos())) else None
  {
    var acc := ScanNow(s);
    StoreSpeaksTrue(s);
    EnumerationExists(acc.commits.Keys);
    forall keys | Enumerates(keys, acc.commits.Keys)
      ensures ScanShaped(GroupAll(medium, acc, keys).Output(), medium)
      ensures FoundIn(GroupAll(medium, acc, keys).Output(), key.run, key.dle, key.level) ==
        if key in acc.commits then Some(Call(Content(acc, key), Placed(acc, key).Pos())) else None
    {
      GroupAllExact(medium, acc, keys);
      GroupScanShaped(GroupAll(medium, acc, keys), medium, acc, keys);
      GroupFinds(GroupAll(medium, acc, keys), medium, acc, keys, key.run, key.dle, key.level);
    }
  }

  /** A rescan of the store records its committed archives and leaves the rest alone. */
  lemma RescanReads(price: Pricing, medium: string, c: Cat, s: State, run: string, m: string, dle: string, level: int)
    requires Holding(s.files, s.next, s.committed)
    ensures var c' := Rescan(price, c, StoreIndex(medium, s)); var key := ArchiveKey(run, dle, level);
      && PlacedIn(c', run, m, dle, level) == (if m == medium && key in Rebuilt(s) then Some(Rebuilt(s)[key]) else PlacedIn(c, run, m, dle, level))
      && ContentIn(c', run, dle, level) == (if key in s.committed then Some(Stripped(s.committed[key].footer)) else ContentIn(c, run, dle, level))
  {
    StoreSpeaksTrue(s);
    StoreFinds(medium, s, ArchiveKey(run, dle, level));
    AbsorbRunsView(price, c, StoreIndex(medium, s).placements, medium, run, m, dle, level);
  }

  lemma {:induction false} AbsorbKeepsNoVolumes(price: Pricing, c: Cat, out: seq<RunPlacement>)
    requires c.volumes == map[]
    ensures AbsorbRuns(price, c, out).volumes == map[]
  {
    FillHistory.AbsorbKeepsRegistry(price, c, out);
  }

  lemma RescanMirrors(price: Pricing, medium: string, c: Cat, records: map<ArchiveKey, PlacedArchive>, s: State)
    requires Holding(s.files, s.next, s.committed) && Mirrors(c, medium, records)
    ensures Mirrors(Rescan(price, c, StoreIndex(medium, s)), medium, records + Rebuilt(s))
  {
    var c' := Rescan(price, c, StoreIndex(medium, s));
    RescanKeepsShape(price, c, StoreIndex(medium, s));
    AbsorbKeepsNoVolumes(price, c, StoreIndex(medium, s).placements);
    RebuiltIsCommitted(s);
    forall key ensures RecordAt(c', medium, key) == Lookup(records + Rebuilt(s), key) {
      RescanReads(price, medium, c, s, key.run, medium, key.dle, key.level);
      assert ArchiveKey(key.run, key.dle, key.level) == key;
      assert RecordAt(c, medium, key) == Lookup(records, key);
    }
    forall run, m, dle, level | PlacedIn(c', run, m, dle, level).Some? ensures m == medium {
      RescanReads(price, medium, c, s, run, m, dle, level);
    }
  }

  // ---------------------------------------------------------------- every step, every run

  lemma SealedFooterIsOwn(s: State, key: ArchiveKey)
    requires Holding(s.files, s.next, s.committed) && WritersOK(s) && Enabled(s, Record(key))
    ensures key in s.committed && s.writers[key].sealed.value == s.committed[key] && s.committed[key].footer.Key() == key
  {
    assert WriterOK(s, key);
    assert Whole(s.files, key, s.committed[key]);
  }

  lemma RecordMirrors(price: Pricing, medium: string, c: Cat, s: State, key: ArchiveKey)
    requires Inv(s) && Enabled(s, Record(key)) && MirrorsNow(c, medium, s)
    ensures MirrorsNow(Live(price, medium, c, s, Record(key)), medium, Apply(s, Record(key)))
  {
    SealedFooterIsOwn(s, key);
    AddMirrors(price, c, medium, s.catalog, s.committed[key].footer, s.committed[key].Pos());
  }

  lemma ForgetMirrors(price: Pricing, medium: string, c: Cat, s: State, key: ArchiveKey)
    requires Enabled(s, Forget(key)) && MirrorsNow(c, medium, s)
    ensures MirrorsNow(Live(price, medium, c, s, Forget(key)), medium, Apply(s, Forget(key)))
  {
    RemoveMirrors(price, c, medium, s.catalog, key);
  }

  lemma AbsorbMirrors(price: Pricing, medium: string, c: Cat, s: State)
    requires Holding(s.files, s.next, s.committed) && Enabled(s, Rebuild(false)) && MirrorsNow(c, medium, s)
    ensures MirrorsNow(Live(price, medium, c, s, Rebuild(false)), medium, Apply(s, Rebuild(false)))
  {
    hide Mirrors;
    RescanMirrors(price, medium, c, s.catalog, s);
  }

  lemma AnewMirrors(price: Pricing, medium: string, c: Cat, s: State)
    requires Holding(s.files, s.next, s.committed) && Enabled(s, Rebuild(true))
    ensures MirrorsNow(Live(price, medium, c, s, Rebuild(true)), medium, Apply(s, Rebuild(true)))
  {
    hide Mirrors;
    hide Lists;
    hide Rebuilt;
    hide Rescan;
    hide StoreIndex;
    FromNothing(price, medium, s);
  }

  lemma RebuildMirrors(price: Pricing, medium: string, c: Cat, s: State, full: bool)
    requires Inv(s) && Enabled(s, Rebuild(full)) && MirrorsNow(c, medium, s)
    ensures MirrorsNow(Live(price, medium, c, s, Rebuild(full)), medium, Apply(s, Rebuild(full)))
  {
    if full {
      AnewMirrors(price, medium, c, s);
    } else {
      AbsorbMirrors(price, medium, c, s);
    }
  }

  lemma LoseMirrors(price: Pricing, medium: string, c: Cat, s: State)
    requires Enabled(s, LoseCatalog)
    ensures MirrorsNow(Live(price, medium, c, s, LoseCatalog), medium, Apply(s, LoseCatalog))
  {
    EmptyMirrors(medium);
  }

  lemma OtherMirrors(price: Pricing, medium: string, c: Cat, s: State, op: Op)
    requires Enabled(s, op) && !TouchesCatalog(op) && MirrorsNow(c, medium, s)
    ensures MirrorsNow(Live(price, medium, c, s, op), medium, Apply(s, op))
  {
    RecordsStand(s, op);
  }

  lemma StepMirrors(price: Pricing, medium: string, c: Cat, s: State, op: Op)
    requires Inv(s) && Enabled(s, op) && MirrorsNow(c, medium, s)
    ensures MirrorsNow(Live(price, medium, c, s, op), medium, Apply(s, op))
  {
    hide Live;
    hide Apply;
    hide Enabled;
    hide Inv;
    if TouchesCatalog(op) {
      match op
      case Record(key) => RecordMirrors(price, medium, c, s, key);
      case Forget(key) => ForgetMirrors(price, medium, c, s, key);
      case LoseCatalog => LoseMirrors(price, medium, c, s);
      case Rebuild(full) => RebuildMirrors(price, medium, c, s, full);
    } else {
      OtherMirrors(price, medium, c, s, op);
    }
  }

  lemma {:induction false} RunMirrors(price: Pricing, medium: string, c: Cat, s: State, ops: seq<Op>, t: State)
    requires Inv(s) && Leads(s, ops, t) && CarefulRun(s, ops) && MirrorsNow(c, medium, s)
    ensures MirrorsNow(LiveAfter(price, medium, c, s, ops), medium, t)
    decreases |ops|
  {
    if ops != [] {
      StepKeeps(s, ops[0]);
      StepMirrors(price, medium, c, s, ops[0]);
      RunMirrors(price, medium, Live(price, medium, c, s, ops[0]), Apply(s, ops[0]), ops[1..], t);
    }
  }

  /** After any careful run, crashes and lost catalogs included, the catalog's copies are
      exactly the records the medium's life says there are. */
  lemma CatalogMirrors(price: Pricing, medium: string, ops: seq<Op>, t: State)
    requires Leads(EMPTY, ops, t) && CarefulRun(EMPTY, ops)
    ensures MirrorsNow(LiveAfter(price, medium, NOTHING_YET, EMPTY, ops), medium, t)
  {
    EmptyHolds();
    EmptyMirrors(medium);
    RunMirrors(price, medium, NOTHING_YET, EMPTY, ops, t);
  }

  // ---------------------------------------------------------------- content, when nothing goes wrong

  function ContentAt(c: Cat, key: ArchiveKey): Option<Archive> { ContentIn(c, key.run, key.dle, key.level) }

  ghost predicate Listed(c: Cat, records: map<ArchiveKey, PlacedArchive>, committed: Ledger, key: ArchiveKey)
  {
    && (ContentAt(c, key).Some? <==> key in records)
    && (key in records && key in committed ==> ContentAt(c, key) == Some(Stripped(committed[key].footer)))
  }

  /** The runs list exactly the recorded archives, each committed one as its footer has it. */
  ghost predicate Lists(c: Cat, records: map<ArchiveKey, PlacedArchive>, committed: Ledger)
  {
    forall key :: Listed(c, records, committed, key)
  }

  /** The catalog's runs list what this moment's records say. */
  ghost predicate ListsNow(c: Cat, s: State)
  {
    match s
    case State(_, _, _, _, _, _, catalog, committed) => Lists(c, catalog, committed)
  }

  lemma AddLists(price: Pricing, medium: string, c: Cat, records: map<ArchiveKey, PlacedArchive>, committed: Ledger, key: ArchiveKey, pa: PlacedArchive, pos: ArchivePos)
    requires Lists(c, records, committed) && key in committed && committed[key].footer.Key() == key
    ensures Lists(AddArchive(price, c, committed[key].footer, medium, pos), records[key := pa], committed)
  {
    var c' := AddArchive(price, c, committed[key].footer, medium, pos);
    var records' := records[key := pa];
    forall k ensures Listed(c', records', committed, k) {
      assert Listed(c, records, committed, k);
      AddView(price, c, committed[key].footer, medium, pos, k.run, medium, k.dle, k.level);
    }
  }

  lemma RecordLists(price: Pricing, medium: string, c: Cat, s: State, key: ArchiveKey)
    requires Inv(s) && Enabled(s, Record(key)) && ListsNow(c, s)
    ensures ListsNow(Live(price, medium, c, s, Record(key)), Apply(s, Record(key)))
  {
    SealedFooterIsOwn(s, key);
    var r := s.committed[key];
    AddLists(price, medium, c, s.catalog, s.committed, key, Place(r.footer, r.Pos()), r.Pos());
  }

  lemma PrunedContent(price: Pricing, medium: string, c: Cat, records: map<ArchiveKey, PlacedArchive>, key: ArchiveKey, k: ArchiveKey)
    requires Mirrors(c, medium, records) && (ContentAt(c, k).Some? <==> k in records)
    ensures ContentAt(RemoveArchive(price, c, key.run, medium, key.dle), k) == if SameDle(k, key) then None else ContentAt(c, k)
  {
    var c' := RemoveArchive(price, c, key.run, medium, key.dle);
    RemoveMirrors(price, c, medium, records, key);
    PruneContent(price, c, key.run, medium, key.dle, k.run, k.dle, k.level);
    if SameDle(k, key) {
      forall m, level ensures PlacedIn(c', key.run, m, key.dle, level).None? {
        var other := ArchiveKey(key.run, key.dle, level);
        assert RecordAt(c', medium, other) == Lookup(WithoutKey(records, key), other);
      }
    } else if k in records {
      assert RecordAt(c', medium, k) == Lookup(WithoutKey(records, key), k);
      assert DleHeld(c', k.run, k.dle);
    }
  }

  lemma ForgetLists(price: Pricing, medium: string, c: Cat, records: map<ArchiveKey, PlacedArchive>, committed: Ledger, key: ArchiveKey)
    requires Mirrors(c, medium, records) && Lists(c, records, committed)
    ensures Lists(RemoveArchive(price, c, key.run, medium, key.dle), WithoutKey(records, key), committed)
  {
    var c' := RemoveArchive(price, c, key.run, medium, key.dle);
    var left := WithoutKey(records, key);
    forall k ensures Listed(c', left, committed, k) {
      assert Listed(c, records, committed, k);
      PrunedContent(price, medium, c, records, key, k);
    }
  }

  lemma RebuildLists(price: Pricing, medium: string, c: Cat, records: map<ArchiveKey, PlacedArchive>, s: State)
    requires Holding(s.files, s.next, s.committed) && Lists(c, records, s.committed)
    ensures Lists(Rescan(price, c, StoreIndex(medium, s)), records + Rebuilt(s), s.committed)
  {
    var c' := Rescan(price, c, StoreIndex(medium, s));
    RebuiltIsCommitted(s);
    var records' := records + Rebuilt(s);
    forall k ensures Listed(c', records', s.committed, k) {
      assert Listed(c, records, s.committed, k);
      RescanReads(price, medium, c, s, k.run, medium, k.dle, k.level);
      assert ArchiveKey(k.run, k.dle, k.level) == k;
    }
  }

  lemma RebuildStepLists(price: Pricing, medium: string, c: Cat, s: State, full: bool)
    requires Inv(s) && Enabled(s, Rebuild(full)) && ListsNow(c, s)
    ensures ListsNow(Live(price, medium, c, s, Rebuild(full)), Apply(s, Rebuild(full)))
  {
    if full {
      FromNothing(price, medium, s);
    } else {
      RebuildLists(price, medium, c, s.catalog, s);
    }
    hide Lists;
    hide Rebuilt;
  }

  /** The steps after which the catalog is a different one. */
  predicate TouchesCatalog(op: Op) { op.Record? || op.Forget? || op.LoseCatalog? || op.Rebuild? }

  /** The steps that change what is committed. */
  predicate TouchesLedger(op: Op) { op.PutFooter? || op.RemoveOne? || op.SweepOne? }

  /** The other steps leave the records alone ... */
  lemma RecordsStand(s: State, op: Op)
    requires Enabled(s, op) && !TouchesCatalog(op)
    ensures Apply(s, op).catalog == s.catalog
  {
  }

  lemma LedgerStands(s: State, op: Op)
    requires Enabled(s, op) && !TouchesLedger(op)
    ensures Apply(s, op).committed == s.committed
  {
  }

  /** Nothing recorded is committed anew or differently. */
  ghost predicate NoneAnew(records: map<ArchiveKey, PlacedArchive>, before: Ledger, after: Ledger)
  {
    forall k :: k in after && k in records ==> k in before && after[k] == before[k]
  }

  lemma FooterCommitsUnrecorded(s: State, key: ArchiveKey, meta: Archive)
    requires InStep(s) && Enabled(s, PutFooter(key, meta))
    ensures NoneAnew(s.catalog, s.committed, Apply(s, PutFooter(key, meta)).committed)
  {
  }

  lemma RemovalCommitsNothing(s: State, p: int)
    ensures NoneAnew(s.catalog, s.committed, Remove(s, p).committed)
  {
  }

  /** ... and re-commit nothing that is recorded. */
  lemma LedgerMoves(s: State, op: Op)
    requires InStep(s) && Enabled(s, op) && TouchesLedger(op)
    ensures NoneAnew(s.catalog, s.committed, Apply(s, op).committed)
  {
    match op
    case PutFooter(key, meta) => FooterCommitsUnrecorded(s, key, meta);
    case RemoveOne(key) => RemovalCommitsNothing(s, s.reclaims[key][0]);
    case SweepOne(refused) => RemovalCommitsNothing(s, s.sweep[0]);
  }

  lemma StillLists(c: Cat, records: map<ArchiveKey, PlacedArchive>, before: Ledger, after: Ledger)
    requires Lists(c, records, before) && NoneAnew(records, before, after)
    ensures Lists(c, records, after)
  {
    forall k ensures Listed(c, records, after, k) { assert Listed(c, records, before, k); }
  }

  lemma OtherStepLists(price: Pricing, medium: string, c: Cat, s: State, op: Op)
    requires InStep(s) && Enabled(s, op) && !TouchesCatalog(op) && ListsNow(c, s)
    ensures ListsNow(Live(price, medium, c, s, op), Apply(s, op))
  {
    RecordsStand(s, op);
    if TouchesLedger(op) { LedgerMoves(s, op); } else { LedgerStands(s, op); }
    StillLists(c, s.catalog, s.committed, Apply(s, op).committed);
  }

  lemma ForgetStepLists(price: Pricing, medium: string, c: Cat, s: State, key: ArchiveKey)
    requires Enabled(s, Forget(key)) && MirrorsNow(c, medium, s) && ListsNow(c, s)
    ensures ListsNow(Live(price, medium, c, s, Forget(key)), Apply(s, Forget(key)))
  {
    ForgetLists(price, medium, c, s.catalog, s.committed, key);
  }

  lemma CatalogStepLists(price: Pricing, medium: string, c: Cat, s: State, op: Op)
    requires Inv(s) && Enabled(s, op) && TouchesCatalog(op) && !op.LoseCatalog? && MirrorsNow(c, medium, s) && ListsNow(c, s)
    ensures ListsNow(Live(price, medium, c, s, op), Apply(s, op))
  {
    hide Live;
    hide Apply;
    hide Enabled;
    hide Inv;
    match op
    case Record(key) => RecordLists(price, medium, c, s, key);
    case Forget(key) => ForgetStepLists(price, medium, c, s, key);
    case Rebuild(full) => RebuildStepLists(price, medium, c, s, full);
  }

  lemma StepLists(price: Pricing, medium: string, c: Cat, s: State, op: Op)
    requires Inv(s) && InStep(s) && Enabled(s, op) && !op.LoseCatalog? && MirrorsNow(c, medium, s) && ListsNow(c, s)
    ensures ListsNow(Live(price, medium, c, s, op), Apply(s, op))
  {
    if TouchesCatalog(op) {
      CatalogStepLists(price, medium, c, s, op);
    } else {
      OtherStepLists(price, medium, c, s, op);
    }
  }

  lemma {:induction false} OrderlyRunLists(price: Pricing, medium: string, c: Cat, s: State, ops: seq<Op>, t: State)
    requires Inv(s) && InStep(s) && Leads(s, ops, t) && OrderlyRun(s, ops)
    requires MirrorsNow(c, medium, s) && ListsNow(c, s)
    ensures var c' := LiveAfter(price, medium, c, s, ops); MirrorsNow(c', medium, t) && ListsNow(c', t)
    decreases |ops|
  {
    if ops != [] {
      OrderlyStep(s, ops[0]);
      StepKeeps(s, ops[0]);
      StepMirrors(price, medium, c, s, ops[0]);
      StepLists(price, medium, c, s, ops[0]);
      OrderlyRunLists(price, medium, Live(price, medium, c, s, ops[0]), Apply(s, ops[0]), ops[1..], t);
    }
  }

  /** Two catalogs mirroring the same records of committed archives read the same. */
  lemma SameReading(a: Cat, b: Cat, medium: string, records: map<ArchiveKey, PlacedArchive>, committed: Ledger)
    requires Mirrors(a, medium, records) && Lists(a, records, committed)
    requires Mirrors(b, medium, records) && Lists(b, records, committed)
    requires records.Keys == committed.Keys
    ensures SameUpToOrder(a, b)
  {
    forall run, m, dle, level ensures PlacedIn(a, run, m, dle, level) == PlacedIn(b, run, m, dle, level) {
      var key := ArchiveKey(run, dle, level);
      assert RecordAt(a, medium, key) == Lookup(records, key) == RecordAt(b, medium, key);
    }
    forall run, dle, level ensures ContentIn(a, run, dle, level) == ContentIn(b, run, dle, level) {
      var key := ArchiveKey(run, dle, level);
      assert Listed(a, records, committed, key) && Listed(b, records, committed, key);
    }
  }

  lemma FromNothing(price: Pricing, medium: string, t: State)
    requires Holding(t.files, t.next, t.committed)
    ensures var rebuilt := Rescan(price, NOTHING_YET, StoreIndex(medium, t));
      Mirrors(rebuilt, medium, Rebuilt(t)) && Lists(rebuilt, Rebuilt(t), t.committed)
  {
    EmptyMirrors(medium);
    assert Lists(NOTHING_YET, map[], t.committed);
    assert map[] + Rebuilt(t) == Rebuilt(t);
    RescanMirrors(price, medium, NOTHING_YET, map[], t);
    RebuildLists(price, medium, NOTHING_YET, map[], t);
  }

  /** Rebuild refines the live path: after any run without crashes, once nothing is in hand, a
      rebuild from nothing reads exactly as the catalog the adds and removals left behind. */
  lemma RebuildAgreesWithLive(price: Pricing, medium: string, ops: seq<Op>, t: State)
    requires Leads(EMPTY, ops, t) && OrderlyRun(EMPTY, ops) && Quiet(t)
    ensures SameUpToOrder(LiveAfter(price, medium, NOTHING_YET, EMPTY, ops), Rescan(price, NOTHING_YET, StoreIndex(medium, t)))
  {
    EmptyHolds();
    EmptyMirrors(medium);
    OrderlyRunKeeps(EMPTY, ops, t);
    OrderlyRunLists(price, medium, NOTHING_YET, EMPTY, ops, t);
    RebuiltIsCatalog(t);
    QuietCatalog(t);
    FromNothing(price, medium, t);
    SameReading(LiveAfter(price, medium, NOTHING_YET, EMPTY, ops), Rescan(price, NOTHING_YET, StoreIndex(medium, t)), medium, t.catalog, t.committed);
  }
}
