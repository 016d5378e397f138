/** The catalog object: entries, volume registry, stored fill and usage ledger, mutated in
    place. Every mutator is proved against the value it turns the contents into. */
module CatalogStore {
  import opened Records
  import opened Entries
  import opened Scan
  import opened CatalogState
  import opened FillLedger
  import opened CatalogShape
  import opened CatalogView
  import opened RemovalView
  import opened Order
  import opened Usage

  // ---------------------------------------------------------------- lookups and list merges

  method FindEntry(entries: seq<Entry>, run: string) returns (i: nat)
    ensures i == EntryAt(entries, run)
  {
    i := 0;
    while i < |entries| && entries[i].run.id != run
      invariant i <= |entries|
      invariant forall j :: 0 <= j < i ==> entries[j].run.id != run
    {
      i := i + 1;
    }
  }

  method FindArchive(archives: seq<Archive>, dle: string, level: int) returns (i: nat)
    ensures i == ArchiveAt(archives, dle, level)
  {
    i := 0;
    while i < |archives| && !(archives[i].dle == dle && archives[i].level == level)
      invariant i <= |archives|
      invariant forall j :: 0 <= j < i ==> !(archives[j].dle == dle && archives[j].level == level)
    {
      i := i + 1;
    }
  }

  method FindPlaced(placed: seq<PlacedArchive>, dle: string, level: int) returns (i: nat)
    ensures i == PlacedAt(placed, dle, level)
  {
    i := 0;
    while i < |placed| && !(placed[i].dle == dle && placed[i].level == level)
      invariant i <= |placed|
      invariant forall j :: 0 <= j < i ==> !(placed[j].dle == dle && placed[j].level == level)
    {
      i := i + 1;
    }
  }

  method FindPlacement(placements: seq<Placement>, medium: string) returns (i: nat)
    ensures i == PlacementAt(placements, medium)
  {
    i := 0;
    while i < |placements| && placements[i].medium != medium
      invariant i <= |placements|
      invariant forall j :: 0 <= j < i ==> placements[j].medium != medium
    {
      i := i + 1;
    }
  }

  /** Merges a into a run's content: overwrites its slot, or goes at the end. */
  method MergeContent(archives: seq<Archive>, a: Archive) returns (r: seq<Archive>)
    ensures r == PutArchive(archives, a)
  {
    for i := 0 to |archives|
      invariant forall j :: 0 <= j < i ==> !(archives[j].dle == a.dle && archives[j].level == a.level)
    {
      if archives[i].dle == a.dle && archives[i].level == a.level {
        return archives[i := a];
      }
    }
    r := archives + [a];
  }

  /** Drops a DLE's archives from a run's content. */
  method DropContent(archives: seq<Archive>, dle: string) returns (kept: seq<Archive>)
    ensures kept == DropArchives(archives, dle)
  {
    kept := [];
    for i := 0 to |archives|
      invariant kept + DropArchives(archives[i..], dle) == DropArchives(archives, dle)
    {
      assert archives[i..][1..] == archives[i + 1..];
      if archives[i].dle != dle {
        kept := kept + [archives[i]];
      }
    }
    assert archives[|archives|..] == [];
  }

  method MergePlaced(list: seq<PlacedArchive>, pa: PlacedArchive) returns (r: seq<PlacedArchive>)
    ensures r == PutPlaced(list, pa)
  {
    for i := 0 to |list|
      invariant forall j :: 0 <= j < i ==> !(list[j].dle == pa.dle && list[j].level == pa.level)
    {
      if list[i].dle == pa.dle && list[i].level == pa.level {
        return list[i := pa];
      }
    }
    r := list + [pa];
  }

  /** Records pa on the copy on medium, starting that copy when there is none. */
  method AddPlaced(placements: seq<Placement>, medium: string, pa: PlacedArchive) returns (r: seq<Placement>)
    ensures r == PutOnMedium(placements, medium, pa)
  {
    for i := 0 to |placements|
      invariant forall j :: 0 <= j < i ==> placements[j].medium != medium
    {
      if placements[i].medium == medium {
        var list := MergePlaced(placements[i].archives, pa);
        return placements[i := Placement(medium, list)];
      }
    }
    r := placements + [Placement(medium, [pa])];
  }

  method AnyHolds(placements: seq<Placement>, dle: string) returns (held: bool)
    ensures held == AnyPlacementHolds(placements, dle)
  {
    held := false;
    for i := 0 to |placements|
      invariant held == exists k :: 0 <= k < i && HoldsDle(placements[k], dle)
    {
      for j := 0 to |placements[i].archives|
        invariant held == ((exists k :: 0 <= k < i && HoldsDle(placements[k], dle)) ||
                           (exists m :: 0 <= m < j && placements[i].archives[m].dle == dle))
      {
        if placements[i].archives[j].dle == dle {
          held := true;
        }
      }
    }
  }

  // ---------------------------------------------------------------- accumulating charges

  function Amount(delta: map<string, int>, l: string): int { if l in delta then delta[l] else 0 }

  function Bump(delta: map<string, int>, lab: string, n: int): map<string, int>
  {
    if lab == "" then delta else delta[lab := Amount(delta, lab) + n]
  }

  /** A charge that arrives (coming) or leaves. */
  function Signed(coming: bool, n: int): int { if coming then n else -n }

  /** After i parts the accumulated charge of l is the whole less what the rest will add. */
  ghost predicate SealedSoFar(cost: FileCost, pa: PlacedArchive, coming: bool, delta: map<string, int>, r: map<string, int>, i: nat, l: string)
    requires |pa.seals| == |pa.parts| && i <= |pa.parts|
  {
    l != "" ==>
      Amount(r, l) + Signed(coming, PartsCharge(cost, pa.parts[i..], pa.seals[i..], l)) ==
      Amount(delta, l) + Signed(coming, PartsCharge(cost, pa.parts, pa.seals, l))
  }

  lemma SealedStep(cost: FileCost, pa: PlacedArchive, coming: bool, delta: map<string, int>, r: map<string, int>, i: nat, l: string)
    requires |pa.seals| == |pa.parts| && i < |pa.parts| && SealedSoFar(cost, pa, coming, delta, r, i, l)
    ensures SealedSoFar(cost, pa, coming, delta, Bump(r, pa.parts[i].volume, Signed(coming, cost(ArchivePart, pa.seals[i].size))), i + 1, l)
  {
    assert pa.parts[i..][1..] == pa.parts[i + 1..] && pa.seals[i..][1..] == pa.seals[i + 1..];
  }

  method ChargeSealed(cost: FileCost, pa: PlacedArchive, coming: bool, delta: map<string, int>) returns (r: map<string, int>)
    requires |pa.seals| == |pa.parts| && "" !in delta
    ensures "" !in r
    ensures forall l :: l != "" ==> Amount(r, l) == Amount(delta, l) + Signed(coming, PartsCharge(cost, pa.parts, pa.seals, l))
  {
    r := delta;
    for i := 0 to |pa.parts|
      invariant "" !in r
      invariant forall l: string :: SealedSoFar(cost, pa, coming, delta, r, i, l)
    {
      ghost var before := r;
      r := Bump(r, pa.parts[i].volume, Signed(coming, cost(ArchivePart, pa.seals[i].size)));
      ghost var next := i + 1;
      forall l: string ensures SealedSoFar(cost, pa, coming, delta, r, next, l) {
        assert SealedSoFar(cost, pa, coming, delta, before, i, l);
        SealedStep(cost, pa, coming, delta, before, i, l);
      }
    }
    forall l | l != "" ensures Amount(r, l) == Amount(delta, l) + Signed(coming, PartsCharge(cost, pa.parts, pa.seals, l)) {
      assert SealedSoFar(cost, pa, coming, delta, r, |pa.parts|, l);
      assert pa.parts[|pa.parts|..] == [];
    }
  }

  method ChargeWhole(cost: FileCost, parts: seq<FilePos>, compressed: int, coming: bool, delta: map<string, int>) returns (r: map<string, int>)
    requires "" !in delta
    ensures "" !in r
    ensures forall l :: l != "" ==> Amount(r, l) == Amount(delta, l) + Signed(coming, WholeCharge(cost, parts, compressed, l))
  {
    r := delta;
    var i := 0;
    while i < |parts| && parts[i].volume == ""
      invariant i <= |parts|
      invariant forall l :: WholeCharge(cost, parts[i..], compressed, l) == WholeCharge(cost, parts, compressed, l)
    {
      assert parts[i..][1..] == parts[i + 1..];
      i := i + 1;
    }
    if i < |parts| {
      r := Bump(r, parts[i].volume, Signed(coming, cost(ArchivePart, compressed)));
      assert parts[i..][0] == parts[i];
    }
  }

  method ChargePayload(cost: FileCost, arch: Archive, pa: PlacedArchive, coming: bool, delta: map<string, int>) returns (r: map<string, int>)
    requires "" !in delta
    ensures "" !in r
    ensures forall l :: l != "" ==> Amount(r, l) == Amount(delta, l) + Signed(coming, PayloadCharge(cost, arch, pa, l))
  {
    if |pa.seals| == |pa.parts| && |pa.parts| > 0 {
      r := ChargeSealed(cost, pa, coming, delta);
    } else {
      r := ChargeWhole(cost, pa.parts, arch.compressed, coming, delta);
    }
  }

  lemma BumpAmount(delta: map<string, int>, lab: string, n: int, l: string)
    requires "" !in delta
    ensures "" !in Bump(delta, lab, n)
    ensures Amount(Bump(delta, lab, n), l) == Amount(delta, l) + if lab == l && l != "" then n else 0
  {
  }

  /** Accumulates the charges of one placed archive being recorded or dropped. */
  method ChargeFill(price: Pricing, medium: string, run: Run, pa: PlacedArchive, coming: bool, delta: map<string, int>) returns (r: map<string, int>)
    requires "" !in delta
    ensures "" !in r
    ensures forall l :: Amount(r, l) == Amount(delta, l) + Signed(coming, Charge(price, medium, run, pa, l))
  {
    hide PayloadCharge;
    r := delta;
    var rule := price(medium);
    if rule.Some? {
      var cost := rule.value;
      var i := FindArchive(run.archives, pa.dle, pa.level);
      var arch := if i < |run.archives| then run.archives[i] else NO_ARCHIVE;
      assert arch == ArchiveOf(run, pa.dle, pa.level);
      r := ChargePayload(cost, arch, pa, coming, r);
      ghost var withPayload := r;
      r := Bump(r, pa.commit.volume, Signed(coming, cost(CommitFooter, 0)));
      ghost var withCommit := r;
      r := Bump(r, pa.index.volume, Signed(coming, cost(MemberIndex, arch.indexSize)));
      hide ArchiveOf;
      forall l ensures Amount(r, l) == Amount(delta, l) + Signed(coming, ChargeWith(cost, arch, pa, l)) {
        BumpAmount(withPayload, pa.commit.volume, Signed(coming, cost(CommitFooter, 0)), l);
        BumpAmount(withCommit, pa.index.volume, Signed(coming, cost(MemberIndex, arch.indexSize)), l);
        hide Bump;
      }
      BumpAmount(withPayload, pa.commit.volume, Signed(coming, cost(CommitFooter, 0)), "");
      BumpAmount(withCommit, pa.index.volume, Signed(coming, cost(MemberIndex, arch.indexSize)), "");
    }
  }

  function NetCharge(price: Pricing, placements: seq<Placement>, medium: string, run: Run, pa: PlacedArchive, l: string): int
  {
    FillArchives(price, medium, run, [pa], l) - FillArchives(price, medium, run, Replaced(placements, medium, pa.dle, pa.level), l)
  }

  /** The net charges of one record replacing another, or arriving where there was none. */
  method ReplaceCharges(price: Pricing, placements: seq<Placement>, medium: string, run: Run, pa: PlacedArchive) returns (delta: map<string, int>)
    ensures forall l :: Amount(delta, l) == NetCharge(price, placements, medium, run, pa, l)
  {
    delta := map[];
    var p := FindPlacement(placements, medium);
    if p < |placements| {
      var k := FindPlaced(placements[p].archives, pa.dle, pa.level);
      if k < |placements[p].archives| {
        delta := ChargeFill(price, medium, run, placements[p].archives[k], false, delta);
      }
    }
    ghost var out := Replaced(placements, medium, pa.dle, pa.level);
    forall l ensures Amount(delta, l) == 0 - FillArchives(price, medium, run, out, l) {
      if out != [] { FillOne(price, medium, run, out[0], l); assert out == [out[0]]; }
    }
    delta := ChargeFill(price, medium, run, pa, true, delta);
    forall l { FillOne(price, medium, run, pa, l); }
  }

  // ---------------------------------------------------------------- reporting what a rebuild could not resolve

  /** A run whose parts were scanned without their footer, and the labels holding them. */
  datatype OrphanRun = OrphanRun(run: string, labels: set<string>)

  datatype RebuildReport = RebuildReport(runs: nat, orphans: seq<OrphanRun>)

  predicate ByRun(a: OrphanRun, b: OrphanRun) { StrLess(a.run, b.run) }

  lemma ByRunOrders()
    ensures StrictWeakOrder(ByRun)
  {
    forall a: OrphanRun ensures !ByRun(a, a) { StrLessIrreflexive(a.run); }
    forall a: OrphanRun, b: OrphanRun, c: OrphanRun | ByRun(a, b) && ByRun(b, c) ensures ByRun(a, c) { StrLessTransitive(a.run, b.run, c.run); }
    forall a: OrphanRun, b: OrphanRun, c: OrphanRun | !ByRun(a, b) && !ByRun(b, c) ensures !ByRun(a, c) {
      StrLessTotal(a.run, b.run);
      StrLessTotal(b.run, c.run);
      StrLessIrreflexive(a.run);
      if ByRun(a, c) {
        if a.run != b.run && b.run != c.run {
          StrLessTransitive(c.run, b.run, a.run);
          StrLessTransitive(a.run, c.run, a.run);
        }
      }
    }
  }

  ghost predicate ReportedBy(idx: MediumIndex, o: OrphanRun) { o.run in idx.orphans && o.labels == idx.orphans[o.run] }

  /** Some scan met the run's parts, on these labels, without their footer. */
  ghost predicate Reported(scans: seq<MediumIndex>, o: OrphanRun)
  {
    exists i :: 0 <= i < |scans| && ReportedBy(scans[i], o)
  }

  method ListOrphans(idx: MediumIndex) returns (found: seq<OrphanRun>)
    ensures forall o :: o in found <==> ReportedBy(idx, o)
  {
    found := [];
    var todo := idx.orphans.Keys;
    while todo != {}
      invariant todo <= idx.orphans.Keys
      invariant forall o :: o in found <==> ReportedBy(idx, o) && o.run !in todo
      decreases |todo|
    {
      var run :| run in todo;
      found, todo := found + [OrphanRun(run, idx.orphans[run])], todo - {run};
    }
  }

  method GatherOrphans(scans: seq<MediumIndex>) returns (reported: seq<OrphanRun>)
    ensures forall o :: o in reported <==> Reported(scans, o)
  {
    reported := [];
    for i := 0 to |scans|
      invariant forall o :: o in reported <==> Reported(scans[..i], o)
    {
      var found := ListOrphans(scans[i]);
      ghost var before, after := scans[..i], scans[..i + 1];
      assert after == before + [scans[i]];
      forall o ensures Reported(after, o) <==> Reported(before, o) || ReportedBy(scans[i], o) {
        if Reported(before, o) { var k :| 0 <= k < |before| && ReportedBy(before[k], o); assert after[k] == before[k]; }
        if ReportedBy(scans[i], o) { assert after[i] == scans[i]; }
      }
      reported := reported + found;
    }
    assert scans[..|scans|] == scans;
  }

  /** The reported runs no entry indexes. */
  method Unresolved(reported: seq<OrphanRun>, entries: seq<Entry>) returns (unresolved: seq<OrphanRun>)
    ensures forall o :: o in unresolved <==> o in reported && EntryAt(entries, o.run) == |entries|
  {
    unresolved := [];
    for i := 0 to |reported|
      invariant forall o :: o in unresolved <==> o in reported[..i] && EntryAt(entries, o.run) == |entries|
    {
      var n := FindEntry(entries, reported[i].run);
      if n == |entries| {
        unresolved := unresolved + [reported[i]];
      }
    }
    assert reported[..|reported|] == reported;
  }

  // ---------------------------------------------------------------- the object

  class Catalog {
    var entries: seq<Entry>
    var volumes: map<string, VolumeRecord>
    var usage: seq<Sample>
    var usageLast: map<string, int>
    const price: Pricing

    function Contents(): Cat
      reads this
    {
      Cat(entries, volumes)
    }

    ghost predicate Valid()
      reads this
    {
      WellShaped(Contents()) && LedgerOK(usage, usageLast)
    }

    constructor (price: Pricing)
      ensures Valid() && Contents() == Cat([], map[]) && this.price == price
    {
      this.price := price;
      entries, volumes, usage, usageLast := [], map[], [], map[];
    }

    /** Applies accumulated charges to the registered volumes, flooring at zero. */
    method SettleFill(delta: map<string, int>)
      modifies this`volumes
      ensures volumes == map l | l in old(volumes) :: old(volumes)[l].(used := Floor(old(volumes)[l].used + Amount(delta, l)))
    {
      var todo := delta.Keys;
      while todo != {}
        invariant todo <= delta.Keys
        invariant volumes.Keys == old(volumes).Keys
        invariant forall l :: l in volumes && l in delta && l !in todo ==>
          volumes[l] == old(volumes)[l].(used := Floor(old(volumes)[l].used + delta[l]))
        invariant forall l :: l in volumes && !(l in delta && l !in todo) ==> volumes[l] == old(volumes)[l]
        decreases |todo|
      {
        var l :| l in todo;
        if l in volumes {
          volumes := volumes[l := volumes[l].(used := Floor(volumes[l].used + delta[l]))];
        }
        todo := todo - {l};
      }
    }

    method ApplyFill(medium: string, run: Run, pa: PlacedArchive)
      modifies this`volumes
      ensures volumes == Settle(price, old(volumes), medium, run, [], [pa])
    {
      var delta := ChargeFill(price, medium, run, pa, false, map[]);
      SettleFill(delta);
      forall l { FillOne(price, medium, run, pa, l); }
    }

    /** One settlement for a record that replaces another: an unchanged one nets zero. */
    method SettleReplace(placements: seq<Placement>, medium: string, run: Run, pa: PlacedArchive)
      modifies this`volumes
      ensures volumes == Settle(price, old(volumes), medium, run, [pa], Replaced(placements, medium, pa.dle, pa.level))
    {
      var delta := ReplaceCharges(price, placements, medium, run, pa);
      SettleFill(delta);
    }

    /** The single in-memory write path: merge the content, replace or add the placement, and
        move the stored fill by both records in one settlement. */
    method AddInMemory(arch: Archive, medium: string, pos: ArchivePos)
      modifies this`entries, this`volumes
      ensures Contents() == CatalogState.AddArchive(price, old(Contents()), arch, medium, pos)
    {
      var i := FindEntry(entries, arch.run);
      var e := if i < |entries| then entries[i] else Entry(Run(arch.run, []), []);
      var seals := arch.partSeals;
      if |seals| != |pos.parts| {
        seals := [];
      }
      var content := arch.(members := [], units := [], frames := [], partSeals := [], partMap := [], indexPos := NO_FILE);
      var archives := MergeContent(e.run.archives, content);
      var run := Run(arch.run, archives);
      var pa := PlacedArchive(arch.dle, arch.level, pos.parts, seals, pos.commit, pos.index);
      SettleReplace(e.placements, medium, run, pa);
      var placements := AddPlaced(e.placements, medium, pa);
      assert pa == Place(arch, pos) && content == Stripped(arch);
      entries := if i < |entries| then entries[i := Entry(run, placements)] else entries + [Entry(run, placements)];
    }

    /** A sample for each medium whose stored bytes are not what its last sample says. */
    method ChangedSamples(totals: map<string, Total>, at: int) returns (changed: seq<Sample>)
      ensures SamplesChanges(changed, totals, usageLast, at)
    {
      var names := totals.Keys + usageLast.Keys;
      changed := [];
      var todo := names;
      while todo != {}
        invariant todo <= names
        invariant forall i :: 0 <= i < |changed| ==>
          changed[i] == Sample(at, changed[i].medium, At(totals, changed[i].medium).bytes, At(totals, changed[i].medium).runs)
        invariant forall m :: (m in ChangedMedia(totals, usageLast) && m !in todo) <==> exists i :: 0 <= i < |changed| && changed[i].medium == m
        invariant forall i, j :: 0 <= i < j < |changed| ==> changed[i].medium != changed[j].medium
        decreases |todo|
      {
        var m :| m in todo;
        var t := if m in totals then totals[m] else NOTHING;
        todo := todo - {m};
        if !(m in usageLast && usageLast[m] == t.bytes) {
          assert m in ChangedMedia(totals, usageLast);
          ghost var was := changed;
          changed := changed + [Sample(at, m, t.bytes, t.runs)];
          assert changed[|was|].medium == m;
          assert forall i :: 0 <= i < |was| ==> changed[i] == was[i];
        }
      }
    }

    /** Diffs every medium's stored bytes against its last sample and appends what changed.
        A failed append leaves the ledger alone. */
    method RecordUsage(at: int, appended: bool)
      requires Valid()
      modifies this`usage, this`usageLast
      ensures Valid()
      ensures !appended ==> usage == old(usage) && usageLast == old(usageLast)
      ensures appended ==> old(usage) <= usage && SamplesChanges(usage[|old(usage)|..], MediumTotals(entries), old(usageLast), at)
      ensures appended ==> forall i :: |old(usage)| <= i < |usage| ==> LastUsed(old(usage), usage[i].medium) != Some(usage[i].used)
      ensures appended ==> Truthful()
    {
      hide WellShaped;
      var totals := OnePassTotals(entries);
      var changed := ChangedSamples(totals, at);
      if appended {
        forall m { RecordedIsTrue(Contents(), usage, usageLast, changed, at, m); }
        OnlyChangesSampled(usage, usageLast, changed, totals, at);
        AppendSamples(changed, totals);
        assert usage[|old(usage)|..] == changed;
      }
    }

    method AppendSamples(changed: seq<Sample>, ghost totals: map<string, Total>)
      requires LedgerOK(usage, usageLast)
      requires forall i :: 0 <= i < |changed| ==> changed[i].used == At(totals, changed[i].medium).bytes
      modifies this`usage, this`usageLast
      ensures usage == old(usage) + changed && LedgerOK(usage, usageLast)
    {
      assert usage + changed[..0] == usage;
      for i := 0 to |changed|
        invariant LedgerOK(usage + changed[..i], usageLast) && usage == old(usage)
      {
        ghost var before := usage + changed[..i];
        ghost var after := usage + changed[..i + 1];
        assert after[..|after| - 1] == before && after[|after| - 1] == changed[i];
        usageLast := usageLast[changed[i].medium := changed[i].used];
      }
      assert changed[..|changed|] == changed;
      usage := usage + changed;
    }

    /** Adds one committed archive and persists. */
    method AddArchive(arch: Archive, medium: string, pos: ArchivePos, at: int, appended: bool)
      requires Valid()
      modifies this
      ensures Valid() && Contents() == CatalogState.AddArchive(price, old(Contents()), arch, medium, pos)
      ensures PlacedIn(Contents(), arch.run, medium, arch.dle, arch.level) ==
        Some(PlacedArchive(arch.dle, arch.level, pos.parts, if |arch.partSeals| == |pos.parts| then arch.partSeals else [], pos.commit, pos.index))
      ensures ContentIn(Contents(), arch.run, arch.dle, arch.level) ==
        Some(arch.(members := [], units := [], frames := [], partSeals := [], partMap := [], indexPos := NO_FILE))
      ensures appended ==> Truthful()
    {
      AddKeepsShape(price, Contents(), arch, medium, pos);
      AddView(price, Contents(), arch, medium, pos, arch.run, medium, arch.dle, arch.level);
      AddInMemory(arch, medium, pos);
      RecordUsage(at, appended);
    }

    /** The last sample of every medium is its stored bytes; a medium never sampled is empty. */
    ghost predicate Truthful()
      reads this
    {
      forall m :: match LastUsed(usage, m)
        case Some(n) => n == StoredBytes(entries, m)
        case None => RunsOn(entries, m) == 0
    }

    /** Gives one copy's archives back to their reels. */
    method ApplyAll(medium: string, run: Run, dropped: seq<PlacedArchive>)
      modifies this`volumes
      ensures volumes == GiveBack(price, old(volumes), medium, run, dropped)
    {
      for i := 0 to |dropped|
        invariant GiveBack(price, volumes, medium, run, dropped[i..]) == GiveBack(price, old(volumes), medium, run, dropped)
      {
        assert dropped[i..][1..] == dropped[i + 1..];
        ApplyFill(medium, run, dropped[i]);
      }
      assert dropped[|dropped|..] == [];
    }

    method DropCopies(placements: seq<Placement>, medium: string, run: Run) returns (kept: seq<Placement>)
      modifies this`volumes
      ensures kept == KeepMedia(placements, medium)
      ensures volumes == GiveBack(price, old(volumes), medium, run, OnMedium(placements, medium))
    {
      kept := [];
      for i := 0 to |placements|
        invariant kept + KeepMedia(placements[i..], medium) == KeepMedia(placements, medium)
        invariant GiveBack(price, volumes, medium, run, OnMedium(placements[i..], medium)) ==
                  GiveBack(price, old(volumes), medium, run, OnMedium(placements, medium))
      {
        assert placements[i..][1..] == placements[i + 1..];
        var p := placements[i];
        if p.medium != medium {
          kept := kept + [p];
          assert [] + OnMedium(placements[i + 1..], medium) == OnMedium(placements[i + 1..], medium);
        } else {
          GiveBackAppend(price, volumes, medium, run, p.archives, OnMedium(placements[i + 1..], medium));
          ApplyAll(medium, run, p.archives);
        }
      }
      assert placements[|placements|..] == [];
    }

    /** Drops the copy of a run on one medium; with the last copy the entry goes. */
    method RemovePlacement(run: string, medium: string, at: int, appended: bool) returns (gone: bool)
      requires Valid()
      modifies this
      ensures Valid() && Contents() == CatalogState.RemovePlacement(price, old(Contents()), run, medium)
      ensures gone <==> EntryAt(old(entries), run) < |old(entries)| && EntryAt(entries, run) == |entries|
      ensures appended && EntryAt(old(entries), run) < |old(entries)| ==> Truthful()
    {
      RemovePlacementKeepsShape(price, Contents(), run, medium);
      var i := FindEntry(entries, run);
      if i == |entries| {
        return false;
      }
      var e := entries[i];
      var kept := DropCopies(e.placements, medium, e.run);
      gone := kept == [];
      if gone {
        DropEntryRemoves(entries, run);
        entries := RemoveEntry(entries, run);
      } else {
        entries := entries[i := e.(placements := kept)];
        assert entries[i].run.id == run;
      }
      RecordUsage(at, appended);
    }

    method CutDle(archives: seq<PlacedArchive>, medium: string, dle: string, run: Run) returns (kept: seq<PlacedArchive>)
      modifies this`volumes
      ensures kept == KeepDles(archives, dle)
      ensures volumes == GiveBack(price, old(volumes), medium, run, OfDle(archives, dle))
    {
      kept := [];
      for i := 0 to |archives|
        invariant kept + KeepDles(archives[i..], dle) == KeepDles(archives, dle)
        invariant GiveBack(price, volumes, medium, run, OfDle(archives[i..], dle)) ==
                  GiveBack(price, old(volumes), medium, run, OfDle(archives, dle))
      {
        assert archives[i..][1..] == archives[i + 1..];
        var rest := OfDle(archives[i + 1..], dle);
        if archives[i].dle != dle {
          kept := kept + [archives[i]];
          assert [] + rest == rest;
        } else {
          assert ([archives[i]] + rest)[1..] == rest;
          ApplyFill(medium, run, archives[i]);
        }
      }
      assert archives[|archives|..] == [];
    }

    /** Takes the DLE's image out of one entry's copy on medium, and the copy with it when that
        leaves it empty; content no copy holds any more goes too. */
    method PruneEntry(e: Entry, medium: string, dle: string)
      returns (kept: seq<Placement>, content: seq<Archive>, emptied: bool)
      modifies this`volumes
      ensures kept == WithoutDle(e.placements, medium, dle)
      ensures content == ContentLeft(e.run, kept, dle).archives
      ensures emptied <==> exists k :: 0 <= k < |CutCopies(e.placements, medium, dle)| && CutCopies(e.placements, medium, dle)[k].archives == []
      ensures volumes == GiveBack(price, old(volumes), medium, e.run, OfDle(CopyOn(e.placements, medium), dle))
    {
      var placements := e.placements;
      var j := FindPlacement(placements, medium);
      if j < |placements| {
        var cut := CutDle(placements[j].archives, medium, dle, e.run);
        placements := placements[j := Placement(medium, cut)];
      }
      assert placements == CutCopies(e.placements, medium, dle);
      kept, emptied := DropEmpty(placements);
      var held := AnyHolds(kept, dle);
      content := e.run.archives;
      if !held {
        content := DropContent(content, dle);
      }
    }

    /** Drops one DLE's image from the copy of a run on one medium; an empty copy goes with it,
        an entry without copies goes too, and content no copy holds any more is dropped. */
    method RemoveInMemory(run: string, medium: string, dle: string) returns (placementGone: bool, entryGone: bool)
      requires WellShaped(Contents()) && EntryAt(entries, run) < |entries|
      modifies this`entries, this`volumes
      ensures Contents() == CatalogState.RemoveArchive(price, old(Contents()), run, medium, dle)
      ensures placementGone <==>
        CopyOn(EntryOf(old(Contents()), run).placements, medium) != [] && CopyOn(EntryOf(Contents(), run).placements, medium) == []
      ensures entryGone <==> EntryAt(entries, run) == |entries|
    {
      hide WellShaped;
      CopyGone(price, Contents(), run, medium, dle);
      var i := FindEntry(entries, run);
      var e := entries[i];
      var kept, content;
      kept, content, placementGone := PruneEntry(e, medium, dle);
      entryGone := kept == [];
      if entryGone {
        DropEntryRemoves(entries, run);
        entries := RemoveEntry(entries, run);
      } else {
        entries := entries[i := Entry(Run(e.run.id, content), kept)];
        assert entries[i].run.id == run;
      }
    }

    /** Drops one DLE's image and persists. */
    method RemoveArchive(run: string, medium: string, dle: string, at: int, appended: bool)
      returns (placementGone: bool, entryGone: bool)
      requires Valid()
      modifies this
      ensures Valid() && Contents() == CatalogState.RemoveArchive(price, old(Contents()), run, medium, dle)
      ensures placementGone <==>
        CopyOn(EntryOf(old(Contents()), run).placements, medium) != [] && CopyOn(EntryOf(Contents(), run).placements, medium) == []
      ensures entryGone <==> EntryAt(old(entries), run) < |old(entries)| && EntryAt(entries, run) == |entries|
      ensures appended && EntryAt(old(entries), run) < |old(entries)| ==> Truthful()
    {
      RemoveArchiveKeepsShape(price, Contents(), run, medium, dle);
      placementGone, entryGone := false, false;
      var i := FindEntry(entries, run);
      if i == |entries| {
        return;
      }
      hide WellShaped;
      placementGone, entryGone := RemoveInMemory(run, medium, dle);
      RecordUsage(at, appended);
    }

    /** What already recorded placements hold against a label only now entering the registry. */
    method RetroFill(lab: string) returns (used: nat)
      ensures used == FillOn(price, entries, lab)
    {
      used := 0;
      for i := 0 to |entries|
        invariant used + FillOn(price, entries[i..], lab) == FillOn(price, entries, lab)
      {
        assert entries[i..][1..] == entries[i + 1..];
        var e := entries[i];
        ghost var before := used;
        for j := 0 to |e.placements|
          invariant used + FillPlacements(price, e.run, e.placements[j..], lab) == before + FillPlacements(price, e.run, e.placements, lab)
        {
          assert e.placements[j..][1..] == e.placements[j + 1..];
          var sum := CopyFill(e.placements[j], e.run, lab);
          used := used + sum;
        }
        assert e.placements[|e.placements|..] == [];
      }
      assert entries[|entries|..] == [];
    }

    method CopyFill(p: Placement, run: Run, lab: string) returns (sum: nat)
      ensures sum == FillArchives(price, p.medium, run, p.archives, lab)
    {
      sum := 0;
      for k := 0 to |p.archives|
        invariant sum + FillArchives(price, p.medium, run, p.archives[k..], lab) == FillArchives(price, p.medium, run, p.archives, lab)
      {
        assert p.archives[k..][1..] == p.archives[k + 1..];
        var delta := ChargeFill(price, p.medium, run, p.archives[k], true, map[]);
        assert Amount(delta, lab) == Charge(price, p.medium, run, p.archives[k], lab);
        sum := sum + Amount(delta, lab);
      }
      assert p.archives[|p.archives|..] == [];
    }

    /** Records a labeled volume: a same-epoch record keeps its fill, a relabel restarts it at
        the label file, and a first sight settles what is already recorded against it. */
    method UpsertVolume(lbl: Label)
      modifies this`volumes
      ensures Contents() == CatalogState.UpsertVolume(price, old(Contents()), lbl)
      ensures lbl.name in volumes && volumes[lbl.name].lbl == lbl
      ensures var labelCost := match price(lbl.pool) case None => 0 case Some(cost) => cost(VolumeLabel, 0);
        volumes[lbl.name].used ==
          if lbl.name !in old(volumes) then labelCost + FillOn(price, entries, lbl.name)
          else if old(volumes)[lbl.name].lbl.epoch == lbl.epoch then old(volumes)[lbl.name].used
          else labelCost
    {
      var rule := price(lbl.pool);
      var start: nat := if rule.Some? then rule.value(VolumeLabel, 0) else 0;
      var rec := VolumeRecord(lbl, "", start);
      if lbl.name in volumes {
        var was := volumes[lbl.name];
        rec := rec.(barcode := was.barcode);
        if was.lbl.epoch == lbl.epoch {
          rec := rec.(used := was.used);
        }
      } else {
        var retro := RetroFill(lbl.name);
        rec := rec.(used := start + retro);
      }
      volumes := volumes[lbl.name := rec];
    }

    method RecordVolume(lbl: Label, at: int, appended: bool)
      requires Valid()
      modifies this
      ensures Valid() && Contents() == CatalogState.UpsertVolume(price, old(Contents()), lbl)
    {
      UpsertVolume(lbl);
      RecordUsage(at, appended);
    }

    method RemoveVolume(name: string, at: int, appended: bool)
      requires Valid()
      modifies this
      ensures Valid() && Contents() == CatalogState.RemoveVolume(old(Contents()), name)
    {
      if name in volumes {
        volumes := volumes - {name};
        RecordUsage(at, appended);
      } else {
        assert volumes - {name} == volumes;
      }
    }

    method DropStaleFrom(p: Placement, run: Run, lbl: Label) returns (kept: seq<PlacedArchive>)
      modifies this`volumes
      ensures kept == Fresh(p.archives, lbl)
      ensures volumes == GiveBack(price, old(volumes), p.medium, run, StaleOnes(p.archives, lbl))
    {
      hide Stale;
      hide Settle;
      kept := [];
      for i := 0 to |p.archives|
        invariant kept + Fresh(p.archives[i..], lbl) == Fresh(p.archives, lbl)
        invariant GiveBack(price, volumes, p.medium, run, StaleOnes(p.archives[i..], lbl)) ==
                  GiveBack(price, old(volumes), p.medium, run, StaleOnes(p.archives, lbl))
      {
        assert p.archives[i..][1..] == p.archives[i + 1..];
        var rest := StaleOnes(p.archives[i + 1..], lbl);
        var stale := IsStale(p.archives[i], lbl);
        if stale {
          assert ([p.archives[i]] + rest)[1..] == rest;
          ApplyFill(p.medium, run, p.archives[i]);
        } else {
          assert [] + rest == rest;
          kept := kept + [p.archives[i]];
        }
      }
      assert p.archives[|p.archives|..] == [];
    }

    method DropStalePlacements(e: Entry, lbl: Label) returns (kept: seq<Placement>)
      modifies this`volumes
      ensures kept == FreshPlacements(e.placements, lbl)
      ensures volumes == GiveBackPlacements(price, old(volumes), e.run, e.placements, lbl)
    {
      hide Fresh;
      hide StaleOnes;
      hide GiveBack;
      kept := [];
      for i := 0 to |e.placements|
        invariant kept + FreshPlacements(e.placements[i..], lbl) == FreshPlacements(e.placements, lbl)
        invariant GiveBackPlacements(price, volumes, e.run, e.placements[i..], lbl) ==
                  GiveBackPlacements(price, old(volumes), e.run, e.placements, lbl)
      {
        assert e.placements[i..][1..] == e.placements[i + 1..];
        var archives := DropStaleFrom(e.placements[i], e.run, lbl);
        ghost var before, rest := kept, FreshPlacements(e.placements[i + 1..], lbl);
        var head := if |archives| > 0 then [Placement(e.placements[i].medium, archives)] else [];
        kept := kept + head;
        assert FreshPlacements(e.placements[i..], lbl) == head + rest;
        assert (before + head) + rest == before + (head + rest);
      }
      assert e.placements[|e.placements|..] == [];
    }

    /** Removes every record naming the label at another epoch than the reel now carries. */
    method DropStaleOn(lbl: Label)
      modifies this`entries, this`volumes
      ensures Contents() == CatalogState.DropStaleOn(price, old(Contents()), lbl)
    {
      hide Fresh;
      hide StaleOnes;
      hide GiveBack;
      hide FreshPlacements;
      hide GiveBackPlacements;
      var kept: seq<Entry> := [];
      for i := 0 to |entries|
        invariant entries == old(entries)
        invariant kept + FreshEntries(entries[i..], lbl) == FreshEntries(entries, lbl)
        invariant GiveBackEntries(price, volumes, entries[i..], lbl) == GiveBackEntries(price, old(volumes), entries, lbl)
      {
        assert entries[i..][1..] == entries[i + 1..];
        var placements := DropStalePlacements(entries[i], lbl);
        ghost var before, rest := kept, FreshEntries(entries[i + 1..], lbl);
        var head := if |placements| > 0 then [Entry(entries[i].run, placements)] else [];
        kept := kept + head;
        assert FreshEntries(entries[i..], lbl) == head + rest;
        assert (before + head) + rest == before + (head + rest);
      }
      assert entries[|entries|..] == [];
      entries := kept;
    }

    /** Merges one medium's scan: its labels first, so that each absorbed placement is charged
        to a registered reel, then every archive through the one write path. */
    method Absorb(idx: MediumIndex)
      modifies this`entries, this`volumes
      ensures Contents() == CatalogState.Absorb(price, old(Contents()), idx)
    {
      for i := 0 to |idx.labels|
        invariant UpsertAll(price, Contents(), idx.labels[i..]) == UpsertAll(price, old(Contents()), idx.labels)
      {
        assert idx.labels[i..][1..] == idx.labels[i + 1..];
        UpsertVolume(idx.labels[i]);
      }
      assert idx.labels[|idx.labels|..] == [];
      ghost var start := Contents();
      for i := 0 to |idx.placements|
        invariant AbsorbRuns(price, Contents(), idx.placements[i..]) == AbsorbRuns(price, start, idx.placements)
      {
        assert idx.placements[i..][1..] == idx.placements[i + 1..];
        AbsorbRun(idx.placements[i]);
      }
      assert idx.placements[|idx.placements|..] == [];
    }

    method AbsorbRun(sp: RunPlacement)
      modifies this`entries, this`volumes
      ensures Contents() == AbsorbArchives(price, old(Contents()), sp.p, sp.run.archives)
    {
      var archives := sp.run.archives;
      for j := 0 to |archives|
        invariant AbsorbArchives(price, Contents(), sp.p, archives[j..]) == AbsorbArchives(price, old(Contents()), sp.p, archives)
      {
        assert archives[j..][1..] == archives[j + 1..];
        var k := FindPlaced(sp.p.archives, archives[j].dle, archives[j].level);
        if k < |sp.p.archives| {
          AddInMemory(archives[j], sp.p.medium, sp.p.archives[k].Pos());
        }
      }
      assert archives[|archives|..] == [];
    }

    /** Rescans media into the catalog: additively, or from nothing when full. Reports the runs
        now indexed and, in order, those whose parts were seen but which no footer indexes. */
    method Rebuild(scans: seq<MediumIndex>, full: bool, at: int, appended: bool) returns (report: RebuildReport)
      requires Valid()
      modifies this
      ensures Valid()
      ensures Contents() == RescanAll(price, if full then Cat([], map[]) else old(Contents()), scans)
      ensures appended ==> Truthful()
      ensures report.runs == |entries|
      ensures forall o :: o in report.orphans <==> Reported(scans, o) && EntryAt(entries, o.run) == |entries|
      ensures Sorted(report.orphans, ByRun)
    {
      if full {
        entries, volumes := [], map[];
      }
      ghost var start := Contents();
      for i := 0 to |scans|
        invariant RescanAll(price, Contents(), scans[i..]) == RescanAll(price, start, scans)
        invariant Valid()
      {
        assert scans[i..][1..] == scans[i + 1..];
        RescanKeepsShape(price, Contents(), scans[i]);
        RescanOne(scans[i]);
      }
      assert scans[|scans|..] == [];
      RecordUsage(at, appended);
      var reported := GatherOrphans(scans);
      var unresolved := Unresolved(reported, entries);
      ByRunOrders();
      SortSorts(unresolved, ByRun);
      SortKeepsElements(unresolved, ByRun);
      report := RebuildReport(|entries|, Sort(unresolved, ByRun));
    }

    method RescanOne(idx: MediumIndex)
      modifies this`entries, this`volumes
      ensures Contents() == Rescan(price, old(Contents()), idx)
    {
      for i := 0 to |idx.labels|
        invariant DropStaleAll(price, Contents(), idx.labels[i..]) == DropStaleAll(price, old(Contents()), idx.labels)
      {
        assert idx.labels[i..][1..] == idx.labels[i + 1..];
        DropStaleOn(idx.labels[i]);
      }
      assert idx.labels[|idx.labels|..] == [];
      Absorb(idx);
    }
  }

  /** The run's copies with the DLE's records cut from the one on medium. */
  function CutCopies(placements: seq<Placement>, medium: string, dle: string): seq<Placement>
  {
    var j := PlacementAt(placements, medium);
    if j < |placements| then placements[j := Placement(medium, KeepDles(placements[j].archives, dle))] else placements
  }

  /** Some copy is left empty by the cut exactly when there was one on medium and there is
      none any more. */
  lemma CopyGone(price: Pricing, c: Cat, run: string, medium: string, dle: string)
    requires WellShaped(c) && EntryAt(c.entries, run) < |c.entries|
    ensures var before, after := EntryOf(c, run).placements, EntryOf(CatalogState.RemoveArchive(price, c, run, medium, dle), run).placements;
      (exists k :: 0 <= k < |CutCopies(before, medium, dle)| && CutCopies(before, medium, dle)[k].archives == []) <==>
      CopyOn(before, medium) != [] && CopyOn(after, medium) == []
  {
    CopiesAfterPrune(price, c, run, medium, dle, medium);
    ShapeOfEntry(c, run);
    var placements := EntryOf(c, run).placements;
    var cut, j := CutCopies(placements, medium, dle), PlacementAt(placements, medium);
    forall k | 0 <= k < |cut| && k != j ensures cut[k].archives != [] { assert cut[k] == placements[k]; }
    if j < |placements| {
      assert CopyOn(placements, medium) == placements[j].archives != [];
      assert cut[j].archives == KeepDles(placements[j].archives, dle);
    }
  }

  lemma {:induction false} GiveBackAppend(price: Pricing, volumes: map<string, VolumeRecord>, medium: string, run: Run, a: seq<PlacedArchive>, b: seq<PlacedArchive>)
    ensures GiveBack(price, volumes, medium, run, a + b) == GiveBack(price, GiveBack(price, volumes, medium, run, a), medium, run, b)
    decreases |a|
  {
    if a == [] {
      assert a + b == b;
    } else {
      assert (a + b)[0] == a[0] && (a + b)[1..] == a[1..] + b;
      GiveBackAppend(price, Settle(price, volumes, medium, run, [], [a[0]]), medium, run, a[1..], b);
    }
  }

  lemma {:induction false} DropEntryRemoves(entries: seq<Entry>, run: string)
    ensures forall i :: 0 <= i < |DropEntry(entries, run)| ==> DropEntry(entries, run)[i].run.id != run
    ensures EntryAt(DropEntry(entries, run), run) == |DropEntry(entries, run)|
  {
    if entries != [] { DropEntryRemoves(entries[1..], run); }
  }

  method RemoveEntry(entries: seq<Entry>, run: string) returns (kept: seq<Entry>)
    ensures kept == DropEntry(entries, run)
  {
    kept := [];
    for i := 0 to |entries|
      invariant kept + DropEntry(entries[i..], run) == DropEntry(entries, run)
    {
      assert entries[i..][1..] == entries[i + 1..];
      if entries[i].run.id != run {
        kept := kept + [entries[i]];
      }
    }
    assert entries[|entries|..] == [];
  }

  lemma KeepNonEmptyFrom(kept: seq<Placement>, placements: seq<Placement>, i: nat)
    requires i < |placements|
    ensures var rest := KeepNonEmpty(placements[i + 1..]);
      kept + KeepNonEmpty(placements[i..]) == (if placements[i].archives != [] then kept + [placements[i]] else kept) + rest
  {
    assert placements[i..][1..] == placements[i + 1..];
    var rest := KeepNonEmpty(placements[i + 1..]);
    assert KeepNonEmpty(placements[i..]) == (if placements[i].archives != [] then [placements[i]] else []) + rest;
    assert [] + rest == rest;
    assert kept + ([placements[i]] + rest) == (kept + [placements[i]]) + rest;
  }

  method DropEmpty(placements: seq<Placement>) returns (kept: seq<Placement>, gone: bool)
    ensures kept == KeepNonEmpty(placements)
    ensures gone <==> exists i :: 0 <= i < |placements| && placements[i].archives == []
  {
    kept, gone := [], false;
    assert placements[0..] == placements;
    for i := 0 to |placements|
      invariant kept + KeepNonEmpty(placements[i..]) == KeepNonEmpty(placements)
      invariant gone <==> exists k :: 0 <= k < i && placements[k].archives == []
    {
      KeepNonEmptyFrom(kept, placements, i);
      if |placements[i].archives| > 0 {
        kept := kept + [placements[i]];
      } else {
        gone := true;
      }
    }
    assert placements[|placements|..] == [];
  }

  method IsStale(pa: PlacedArchive, lbl: Label) returns (stale: bool)
    ensures stale == Stale(pa, lbl)
  {
    stale := StaleRef(pa.commit, lbl) || (pa.index.volume != "" && StaleRef(pa.index, lbl));
    for i := 0 to |pa.parts|
      invariant stale == ((exists k :: 0 <= k < i && StaleRef(pa.parts[k], lbl)) || StaleRef(pa.commit, lbl) || (pa.index.volume != "" && StaleRef(pa.index, lbl)))
    {
      if StaleRef(pa.parts[i], lbl) {
        stale := true;
      }
    }
  }

  /** Each placed medium's bytes and runs in one walk over the entries. */
  method OnePassTotals(entries: seq<Entry>) returns (totals: map<string, Total>)
    ensures totals == MediumTotals(entries)
  {
    totals := map[];
    for i := 0 to |entries|
      invariant AddEntries(totals, entries[i..]) == MediumTotals(entries)
    {
      assert entries[i..][1..] == entries[i + 1..];
      var e := entries[i];
      ghost var before := totals;
      for j := 0 to |e.placements|
        invariant AddCopies(totals, e.run, e.placements[j..]) == AddCopies(before, e.run, e.placements)
      {
        assert e.placements[j..][1..] == e.placements[j + 1..];
        var p := e.placements[j];
        var t := if p.medium in totals then totals[p.medium] else NOTHING;
        var bytes := CountHeld(e.run.archives, p);
        totals := totals[p.medium := Total(t.bytes + bytes, t.runs + 1)];
      }
      assert e.placements[|e.placements|..] == [];
    }
    assert entries[|entries|..] == [];
  }

  method CountHeld(archives: seq<Archive>, p: Placement) returns (bytes: int)
    ensures bytes == HeldBytes(archives, p)
  {
    bytes := 0;
    for i := 0 to |archives|
      invariant bytes + HeldBytes(archives[i..], p) == HeldBytes(archives, p)
    {
      assert archives[i..][1..] == archives[i + 1..];
      var k := FindPlaced(p.archives, archives[i].dle, archives[i].level);
      if k < |p.archives| {
        bytes := bytes + archives[i].compressed;
      }
    }
    assert archives[|archives|..] == [];
  }
}
