/** Draining leftover staged archives from the holding disks to their landings: copy to every
    medium of the route that lacks the archive, then reclaim the staged copy. */
module Flushing {
  import opened Records
  import opened Entries
  import opened Order
  import opened CatalogState
  import opened CatalogShape
  import opened CatalogView
  import opened RemovalView
  import opened CatalogStore
  import opened Usage

  // ---------------------------------------------------------------- where an archive is

  predicate On(c: Cat, k: ArchiveKey, medium: string) { PlacedIn(c, k.run, medium, k.dle, k.level).Some? }

  /** A placed archive is in its run's content, so the flush's lookup of it cannot fail. */
  lemma PlacedIsCatalogued(c: Cat, k: ArchiveKey, medium: string)
    requires WellShaped(c) && On(c, k, medium)
    ensures ContentIn(c, k.run, k.dle, k.level).Some?
    ensures ContentIn(c, k.run, k.dle, k.level).value.Key() == k
  {
    var i := EntryAt(c.entries, k.run);
    var e := c.entries[i];
    assert EntryShape(e);
    var j := PlacementAt(e.placements, medium);
    assert CopyShape(e.run, e.placements[j]);
    assert InContent(e.run, e.placements[j].archives[PlacedAt(e.placements[j].archives, k.dle, k.level)]);
  }

  // ---------------------------------------------------------------- what must never be lost

  /** One archive's copy on one medium. */
  datatype Spot = Spot(k: ArchiveKey, medium: string)

  /** The spots are what the catalog records. */
  ghost predicate Mirrors(on: iset<Spot>, c: Cat)
  {
    forall k, m {:trigger On(c, k, m)} :: Spot(k, m) in on <==> On(c, k, m)
  }

  /** One persisted state: the catalog, the copies it records, and the staged copies whose
      files a reclaim has begun to delete. */
  datatype Moment = Moment(c: Cat, on: iset<Spot>, torn: iset<Spot>)

  /** The configuration the flush runs under. */
  datatype Plan = Plan(holdings: seq<string>, route: string -> seq<string>)
  {
    /** Every route names a landing, and no holding disk is a landing. */
    ghost predicate Sound()
    {
      forall dle :: route(dle) != [] && forall i :: 0 <= i < |route(dle)| ==> route(dle)[i] !in holdings
    }
  }

  ghost predicate Staged(p: Plan, on: iset<Spot>, k: ArchiveKey) { exists h :: h in p.holdings && Spot(k, h) in on }

  ghost predicate OnRoute(p: Plan, on: iset<Spot>, k: ArchiveKey)
  {
    forall i :: 0 <= i < |p.route(k.dle)| ==> Spot(k, p.route(k.dle)[i]) in on
  }

  /** The archive is intact on a holding disk, or on every medium of its route. */
  ghost predicate Kept(p: Plan, s: Moment, k: ArchiveKey)
  {
    (exists h :: h in p.holdings && Spot(k, h) in s.on && Spot(k, h) !in s.torn) || OnRoute(p, s.on, k)
  }

  /** Nothing that was staged at the start is lost, and what is being torn is already landed. */
  ghost predicate Safe(p: Plan, start: iset<Spot>, s: Moment)
  {
    && Mirrors(s.on, s.c)
    && (forall k :: Staged(p, start, k) ==> Kept(p, s, k))
    && (forall x :: x in s.torn ==> OnRoute(p, s.on, x.k))
  }

  ghost predicate AllSafe(p: Plan, start: iset<Spot>, trace: seq<Moment>)
  {
    forall i :: 0 <= i < |trace| ==> Safe(p, start, trace[i])
  }

  /** The staged copies are those of the start less the ones gone, and no copy elsewhere has
      gone. */
  ghost predicate Accounts(p: Plan, start: iset<Spot>, on: iset<Spot>, gone: set<Spot>)
  {
    && (forall x :: x in gone ==> x in start && x !in on && x.medium in p.holdings)
    && (forall x: Spot :: x.medium in p.holdings && x in on ==> x in start)
    && (forall x :: x in start && x !in on ==> x in gone)
  }

  /** A run stages at most one level of a DLE. */
  ghost predicate OneLevel(p: Plan, on: iset<Spot>)
  {
    forall x, y :: x in on && y in on && x.medium == y.medium && x.medium in p.holdings && x.k.run == y.k.run && x.k.dle == y.k.dle ==> x == y
  }

  ghost predicate NothingStaged(p: Plan, on: iset<Spot>) { forall x :: x in on ==> x.medium !in p.holdings }

  // ---------------------------------------------------------------- one step keeps it

  lemma LandingKeeps(p: Plan, start: iset<Spot>, s: Moment, price: Pricing, arch: Archive, landing: string, pos: ArchivePos)
    requires Safe(p, start, s)
    ensures Safe(p, start, Moment(AddArchive(price, s.c, arch, landing, pos), s.on + iset{Spot(arch.Key(), landing)}, s.torn))
  {
    var c' := AddArchive(price, s.c, arch, landing, pos);
    var s' := Moment(c', s.on + iset{Spot(arch.Key(), landing)}, s.torn);
    forall k: ArchiveKey, m ensures Spot(k, m) in s'.on <==> On(c', k, m) {
      AddView(price, s.c, arch, landing, pos, k.run, m, k.dle, k.level);
      assert On(s.c, k, m) <==> Spot(k, m) in s.on;
    }
    forall k | Staged(p, start, k) ensures Kept(p, s', k) {
      assert Kept(p, s, k);
    }
  }

  lemma TearKeeps(p: Plan, start: iset<Spot>, s: Moment, x: Spot)
    requires Safe(p, start, s) && OnRoute(p, s.on, x.k)
    ensures Safe(p, start, Moment(s.c, s.on, s.torn + iset{x}))
  {
    var s' := Moment(s.c, s.on, s.torn + iset{x});
    forall k | Staged(p, start, k) ensures Kept(p, s', k) {
      assert Kept(p, s, k);
    }
  }

  lemma PruneMirrors(p: Plan, price: Pricing, c: Cat, on: iset<Spot>, x: Spot)
    requires WellShaped(c) && Mirrors(on, c) && OneLevel(p, on) && x.medium in p.holdings && x in on
    ensures Mirrors(on - iset{x}, RemoveArchive(price, c, x.k.run, x.medium, x.k.dle))
  {
    var c' := RemoveArchive(price, c, x.k.run, x.medium, x.k.dle);
    forall k: ArchiveKey, m ensures Spot(k, m) in on - iset{x} <==> On(c', k, m) {
      PruneView(price, c, x.k.run, x.medium, x.k.dle, k.run, m, k.dle, k.level);
      assert On(c, k, m) <==> Spot(k, m) in on;
    }
  }

  lemma ForgetKeeps(p: Plan, start: iset<Spot>, s: Moment, price: Pricing, x: Spot)
    requires p.Sound() && WellShaped(s.c) && Safe(p, start, s) && OneLevel(p, s.on)
    requires x.medium in p.holdings && x in s.on && x in s.torn
    ensures Safe(p, start, Moment(RemoveArchive(price, s.c, x.k.run, x.medium, x.k.dle), s.on - iset{x}, s.torn))
  {
    var s' := Moment(RemoveArchive(price, s.c, x.k.run, x.medium, x.k.dle), s.on - iset{x}, s.torn);
    PruneMirrors(p, price, s.c, s.on, x);
    forall k | OnRoute(p, s.on, k) ensures OnRoute(p, s'.on, k) {
    }
    forall k | Staged(p, start, k) ensures Kept(p, s', k) {
      assert Kept(p, s, k);
    }
  }

  /** Where the flush stands: nothing lost, one level a DLE, and the staged copies gone are the
      ones counted. */
  ghost predicate Standing(p: Plan, start: iset<Spot>, s: Moment, gone: set<Spot>)
  {
    Safe(p, start, s) && OneLevel(p, s.on) && Accounts(p, start, s.on, gone)
  }

  lemma LandingStands(p: Plan, start: iset<Spot>, s: Moment, gone: set<Spot>, price: Pricing, arch: Archive, landing: string, pos: ArchivePos)
    requires Standing(p, start, s, gone) && landing !in p.holdings
    ensures Standing(p, start, Moment(AddArchive(price, s.c, arch, landing, pos), s.on + iset{Spot(arch.Key(), landing)}, s.torn), gone)
  {
    LandingKeeps(p, start, s, price, arch, landing, pos);
  }

  lemma ForgetStands(p: Plan, start: iset<Spot>, s: Moment, gone: set<Spot>, price: Pricing, x: Spot)
    requires p.Sound() && WellShaped(s.c) && Standing(p, start, s, gone)
    requires x.medium in p.holdings && x in s.on && x in s.torn
    ensures Standing(p, start, Moment(RemoveArchive(price, s.c, x.k.run, x.medium, x.k.dle), s.on - iset{x}, s.torn), gone + {x})
    ensures |gone + {x}| == |gone| + 1
  {
    ForgetKeeps(p, start, s, price, x);
    assert x !in gone;
  }

  // ---------------------------------------------------------------- the flush itself

  datatype FlushError =
    | NotCatalogued(k: ArchiveKey)
    | LandingUnavailable(k: ArchiveKey, landing: string)
    | CopyFailed(k: ArchiveKey, landing: string)
    | ReclaimFailed(k: ArchiveKey, holding: string)

  /** The callbacks a flush is given. Which of them fail is not its doing; each failure goes on
      record. */
  class Devices {
    ghost var failures: seq<FlushError>

    constructor ()
      ensures failures == []
    {
      failures := [];
    }

    method OpenLanding(k: ArchiveKey, landing: string) returns (ok: bool)
      modifies this
      ensures failures == old(failures) + if ok then [] else [LandingUnavailable(k, landing)]
    {
      ok := *;
      failures := failures + if ok then [] else [LandingUnavailable(k, landing)];
    }

    method CopyStaged(k: ArchiveKey, landing: string) returns (ok: bool)
      modifies this
      ensures failures == old(failures) + if ok then [] else [CopyFailed(k, landing)]
    {
      ok := *;
      failures := failures + if ok then [] else [CopyFailed(k, landing)];
    }

    method Remove(k: ArchiveKey, holding: string) returns (ok: bool)
      modifies this
      ensures failures == old(failures) + if ok then [] else [ReclaimFailed(k, holding)]
    {
      ok := *;
      failures := failures + if ok then [] else [ReclaimFailed(k, holding)];
    }
  }

  /** What is on record after a call: its own error, if it has one, and nothing else. */
  function WithError(failures: seq<FlushError>, err: Option<FlushError>): seq<FlushError>
  {
    match err case None => failures case Some(e) => failures + [e]
  }

  /** Whether the landing's copy of the run already holds the archive. */
  method ArchiveOnLanding(cat: Catalog, landing: string, k: ArchiveKey) returns (on: bool)
    ensures on == On(cat.Contents(), k, landing)
  {
    var i := FindEntry(cat.entries, k.run);
    if i == |cat.entries| {
      return false;
    }
    var j := FindPlacement(cat.entries[i].placements, landing);
    if j == |cat.entries[i].placements| {
      return false;
    }
    var n := FindPlaced(cat.entries[i].placements[j].archives, k.dle, k.level);
    on := n < |cat.entries[i].placements[j].archives|;
  }

  method CatalogArchive(cat: Catalog, k: ArchiveKey) returns (r: Option<Archive>)
    ensures r == ContentIn(cat.Contents(), k.run, k.dle, k.level)
  {
    var i := FindEntry(cat.entries, k.run);
    if i == |cat.entries| {
      return None;
    }
    var n := FindArchive(cat.entries[i].run.archives, k.dle, k.level);
    r := if n < |cat.entries[i].run.archives| then Some(cat.entries[i].run.archives[n]) else None;
  }

  /** The run's staged archives on a holding disk, in the catalog's order. */
  method StagedOn(cat: Catalog, run: string, holding: string) returns (archives: seq<PlacedArchive>)
    ensures archives == CopyOn(EntryOf(cat.Contents(), run).placements, holding)
  {
    var i := FindEntry(cat.entries, run);
    if i == |cat.entries| {
      return [];
    }
    var j := FindPlacement(cat.entries[i].placements, holding);
    archives := if j < |cat.entries[i].placements| then cat.entries[i].placements[j].archives else [];
  }

  class Flusher {
    const cat: Catalog
    const plan: Plan
    const dev: Devices
    var flushed: nat

    /** What the flush started from, and every state it persisted since. */
    ghost const start: iset<Spot>
    ghost var trace: seq<Moment>

    /** The staged copies reclaimed so far. */
    ghost var gone: set<Spot>

    ghost function Now(): Moment
      requires trace != []
      reads this
    {
      trace[|trace| - 1]
    }

    ghost function Spots(): iset<Spot>
      requires trace != []
      reads this
    {
      Now().on
    }

    ghost predicate Valid()
      reads this, cat
    {
      && cat.Valid() && plan.Sound() && trace != [] && Now().c == cat.Contents()
      && Standing(plan, start, Now(), gone) && flushed == |gone| && AllSafe(plan, start, trace)
    }

    constructor (cat: Catalog, plan: Plan, dev: Devices, ghost on: iset<Spot>)
      requires cat.Valid() && plan.Sound() && Mirrors(on, cat.Contents()) && OneLevel(plan, on)
      ensures Valid() && this.cat == cat && this.plan == plan && this.dev == dev && flushed == 0
      ensures trace == [Moment(cat.Contents(), on, iset{})] && start == on
    {
      this.cat, this.plan, this.dev, flushed := cat, plan, dev, 0;
      start, trace, gone := on, [Moment(cat.Contents(), on, iset{})], {};
    }

    /** The copy's commit adds the archive to the catalog. */
    method RecordCopy(arch: Archive, landing: string, pos: ArchivePos)
      requires Valid() && landing !in plan.holdings
      modifies this`trace, cat
      ensures Valid() && flushed == old(flushed) && old(trace) <= trace
      ensures Spots() == old(Spots()) + iset{Spot(arch.Key(), landing)}
    {
      LandingStands(plan, start, Now(), gone, cat.price, arch, landing, pos);
      var at: int := *;
      var appended: bool := *;
      cat.AddArchive(arch, landing, pos, at, appended);
      trace := trace + [Moment(cat.Contents(), Spots() + iset{Spot(arch.Key(), landing)}, Now().torn)];
    }

    /** Deleting the staged files begins. */
    method Tear(k: ArchiveKey, holding: string)
      requires Valid() && OnRoute(plan, Spots(), k)
      modifies this`trace
      ensures Valid() && old(trace) <= trace && Spots() == old(Spots()) && Spot(k, holding) in Now().torn
    {
      TearKeeps(plan, start, Now(), Spot(k, holding));
      trace := trace + [Moment(cat.Contents(), Spots(), Now().torn + iset{Spot(k, holding)})];
    }

    /** The files of a torn copy are gone: its record goes too. */
    method Forget(k: ArchiveKey, holding: string)
      requires Valid() && holding in plan.holdings && Spot(k, holding) in Spots() && Spot(k, holding) in Now().torn
      modifies this`flushed, this`trace, this`gone, cat
      ensures Valid() && old(trace) <= trace && Spots() == old(Spots()) - iset{Spot(k, holding)}
    {
      hide WellShaped;
      hide CatalogState.RemoveArchive;
      hide OneLevel;
      hide Accounts;
      hide Kept;
      hide Mirrors;
      ForgetStands(plan, start, Now(), gone, cat.price, Spot(k, holding));
      var at: int := *;
      var appended: bool := *;
      var placementGone, entryGone := cat.RemoveArchive(k.run, holding, k.dle, at, appended);
      flushed, gone := flushed + 1, gone + {Spot(k, holding)};
      trace := trace + [Moment(cat.Contents(), Spots() - iset{Spot(k, holding)}, Now().torn)];
    }

    /** Copies one staged archive to a landing that lacks it. */
    method CopyTo(k: ArchiveKey, holding: string, landing: string) returns (err: Option<FlushError>)
      requires Valid() && Spot(k, holding) in Spots() && landing !in plan.holdings
      modifies this`trace, cat, dev
      ensures Valid() && flushed == old(flushed) && old(trace) <= trace
      ensures Spots() == old(Spots()) + if err.None? then iset{Spot(k, landing)} else iset{}
      ensures Spot(k, landing) in old(Spots()) ==> err.None? && trace == old(trace)
      ensures err.Some? ==> (err.value == LandingUnavailable(k, landing) || err.value == CopyFailed(k, landing)) && Spot(k, landing) !in Spots()
      ensures dev.failures == WithError(old(dev.failures), err)
    {
      hide WellShaped;
      err := None;
      var on := ArchiveOnLanding(cat, landing, k);
      if on {
        return;
      }
      assert On(cat.Contents(), k, holding);
      PlacedIsCatalogued(cat.Contents(), k, holding);
      var found := CatalogArchive(cat, k);
      if found.None? {
        return Some(NotCatalogued(k));
      }
      var opens := dev.OpenLanding(k, landing);
      if !opens {
        return Some(LandingUnavailable(k, landing));
      }
      var copied := dev.CopyStaged(k, landing);
      if !copied {
        return Some(CopyFailed(k, landing));
      }
      // what the copy's commit reported: the same archive in its new layout
      var seals: seq<PartSeal> := *;
      var members: seq<string> := *;
      var size: int := *;
      var pos: ArchivePos := *;
      RecordCopy(found.value.(parts := |seals|, partSeals := seals, members := members, indexSize := size, partMap := pos.parts, indexPos := pos.index), landing, pos);
    }

    /** Copies one staged archive to every medium of its route that lacks it. */
    method ServeRoute(k: ArchiveKey, holding: string) returns (err: Option<FlushError>)
      requires Valid() && Spot(k, holding) in Spots()
      modifies this`trace, cat, dev
      ensures Valid() && flushed == old(flushed) && old(trace) <= trace
      ensures SameStaged(old(Spots())) && Spot(k, holding) in Spots()
      ensures err.None? ==> OnRoute(plan, Spots(), k)
      ensures OnRoute(plan, old(Spots()), k) ==> err.None? && trace == old(trace)
      ensures err.Some? ==> Lacking(err.value, k) && dev.failures == old(dev.failures) + [err.value]
      ensures err.None? ==> dev.failures == old(dev.failures)
    {
      var landings := plan.route(k.dle);
      err := None;
      for i := 0 to |landings|
        invariant Valid() && flushed == old(flushed) && old(trace) <= trace && err.None?
        invariant old(Spots()) <= Spots() && SameStaged(old(Spots())) && dev.failures == old(dev.failures)
        invariant OnRoute(plan, old(Spots()), k) ==> trace == old(trace)
        invariant forall j :: 0 <= j < i ==> Spot(k, landings[j]) in Spots()
      {
        err := CopyTo(k, holding, landings[i]);
        if err.Some? {
          return;
        }
      }
    }

    /** The error names a landing of the archive's route that lacks the archive. */
    ghost predicate Lacking(err: FlushError, k: ArchiveKey)
      requires trace != []
      reads this
    {
      && (err.LandingUnavailable? || err.CopyFailed?) && err.k == k
      && err.landing in plan.route(k.dle) && Spot(k, err.landing) !in Spots()
    }

    /** An error has its cause: a landing that lacks an archive still staged, or a staged copy
        whose removal was refused when its whole route was served. */
    ghost predicate Justified(err: FlushError)
      requires trace != []
      reads this
    {
      match err
      case NotCatalogued(_) => false
      case LandingUnavailable(k, _) => Lacking(err, k) && Staged(plan, Spots(), k)
      case CopyFailed(k, _) => Lacking(err, k) && Staged(plan, Spots(), k)
      case ReclaimFailed(k, h) => h in plan.holdings && Spot(k, h) in Spots() && OnRoute(plan, Spots(), k)
    }

    /** Whatever a call reports has its cause, and is the one failure it met. */
    ghost predicate Honest(before: seq<FlushError>, err: Option<FlushError>)
      requires trace != []
      reads this, dev
    {
      (err.Some? ==> Justified(err.value)) && dev.failures == WithError(before, err)
    }

    /** The staged copies are the same as before. */
    ghost predicate SameStaged(before: iset<Spot>)
      requires trace != []
      reads this
    {
      forall x: Spot :: x.medium in plan.holdings ==> (x in Spots() <==> x in before)
    }

    /** Deletes the staged files of a landed archive, then its record. A failure may leave the
        files partly deleted, with the record still there. */
    method Reclaim(k: ArchiveKey, holding: string) returns (err: Option<FlushError>)
      requires Valid() && holding in plan.holdings && Spot(k, holding) in Spots() && OnRoute(plan, Spots(), k)
      modifies this, cat, dev
      ensures Valid() && old(trace) <= trace && Honest(old(dev.failures), err)
      ensures err.None? ==> Spots() == old(Spots()) - iset{Spot(k, holding)}
      ensures err.Some? ==> err.value == ReclaimFailed(k, holding) && Spots() == old(Spots())
    {
      err := None;
      Tear(k, holding);
      var removed := dev.Remove(k, holding);
      if !removed {
        return Some(ReclaimFailed(k, holding));
      }
      Forget(k, holding);
    }

    /** Of the staged copies, those in gone are no longer there. */
    ghost predicate Lost(before: iset<Spot>, gone: iset<Spot>)
      requires trace != []
      reads this
    {
      forall x: Spot :: x.medium in plan.holdings ==> (x in Spots() <==> x in before && x !in gone)
    }

    /** Serves the whole route of one staged archive, then reclaims the staged copy. */
    method FlushOne(k: ArchiveKey, holding: string) returns (err: Option<FlushError>)
      requires Valid() && holding in plan.holdings && Spot(k, holding) in Spots()
      modifies this, cat, dev
      ensures Valid() && old(trace) <= trace && Honest(old(dev.failures), err)
      ensures err.None? ==> Lost(old(Spots()), iset{Spot(k, holding)})
    {
      err := ServeRoute(k, holding);
      if err.None? {
        err := Reclaim(k, holding);
      }
    }

    /** The spots a list of staged records stands for. */
    ghost function SpotsOf(run: string, archives: seq<PlacedArchive>, holding: string): iset<Spot>
    {
      iset i | 0 <= i < |archives| :: Spot(ArchiveKey(run, archives[i].dle, archives[i].level), holding)
    }

    lemma StagedSpots(run: string, holding: string)
      requires Valid()
      ensures var aps := CopyOn(EntryOf(cat.Contents(), run).placements, holding);
        && (forall x :: x in Spots() && x.medium == holding && x.k.run == run <==> x in SpotsOf(run, aps, holding))
        && OneRecordPerKey(aps)
    {
      var aps := CopyOn(EntryOf(cat.Contents(), run).placements, holding);
      forall d, l ensures Spot(ArchiveKey(run, d, l), holding) in Spots() <==> On(cat.Contents(), ArchiveKey(run, d, l), holding) {
      }
      var i := EntryAt(cat.entries, run);
      if i < |cat.entries| {
        assert EntryShape(cat.entries[i]);
        var j := PlacementAt(cat.entries[i].placements, holding);
        if j < |cat.entries[i].placements| {
          assert CopyShape(cat.entries[i].run, cat.entries[i].placements[j]);
        }
      }
      forall x: Spot ensures x in Spots() && x.medium == holding && x.k.run == run <==> x in SpotsOf(run, aps, holding) {
        if x.medium == holding && x.k.run == run {
          assert x == Spot(ArchiveKey(run, x.k.dle, x.k.level), holding);
          var n := PlacedAt(aps, x.k.dle, x.k.level);
          assert On(cat.Contents(), x.k, holding) <==> n < |aps|;
        }
      }
    }

    /** Drains one run's staged archives off one holding disk. */
    method FlushCopy(run: string, holding: string) returns (err: Option<FlushError>)
      requires Valid() && holding in plan.holdings
      modifies this, cat, dev
      ensures Valid() && old(trace) <= trace && Honest(old(dev.failures), err)
      ensures err.None? ==> Lost(old(Spots()), Of(run, [holding]))
    {
      var aps := StagedOn(cat, run, holding);
      StagedSpots(run, holding);
      err := None;
      for i := 0 to |aps|
        invariant Valid() && old(trace) <= trace && err.None? && dev.failures == old(dev.failures)
        invariant Lost(old(Spots()), SpotsOf(run, aps[..i], holding))
      {
        var k := ArchiveKey(run, aps[i].dle, aps[i].level);
        NotYet(run, aps, i, holding);
        err := FlushOne(k, holding);
        if err.Some? {
          return;
        }
      }
      assert aps[..|aps|] == aps;
    }

    lemma NotYet(run: string, aps: seq<PlacedArchive>, i: nat, holding: string)
      requires i < |aps| && OneRecordPerKey(aps)
      ensures Spot(ArchiveKey(run, aps[i].dle, aps[i].level), holding) in SpotsOf(run, aps, holding)
      ensures Spot(ArchiveKey(run, aps[i].dle, aps[i].level), holding) !in SpotsOf(run, aps[..i], holding)
      ensures SpotsOf(run, aps[..i + 1], holding) == SpotsOf(run, aps[..i], holding) + iset{Spot(ArchiveKey(run, aps[i].dle, aps[i].level), holding)}
    {
      var x := Spot(ArchiveKey(run, aps[i].dle, aps[i].level), holding);
      forall y ensures y in SpotsOf(run, aps[..i + 1], holding) <==> y in SpotsOf(run, aps[..i], holding) || y == x {
        if y in SpotsOf(run, aps[..i], holding) {
          var j :| 0 <= j < i && y == Spot(ArchiveKey(run, aps[..i][j].dle, aps[..i][j].level), holding);
          assert aps[..i + 1][j] == aps[..i][j];
        }
        assert aps[..i + 1][i] == aps[i];
      }
    }

    /** Every spot of a run on these media. */
    ghost function Of(run: string, media: seq<string>): iset<Spot>
    {
      iset x: Spot | x.k.run == run && x.medium in media
    }

    /** Drains one run's staged archives off every holding disk. */
    method FlushRun(run: string) returns (err: Option<FlushError>)
      requires Valid()
      modifies this, cat, dev
      ensures Valid() && old(trace) <= trace && Honest(old(dev.failures), err)
      ensures err.None? ==> Lost(old(Spots()), Of(run, plan.holdings))
    {
      err := None;
      for i := 0 to |plan.holdings|
        invariant Valid() && old(trace) <= trace && err.None? && dev.failures == old(dev.failures)
        invariant Lost(old(Spots()), Of(run, plan.holdings[..i]))
      {
        assert plan.holdings[..i + 1] == plan.holdings[..i] + [plan.holdings[i]];
        err := FlushCopy(run, plan.holdings[i]);
        if err.Some? {
          return;
        }
      }
      assert plan.holdings[..|plan.holdings|] == plan.holdings;
    }

    /** The runs with a copy on some holding disk. */
    method StagedRuns() returns (runs: set<string>)
      ensures Lists(runs)
    {
      runs := {};
      for n := 0 to |plan.holdings|
        invariant forall r :: r in runs <==> exists m :: 0 <= m < n && HasCopyOn(cat.entries, r, plan.holdings[m])
      {
        var more := RunsOnMedium(cat.entries, plan.holdings[n]);
        runs := runs + more;
      }
    }

    ghost predicate Lists(runs: set<string>)
      reads cat
    {
      forall r :: r in runs <==> exists n :: 0 <= n < |plan.holdings| && HasCopyOn(cat.entries, r, plan.holdings[n])
    }

    lemma StagedIsListed(runs: set<string>, x: Spot)
      requires Valid() && x in Spots() && x.medium in plan.holdings && Lists(runs)
      ensures x.k.run in runs
    {
      assert On(cat.Contents(), x.k, x.medium);
      var i := EntryAt(cat.entries, x.k.run);
      assert PlacedOn(cat.entries[i], x.medium);
      var n :| 0 <= n < |plan.holdings| && plan.holdings[n] == x.medium;
      assert HasCopyOn(cat.entries, x.k.run, plan.holdings[n]);
    }

    lemma ListedIsStaged(runs: set<string>)
      requires Valid() && NothingStaged(plan, Spots()) && Lists(runs)
      ensures runs == {}
    {
      forall r, n | 0 <= n < |plan.holdings| ensures !HasCopyOn(cat.entries, r, plan.holdings[n]) {
        CopyHolds(cat.Contents(), Spots(), r, plan.holdings[n]);
      }
    }

    /** The whole flush. Every persisted state on the way, so every state a crash or an error
        can leave behind, still has each archive that was staged at the start, on a holding disk
        or on all of its route; success leaves nothing staged; the count is that of the staged
        copies no longer there; and with nothing staged nothing is done. An error has a cause: a
        flush that finds its work done short of the reclaiming fails only where a removal is
        refused. */
    method Flush() returns (err: Option<FlushError>)
      requires Valid() && flushed == 0 && Spots() == start
      modifies this, cat, dev
      ensures Valid() && old(trace) <= trace && AllSafe(plan, start, trace)
      ensures err.None? ==> NothingStaged(plan, Spots())
      ensures flushed == |gone| && forall x :: x in gone <==> x.medium in plan.holdings && x in start && x !in Spots()
      ensures NothingStaged(plan, start) ==> err.None? && trace == old(trace) && unchanged(cat)
      ensures Honest(old(dev.failures), err)
      ensures (forall k :: Staged(plan, start, k) ==> OnRoute(plan, start, k)) ==> err.None? || err.value.ReclaimFailed?
    {
      if |plan.holdings| == 0 {
        return None;
      }
      var runs := StagedRuns();
      NoRunIffNothing(runs);
      if runs == {} {
        return None;
      }
      var ids := SortedIds(runs);
      err := FlushIds(ids);
      NothingToCopy(err);
    }

    /** With everything staged already on its route no copy is due, so none can fail. */
    lemma NothingToCopy(err: Option<FlushError>)
      requires Valid() && (err.Some? ==> Justified(err.value))
      ensures (forall k :: Staged(plan, start, k) ==> OnRoute(plan, start, k)) ==> err.None? || err.value.ReclaimFailed?
    {
      if err.Some? && !err.value.ReclaimFailed? {
        var k := err.value.k;
        assert Lacking(err.value, k) && Staged(plan, Spots(), k);
        var h :| h in plan.holdings && Spot(k, h) in Spots();
        assert Spot(k, h) in start && Staged(plan, start, k);
        var i :| 0 <= i < |plan.route(k.dle)| && plan.route(k.dle)[i] == err.value.landing;
        assert Spot(k, plan.route(k.dle)[i]) !in start;
        assert !OnRoute(plan, start, k);
      }
    }

    lemma NoRunIffNothing(runs: set<string>)
      requires Valid() && Lists(runs)
      ensures runs == {} <==> NothingStaged(plan, Spots())
      ensures forall x :: x in Spots() && x.medium in plan.holdings ==> x.k.run in runs
    {
      forall x | x in Spots() && x.medium in plan.holdings ensures x.k.run in runs { StagedIsListed(runs, x); }
      if NothingStaged(plan, Spots()) {
        ListedIsStaged(runs);
      }
    }

    method FlushIds(ids: seq<string>) returns (err: Option<FlushError>)
      requires Valid()
      modifies this, cat, dev
      ensures Valid() && old(trace) <= trace && Honest(old(dev.failures), err)
      ensures err.None? ==> Lost(old(Spots()), OfRuns(ids))
    {
      err := None;
      for i := 0 to |ids|
        invariant Valid() && old(trace) <= trace && err.None? && dev.failures == old(dev.failures)
        invariant Lost(old(Spots()), OfRuns(ids[..i]))
      {
        assert ids[..i + 1] == ids[..i] + [ids[i]];
        err := FlushRun(ids[i]);
        if err.Some? {
          return;
        }
      }
      assert ids[..|ids|] == ids;
    }

    /** Every spot of these runs. */
    ghost function OfRuns(runs: seq<string>): iset<Spot>
    {
      iset x: Spot | x.k.run in runs
    }
  }

  method SortedIds(runs: set<string>) returns (ids: seq<string>)
    ensures forall r :: r in ids <==> r in runs
  {
    var todo, found := runs, [];
    while todo != {}
      invariant todo <= runs && forall r :: r in found <==> r in runs - todo
      decreases |todo|
    {
      var r :| r in todo;
      found, todo := found + [r], todo - {r};
    }
    ids := Sort(found, StrLess);
    SortKeepsElements(found, StrLess);
  }

  predicate HasCopyOn(entries: seq<Entry>, run: string, medium: string)
  {
    exists i :: 0 <= i < |entries| && entries[i].run.id == run && PlacedOn(entries[i], medium)
  }

  method RunsOnMedium(entries: seq<Entry>, medium: string) returns (runs: set<string>)
    ensures forall r :: r in runs <==> HasCopyOn(entries, r, medium)
  {
    runs := {};
    for i := 0 to |entries|
      invariant forall r :: r in runs <==> exists j :: 0 <= j < i && entries[j].run.id == r && PlacedOn(entries[j], medium)
    {
      var j := FindPlacement(entries[i].placements, medium);
      if j < |entries[i].placements| {
        runs := runs + {entries[i].run.id};
      }
    }
  }

  /** A copy is never empty, so a run with one on a medium has an archive there. */
  lemma CopyHolds(c: Cat, on: iset<Spot>, run: string, medium: string)
    requires WellShaped(c) && Mirrors(on, c)
    ensures HasCopyOn(c.entries, run, medium) ==> exists x :: x in on && x.medium == medium
  {
    if HasCopyOn(c.entries, run, medium) {
      var i :| 0 <= i < |c.entries| && c.entries[i].run.id == run && PlacedOn(c.entries[i], medium);
      assert EntryAt(c.entries, run) == i && EntryShape(c.entries[i]);
      var p := c.entries[i].placements[PlacementAt(c.entries[i].placements, medium)];
      assert CopyShape(c.entries[i].run, p);
      var k := ArchiveKey(run, p.archives[0].dle, p.archives[0].level);
      assert PlacedAt(p.archives, k.dle, k.level) == 0;
      assert On(c, k, medium);
      assert Spot(k, medium) in on;
    }
  }
}
