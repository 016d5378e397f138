/** One run's catalog entry: its content, and the copies of it. The lists keep first-seen
    order and hold at most one record per (DLE, level), as the lookups below assume. */
module Entries {
  import opened Records

  datatype Run = Run(id: string, archives: seq<Archive>)

  datatype Placement = Placement(medium: string, archives: seq<PlacedArchive>)

  datatype Entry = Entry(run: Run, placements: seq<Placement>)

  /** The first archive of (dle, level), or the list's length when there is none. */
  function ArchiveAt(archives: seq<Archive>, dle: string, level: int): (i: nat)
    ensures i <= |archives|
    ensures i < |archives| ==> archives[i].dle == dle && archives[i].level == level
    ensures forall j :: 0 <= j < i ==> !(archives[j].dle == dle && archives[j].level == level)
  {
    if archives == [] then 0
    else if archives[0].dle == dle && archives[0].level == level then 0
    else 1 + ArchiveAt(archives[1..], dle, level)
  }

  function PlacedAt(placed: seq<PlacedArchive>, dle: string, level: int): (i: nat)
    ensures i <= |placed|
    ensures i < |placed| ==> placed[i].dle == dle && placed[i].level == level
    ensures forall j :: 0 <= j < i ==> !(placed[j].dle == dle && placed[j].level == level)
  {
    if placed == [] then 0
    else if placed[0].dle == dle && placed[0].level == level then 0
    else 1 + PlacedAt(placed[1..], dle, level)
  }

  function PlacementAt(placements: seq<Placement>, medium: string): (i: nat)
    ensures i <= |placements|
    ensures i < |placements| ==> placements[i].medium == medium
    ensures forall j :: 0 <= j < i ==> placements[j].medium != medium
  {
    if placements == [] then 0
    else if placements[0].medium == medium then 0
    else 1 + PlacementAt(placements[1..], medium)
  }

  function EntryAt(entries: seq<Entry>, run: string): (i: nat)
    ensures i <= |entries|
    ensures i < |entries| ==> entries[i].run.id == run
    ensures forall j :: 0 <= j < i ==> entries[j].run.id != run
  {
    if entries == [] then 0
    else if entries[0].run.id == run then 0
    else 1 + EntryAt(entries[1..], run)
  }

  /** The run's archive of (dle, level); the zero record when it has none. */
  function ArchiveOf(run: Run, dle: string, level: int): Archive
  {
    var i := ArchiveAt(run.archives, dle, level);
    if i < |run.archives| then run.archives[i] else NO_ARCHIVE
  }

  function PutArchive(archives: seq<Archive>, a: Archive): seq<Archive>
  {
    var i := ArchiveAt(archives, a.dle, a.level);
    if i < |archives| then archives[i := a] else archives + [a]
  }

  function PutPlaced(placed: seq<PlacedArchive>, pa: PlacedArchive): seq<PlacedArchive>
  {
    var i := PlacedAt(placed, pa.dle, pa.level);
    if i < |placed| then placed[i := pa] else placed + [pa]
  }

  function PutOnMedium(placements: seq<Placement>, medium: string, pa: PlacedArchive): seq<Placement>
  {
    var i := PlacementAt(placements, medium);
    if i < |placements| then placements[i := Placement(medium, PutPlaced(placements[i].archives, pa))]
    else placements + [Placement(medium, [pa])]
  }

  function DropArchives(archives: seq<Archive>, dle: string): seq<Archive>
  {
    if archives == [] then []
    else if archives[0].dle == dle then DropArchives(archives[1..], dle)
    else [archives[0]] + DropArchives(archives[1..], dle)
  }

  predicate Holds(p: Placement, dle: string, level: int)
  {
    PlacedAt(p.archives, dle, level) < |p.archives|
  }

  predicate HoldsDle(p: Placement, dle: string)
  {
    exists i :: 0 <= i < |p.archives| && p.archives[i].dle == dle
  }

  predicate AnyPlacementHolds(placements: seq<Placement>, dle: string)
  {
    exists i :: 0 <= i < |placements| && HoldsDle(placements[i], dle)
  }

  /** The placed record an archive landing at pos gets: seals only where every part is known. */
  function Place(a: Archive, pos: ArchivePos): PlacedArchive
  {
    PlacedArchive(a.dle, a.level, pos.parts, if |a.partSeals| == |pos.parts| then a.partSeals else [], pos.commit, pos.index)
  }
}
