/** The catalog's contents as a value, and what each mutator does to them. */
module CatalogState {
  import opened Records
  import opened Entries
  import opened Scan

  /** What a file of a kind with a payload costs on a medium; never negative. */
  type FileCost = (Kind, int) -> nat

  /** A medium's cost rule; None for media without finite labeled volumes. */
  type Pricing = string -> Option<FileCost>

  datatype VolumeRecord = VolumeRecord(lbl: Label, barcode: string, used: nat)

  datatype Cat = Cat(entries: seq<Entry>, volumes: map<string, VolumeRecord>)

  // ---------------------------------------------------------------- what a placed archive costs

  function PartsCharge(cost: FileCost, parts: seq<FilePos>, seals: seq<PartSeal>, lab: string): nat
    requires |parts| == |seals|
  {
    if parts == [] then 0
    else
      (if parts[0].volume == lab then cost(ArchivePart, seals[0].size) else 0)
      + PartsCharge(cost, parts[1..], seals[1..], lab)
  }

  /** A sealless record is charged whole to the first labeled part. */
  function WholeCharge(cost: FileCost, parts: seq<FilePos>, compressed: int, lab: string): nat
  {
    if parts == [] then 0
    else if parts[0].volume == "" then WholeCharge(cost, parts[1..], compressed, lab)
    else if parts[0].volume == lab then cost(ArchivePart, compressed)
    else 0
  }

  function PayloadCharge(cost: FileCost, a: Archive, pa: PlacedArchive, lab: string): nat
  {
    if |pa.seals| == |pa.parts| && |pa.parts| > 0 then PartsCharge(cost, pa.parts, pa.seals, lab)
    else WholeCharge(cost, pa.parts, a.compressed, lab)
  }

  /** The charge of one placed archive of content a against a label. */
  function ChargeWith(cost: FileCost, a: Archive, pa: PlacedArchive, lab: string): nat
  {
    if lab == "" then 0
    else
      PayloadCharge(cost, a, pa, lab)
      + (if pa.commit.volume == lab then cost(CommitFooter, 0) else 0)
      + (if pa.index.volume == lab then cost(MemberIndex, a.indexSize) else 0)
  }

  function Charge(price: Pricing, medium: string, run: Run, pa: PlacedArchive, lab: string): nat
  {
    match price(medium)
    case None => 0
    case Some(cost) => ChargeWith(cost, ArchiveOf(run, pa.dle, pa.level), pa, lab)
  }

  function FillArchives(price: Pricing, medium: string, run: Run, archives: seq<PlacedArchive>, lab: string): nat
  {
    if archives == [] then 0
    else Charge(price, medium, run, archives[0], lab) + FillArchives(price, medium, run, archives[1..], lab)
  }

  function FillPlacements(price: Pricing, run: Run, placements: seq<Placement>, lab: string): nat
  {
    if placements == [] then 0
    else
      FillArchives(price, placements[0].medium, run, placements[0].archives, lab)
      + FillPlacements(price, run, placements[1..], lab)
  }

  /** Recomputed from nothing: everything recorded against a label. */
  function FillOn(price: Pricing, entries: seq<Entry>, lab: string): nat
  {
    if entries == [] then 0
    else FillPlacements(price, entries[0].run, entries[0].placements, lab) + FillOn(price, entries[1..], lab)
  }

  function LabelFill(price: Pricing, lbl: Label): nat
  {
    match price(lbl.pool) case None => 0 case Some(cost) => cost(VolumeLabel, 0)
  }

  // ---------------------------------------------------------------- moving stored fill

  function Floor(n: int): nat { if n < 0 then 0 else n }

  /** Every registered volume's fill after records come and go in one settlement, floored at
      zero. */
  function Settle(price: Pricing, volumes: map<string, VolumeRecord>, medium: string, run: Run,
                  added: seq<PlacedArchive>, dropped: seq<PlacedArchive>): map<string, VolumeRecord>
  {
    map l | l in volumes ::
      volumes[l].(used := Floor(volumes[l].used
        + FillArchives(price, medium, run, added, l) - FillArchives(price, medium, run, dropped, l)))
  }

  /** Gives back the charges of dropped archives, settling each by itself. */
  function GiveBack(price: Pricing, volumes: map<string, VolumeRecord>, medium: string, run: Run, dropped: seq<PlacedArchive>): map<string, VolumeRecord>
    decreases |dropped|
  {
    if dropped == [] then volumes
    else GiveBack(price, Settle(price, volumes, medium, run, [], [dropped[0]]), medium, run, dropped[1..])
  }

  // ---------------------------------------------------------------- the mutators

  /** Placement layout and member lists stay out of a run's content. */
  function Stripped(a: Archive): Archive
  {
    a.(members := [], units := [], frames := [], partSeals := [], partMap := [], indexPos := NO_FILE)
  }

  function EntryOf(c: Cat, run: string): Entry
  {
    var i := EntryAt(c.entries, run);
    if i < |c.entries| then c.entries[i] else Entry(Run(run, []), [])
  }

  function PutEntry(entries: seq<Entry>, e: Entry): seq<Entry>
  {
    var i := EntryAt(entries, e.run.id);
    if i < |entries| then entries[i := e] else entries + [e]
  }

  function CopyOn(placements: seq<Placement>, medium: string): seq<PlacedArchive>
  {
    var i := PlacementAt(placements, medium);
    if i < |placements| then placements[i].archives else []
  }

  /** The record a new copy of (dle, level) on medium replaces, if any. */
  function Replaced(placements: seq<Placement>, medium: string, dle: string, level: int): seq<PlacedArchive>
  {
    var copy := CopyOn(placements, medium);
    var i := PlacedAt(copy, dle, level);
    if i < |copy| then [copy[i]] else []
  }

  function AddArchive(price: Pricing, c: Cat, arch: Archive, medium: string, pos: ArchivePos): Cat
  {
    var e := EntryOf(c, arch.run);
    var run := Run(arch.run, PutArchive(e.run.archives, Stripped(arch)));
    var pa := Place(arch, pos);
    var out := Replaced(e.placements, medium, arch.dle, arch.level);
    Cat(PutEntry(c.entries, Entry(run, PutOnMedium(e.placements, medium, pa))),
        Settle(price, c.volumes, medium, run, [pa], out))
  }

  function DropEntry(entries: seq<Entry>, run: string): seq<Entry>
  {
    if entries == [] then []
    else if entries[0].run.id == run then DropEntry(entries[1..], run)
    else [entries[0]] + DropEntry(entries[1..], run)
  }

  function KeepMedia(placements: seq<Placement>, medium: string): seq<Placement>
  {
    if placements == [] then []
    else if placements[0].medium == medium then KeepMedia(placements[1..], medium)
    else [placements[0]] + KeepMedia(placements[1..], medium)
  }

  /** The archives of every placement on medium, in order. */
  function OnMedium(placements: seq<Placement>, medium: string): seq<PlacedArchive>
  {
    if placements == [] then []
    else (if placements[0].medium == medium then placements[0].archives else []) + OnMedium(placements[1..], medium)
  }

  function RemovePlacement(price: Pricing, c: Cat, run: string, medium: string): Cat
  {
    var i := EntryAt(c.entries, run);
    if i == |c.entries| then c
    else
      var e := c.entries[i];
      var kept := KeepMedia(e.placements, medium);
      Cat(if kept == [] then DropEntry(c.entries, run) else c.entries[i := e.(placements := kept)],
          GiveBack(price, c.volumes, medium, e.run, OnMedium(e.placements, medium)))
  }

  function KeepDles(archives: seq<PlacedArchive>, dle: string): seq<PlacedArchive>
  {
    if archives == [] then []
    else if archives[0].dle == dle then KeepDles(archives[1..], dle)
    else [archives[0]] + KeepDles(archives[1..], dle)
  }

  function OfDle(archives: seq<PlacedArchive>, dle: string): seq<PlacedArchive>
  {
    if archives == [] then []
    else (if archives[0].dle == dle then [archives[0]] else []) + OfDle(archives[1..], dle)
  }

  function KeepNonEmpty(placements: seq<Placement>): seq<Placement>
  {
    if placements == [] then []
    else (if placements[0].archives != [] then [placements[0]] else []) + KeepNonEmpty(placements[1..])
  }

  /** The entry's copies after the DLE's image goes from its copy on medium. */
  function WithoutDle(placements: seq<Placement>, medium: string, dle: string): seq<Placement>
  {
    var j := PlacementAt(placements, medium);
    KeepNonEmpty(
      if j < |placements| then placements[j := Placement(medium, KeepDles(placements[j].archives, dle))] else placements)
  }

  function RemoveArchive(price: Pricing, c: Cat, run: string, medium: string, dle: string): Cat
  {
    var i := EntryAt(c.entries, run);
    if i == |c.entries| then c
    else
      var e := c.entries[i];
      var kept := WithoutDle(e.placements, medium, dle);
      var content := if AnyPlacementHolds(kept, dle) then e.run.archives else DropArchives(e.run.archives, dle);
      Cat(if kept == [] then DropEntry(c.entries, run) else c.entries[i := Entry(Run(e.run.id, content), kept)],
          GiveBack(price, c.volumes, medium, e.run, OfDle(CopyOn(e.placements, medium), dle)))
  }

  function UpsertVolume(price: Pricing, c: Cat, lbl: Label): Cat
  {
    var start := LabelFill(price, lbl);
    var rec :=
      if lbl.name in c.volumes then
        var was := c.volumes[lbl.name];
        VolumeRecord(lbl, was.barcode, if was.lbl.epoch == lbl.epoch then was.used else start)
      else VolumeRecord(lbl, "", start + FillOn(price, c.entries, lbl.name));
    c.(volumes := c.volumes[lbl.name := rec])
  }

  function RemoveVolume(c: Cat, name: string): Cat { c.(volumes := c.volumes - {name}) }

  // ---------------------------------------------------------------- dropping a wiped reel's records

  predicate StaleRef(fp: FilePos, lbl: Label) { fp.volume == lbl.name && fp.epoch != lbl.epoch }

  /** The record names the label at another epoch than the reel now carries. */
  predicate Stale(pa: PlacedArchive, lbl: Label)
  {
    || (exists i :: 0 <= i < |pa.parts| && StaleRef(pa.parts[i], lbl))
    || StaleRef(pa.commit, lbl)
    || (pa.index.volume != "" && StaleRef(pa.index, lbl))
  }

  function Fresh(archives: seq<PlacedArchive>, lbl: Label): seq<PlacedArchive>
  {
    if archives == [] then []
    else (if Stale(archives[0], lbl) then [] else [archives[0]]) + Fresh(archives[1..], lbl)
  }

  function StaleOnes(archives: seq<PlacedArchive>, lbl: Label): seq<PlacedArchive>
  {
    if archives == [] then []
    else (if Stale(archives[0], lbl) then [archives[0]] else []) + StaleOnes(archives[1..], lbl)
  }

  function FreshPlacements(placements: seq<Placement>, lbl: Label): seq<Placement>
  {
    if placements == [] then []
    else
      var kept := Fresh(placements[0].archives, lbl);
      (if kept != [] then [Placement(placements[0].medium, kept)] else []) + FreshPlacements(placements[1..], lbl)
  }

  function FreshEntries(entries: seq<Entry>, lbl: Label): seq<Entry>
  {
    if entries == [] then []
    else
      var kept := FreshPlacements(entries[0].placements, lbl);
      (if kept != [] then [Entry(entries[0].run, kept)] else []) + FreshEntries(entries[1..], lbl)
  }

  function GiveBackPlacements(price: Pricing, volumes: map<string, VolumeRecord>, run: Run, placements: seq<Placement>, lbl: Label): map<string, VolumeRecord>
    decreases |placements|
  {
    if placements == [] then volumes
    else
      GiveBackPlacements(price,
        GiveBack(price, volumes, placements[0].medium, run, StaleOnes(placements[0].archives, lbl)),
        run, placements[1..], lbl)
  }

  function GiveBackEntries(price: Pricing, volumes: map<string, VolumeRecord>, entries: seq<Entry>, lbl: Label): map<string, VolumeRecord>
    decreases |entries|
  {
    if entries == [] then volumes
    else
      GiveBackEntries(price,
        GiveBackPlacements(price, volumes, entries[0].run, entries[0].placements, lbl),
        entries[1..], lbl)
  }

  function DropStaleOn(price: Pricing, c: Cat, lbl: Label): Cat
  {
    Cat(FreshEntries(c.entries, lbl), GiveBackEntries(price, c.volumes, c.entries, lbl))
  }

  // ---------------------------------------------------------------- absorbing scans

  /** One medium's scan: what it assembled, the labels of the volumes it read, and the runs whose
      parts it saw without a footer, with the labels holding them. */
  datatype MediumIndex = MediumIndex(placements: seq<RunPlacement>, labels: seq<Label>, orphans: map<string, set<string>>)

  function UpsertAll(price: Pricing, c: Cat, labels: seq<Label>): Cat
    decreases |labels|
  {
    if labels == [] then c else UpsertAll(price, UpsertVolume(price, c, labels[0]), labels[1..])
  }

  function DropStaleAll(price: Pricing, c: Cat, labels: seq<Label>): Cat
    decreases |labels|
  {
    if labels == [] then c else DropStaleAll(price, DropStaleOn(price, c, labels[0]), labels[1..])
  }

  /** Records, for each archive of a scanned run, the position the scan placed it at. */
  function AbsorbArchives(price: Pricing, c: Cat, p: Placement, archives: seq<Archive>): Cat
    decreases |archives|
  {
    if archives == [] then c
    else
      var i := PlacedAt(p.archives, archives[0].dle, archives[0].level);
      AbsorbArchives(price,
        if i < |p.archives| then AddArchive(price, c, archives[0], p.medium, p.archives[i].Pos()) else c,
        p, archives[1..])
  }

  function AbsorbRuns(price: Pricing, c: Cat, placements: seq<RunPlacement>): Cat
    decreases |placements|
  {
    if placements == [] then c
    else AbsorbRuns(price, AbsorbArchives(price, c, placements[0].p, placements[0].run.archives), placements[1..])
  }

  function Absorb(price: Pricing, c: Cat, idx: MediumIndex): Cat
  {
    AbsorbRuns(price, UpsertAll(price, c, idx.labels), idx.placements)
  }

  /** One scanned medium: its labels' stale records go first, then the scan is absorbed. */
  function Rescan(price: Pricing, c: Cat, idx: MediumIndex): Cat
  {
    Absorb(price, DropStaleAll(price, c, idx.labels), idx)
  }

  function RescanAll(price: Pricing, c: Cat, scans: seq<MediumIndex>): Cat
    decreases |scans|
  {
    if scans == [] then c else RescanAll(price, Rescan(price, c, scans[0]), scans[1..])
  }
}
