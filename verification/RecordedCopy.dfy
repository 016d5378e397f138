/** What the catalog's record of a written archive is worth: it charges each reel for exactly the
    files stored there, and the stream reads back from it. */
module RecordedCopy {
  import opened Records
  import opened Entries
  import opened Scan
  import opened CatalogState
  import opened CatalogView
  import opened FillLedger
  import opened Cutting
  import opened ReadPlan
  import opened PartReading
  import opened PartWriting
  import opened Transfer

  type IndexBytes = (seq<string>, seq<int>, seq<string>) -> nat

  // ---------------------------------------------------------------- what stored files cost

  /** The payload length a stored file is priced at; a footer is priced at the medium's bound,
      whatever it holds. */
  function PricedLength(payload: Payload, indexBytes: IndexBytes): nat
  {
    match payload
    case Torn => 0
    case Data(bytes) => |bytes|
    case Index(members, frames, units) => indexBytes(members, frames, units)
    case Footer(_) => 0
  }

  /** The cost of those of the files that lie on volume l. */
  function StoredCost(cost: FileCost, files: Stored, at: seq<FilePos>, indexBytes: IndexBytes, l: string): nat
    requires forall p :: p in at ==> p in files
  {
    if at == [] then 0
    else
      StoredCost(cost, files, at[..|at| - 1], indexBytes, l) + OneCost(cost, files, at[|at| - 1], indexBytes, l)
  }

  function OneCost(cost: FileCost, files: Stored, p: FilePos, indexBytes: IndexBytes, l: string): nat
    requires p in files
  {
    if p.volume == l then cost(files[p].header.kind, PricedLength(files[p].payload, indexBytes)) else 0
  }

  /** Every file a committed archive left behind: its parts, its index if it has one, its
      footer. */
  function FilesOf(res: CommitResult): seq<FilePos>
  {
    res.pos.parts + (if Indexed(res.arch) then [res.pos.index] else []) + [res.pos.commit]
  }

  lemma {:induction false} PartsCostStored(cost: FileCost, files: Stored, key: ArchiveKey, parts: seq<FilePos>, seals: seq<PartSeal>,
                                           landed: seq<Bytes>, hash: Bytes -> string, indexBytes: IndexBytes, l: string)
    requires Landed(files, key, parts, landed) && Seals(seals, landed, hash)
    ensures PartsCharge(cost, parts, seals, l) == StoredCost(cost, files, parts, indexBytes, l)
  {
    if parts != [] {
      var n := |parts| - 1;
      PartsCostStored(cost, files, key, parts[..n], seals[..n], landed[..n], hash, indexBytes, l);
      PartsChargeLast(cost, parts[..n], seals[..n], parts[n], seals[n], l);
      assert parts[..n] + [parts[n]] == parts && seals[..n] + [seals[n]] == seals;
      assert files[parts[n]] == StoredFile(Header(ArchivePart, key, n), Data(landed[n]));
    }
  }

  lemma {:induction false} PartsChargeLast(cost: FileCost, parts: seq<FilePos>, seals: seq<PartSeal>, p: FilePos, seal: PartSeal, l: string)
    requires |parts| == |seals|
    ensures PartsCharge(cost, parts + [p], seals + [seal], l) ==
      PartsCharge(cost, parts, seals, l) + if p.volume == l then cost(ArchivePart, seal.size) else 0
  {
    if parts == [] {
      assert [p][1..] == [] && [seal][1..] == [];
    } else {
      PartsChargeLast(cost, parts[1..], seals[1..], p, seal, l);
      assert (parts + [p])[1..] == parts[1..] + [p] && (seals + [seal])[1..] == seals[1..] + [seal];
    }
  }

  ghost predicate AllStored(files: Stored, res: CommitResult) { forall p :: p in FilesOf(res) ==> p in files }

  lemma CommittedIsStored(w: ArchiveWriter, files: Stored, res: CommitResult)
    requires w.Finalized(files, res)
    ensures AllStored(files, res)
  {
    forall p | p in res.pos.parts ensures p in files {
      var k :| 0 <= k < |res.pos.parts| && res.pos.parts[k] == p;
    }
  }

  /** The record of a committed archive charges a reel with the cost of the archive's files that
      lie on it: each part at the length that landed, the index at its size, the footer at the
      medium's bound. */
  lemma ChargeIsStored(cost: FileCost, w: ArchiveWriter, files: Stored, res: CommitResult, content: Archive, l: string)
    requires w.Finalized(files, res) && w.Measures(res.arch)
    requires content.compressed == res.arch.compressed && content.indexSize == res.arch.indexSize && l != ""
    ensures AllStored(files, res)
    ensures ChargeWith(cost, content, Place(res.arch, res.pos), l) == StoredCost(cost, files, FilesOf(res), w.indexBytes, l)
  {
    var pa, parts := Place(res.arch, res.pos), res.pos.parts;
    CommittedIsStored(w, files, res);
    PartsCostStored(cost, files, w.meta.Key(), parts, res.arch.partSeals, w.landed, w.hash, w.indexBytes, l);
    assert PayloadCharge(cost, content, pa, l) == StoredCost(cost, files, parts, w.indexBytes, l);
    var before := parts + if Indexed(res.arch) then [res.pos.index] else [];
    assert FilesOf(res)[..|before|] == before;
    if Indexed(res.arch) {
      assert before[..|parts|] == parts;
    } else {
      assert before == parts;
    }
  }

  lemma {:induction false} WholeOnFirstLabeled(cost: FileCost, parts: seq<FilePos>, compressed: int, l: string, i: nat)
    requires i < |parts| && parts[i].volume != "" && forall j :: 0 <= j < i ==> parts[j].volume == ""
    ensures WholeCharge(cost, parts, compressed, l) == if parts[i].volume == l then cost(ArchivePart, compressed) else 0
  {
    if i > 0 {
      assert forall j :: 0 <= j < i - 1 ==> parts[1..][j] == parts[j + 1];
      WholeOnFirstLabeled(cost, parts[1..], compressed, l, i - 1);
    }
  }

  lemma {:induction false} WholeOnNone(cost: FileCost, parts: seq<FilePos>, compressed: int, l: string)
    requires forall j :: 0 <= j < |parts| ==> parts[j].volume == ""
    ensures WholeCharge(cost, parts, compressed, l) == 0
  {
    if parts != [] {
      assert forall j :: 0 <= j < |parts[1..]| ==> parts[1..][j] == parts[j + 1];
      WholeOnNone(cost, parts[1..], compressed, l);
    }
  }

  /** A record without seals costs one part of the archive's whole size, on the first reel that
      carries a label, besides its footer and its index. */
  lemma SeallessCharge(cost: FileCost, a: Archive, pa: PlacedArchive, l: string, i: nat)
    requires |pa.seals| != |pa.parts| && l != "" && i <= |pa.parts|
    requires (i < |pa.parts| ==> pa.parts[i].volume != "") && forall j :: 0 <= j < i ==> pa.parts[j].volume == ""
    ensures ChargeWith(cost, a, pa, l) ==
      (if i < |pa.parts| && pa.parts[i].volume == l then cost(ArchivePart, a.compressed) else 0)
      + (if pa.commit.volume == l then cost(CommitFooter, 0) else 0)
      + (if pa.index.volume == l then cost(MemberIndex, a.indexSize) else 0)
  {
    if i < |pa.parts| {
      WholeOnFirstLabeled(cost, pa.parts, a.compressed, l, i);
    } else {
      WholeOnNone(cost, pa.parts, a.compressed, l);
    }
  }

  /** A medium's first record of a written archive raises each registered reel's fill by what
      the archive stored there. */
  lemma FirstLandingFills(price: Pricing, c: Cat, medium: string, w: ArchiveWriter, files: Stored, res: CommitResult, l: string)
    requires w.Finalized(files, res) && w.Measures(res.arch)
    requires price(medium).Some? && l in c.volumes && l != ""
    requires PlacedIn(c, res.arch.run, medium, res.arch.dle, res.arch.level) == None
    ensures AllStored(files, res)
    ensures var c' := AddArchive(price, c, res.arch, medium, res.pos);
      && l in c'.volumes
      && c'.volumes[l].used == c.volumes[l].used + StoredCost(price(medium).value, files, FilesOf(res), w.indexBytes, l)
  {
    var arch := res.arch;
    UsedAfterAdd(price, c, arch, medium, res.pos, l);
    assert Replaced(EntryOf(c, arch.run).placements, medium, arch.dle, arch.level) == [];
    ArchiveOfMerged(EntryOf(c, arch.run).run, Stripped(arch), arch.dle, arch.level);
    ChargeIsStored(price(medium).value, w, files, res, Stripped(arch), l);
  }

  // ---------------------------------------------------------------- reading back from the record

  /** The record an addition leaves carries the positions it was given, and each part's own seal;
      seals that do not align with the parts leave every part unsealed. */
  lemma RecordCarriesSeals(price: Pricing, c: Cat, arch: Archive, medium: string, pos: ArchivePos)
    ensures var r := PlacedIn(AddArchive(price, c, arch, medium, pos), arch.run, medium, arch.dle, arch.level);
      && r.Some? && r.value.parts == pos.parts && r.value.commit == pos.commit && r.value.index == pos.index
      && forall i :: 0 <= i < |pos.parts| ==>
           IOParts(r.value.parts, r.value.seals)[i] ==
           Part(pos.parts[i], if |arch.partSeals| == |pos.parts| then arch.partSeals[i] else NO_SEAL)
  {
    AddView(price, c, arch, medium, pos, arch.run, medium, arch.dle, arch.level);
  }

  /** A committed archive, once recorded, reads back by range from its catalog record alone: the
      slice of the stream that was written, every segment's seal intact. */
  lemma RecordedReadsBack(price: Pricing, c: Cat, medium: string, w: ArchiveWriter, files: Stored, res: CommitResult,
                          open: Opener, rng: Range)
    requires w.Finalized(files, res) && w.Measures(res.arch) && res.arch.Key() == w.meta.Key()
    requires Digests(w.hash) && OpensStored(open, files)
    requires rng.Fits() && 0 <= rng.off <= |Concat(w.landed)| < TWO63
    ensures var c' := AddArchive(price, c, res.arch, medium, res.pos);
      var r := PlacedIn(c', res.arch.run, medium, res.arch.dle, res.arch.level);
      && r.Some?
      && var ps := IOParts(r.value.parts, r.value.seals);
         && TotalSize(ps) == |Concat(w.landed)| && PlanOf(ps, rng).Plan?
         && ReadsBack(Job(ps, res.arch.Key(), PlanOf(ps, rng).segs, open, w.hash), Concat(w.landed), rng)
  {
    var arch, pos := res.arch, res.pos;
    RecordCarriesSeals(price, c, arch, medium, pos);
    var r := PlacedIn(AddArchive(price, c, arch, medium, pos), arch.run, medium, arch.dle, arch.level).value;
    assert IOParts(r.parts, r.seals) == IOParts(pos.parts, arch.partSeals);
    WriteThenRead(files, w.meta.Key(), pos.parts, arch.partSeals, w.landed, w.hash, open, rng);
  }
}
