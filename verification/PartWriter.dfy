/** Writing one archive: parts sealed as they land, a member index when there is something to
    index, and the commit footer last. */
module PartWriting {
  import opened Records
  import opened Scan
  import opened ReadPlan
  import opened PartReading
  import opened Cutting

  datatype Payload = Torn | Data(bytes: Bytes) | Index(members: seq<string>, frames: seq<int>, units: seq<string>) | Footer(arch: Archive)

  datatype StoredFile = StoredFile(header: Header, payload: Payload)

  type Stored = map<FilePos, StoredFile>

  /** Nothing stored before has changed or gone. */
  ghost predicate Grew(before: Stored, after: Stored)
  {
    forall p :: p in before ==> p in after && after[p] == before[p]
  }

  /** What was added holds no commit footer. */
  ghost predicate NoNewFooter(before: Stored, after: Stored)
  {
    forall p :: p in after && p !in before ==> !after[p].payload.Footer?
  }

  /** The volumes one write lands on. Which position a file gets, and whether an append fails
      (leaving at worst a stray file), is up to the device. */
  class Media {
    var files: Stored
    /** Whether the device, the allocator or the recorder has ever refused anything. */
    ghost var refused: bool

    /** Whether a slot, a header or a record is granted is not the writer's to say. */
    method Grants() returns (ok: bool)
      modifies this`refused
      ensures refused == (old(refused) || !ok)
    {
      ok := *;
      refused := refused || !ok;
    }

    /** How much of n bytes the device takes. */
    method Takes(n: nat) returns (k: nat)
      modifies this`refused
      ensures k <= n && refused == (old(refused) || k < n)
    {
      k :| 0 <= k <= n;
      refused := refused || k < n;
    }

    method Append(volume: string, epoch: int, f: StoredFile) returns (ok: bool, pos: FilePos)
      modifies this
      ensures refused == (old(refused) || !ok)
      ensures Grew(old(files), files)
      ensures !ok ==> NoNewFooter(old(files), files)
      ensures ok ==> pos !in old(files) && pos.volume == volume && pos.epoch == epoch && files == old(files)[pos := f]
    {
      var p: int := *;
      pos := FilePos(volume, epoch, p);
      ok := *;
      ok := ok && pos !in files;
      if ok {
        files := files[pos := f];
      } else if pos !in files {
        files := files[pos := StoredFile(f.header, Torn)];
      }
      refused := refused || !ok;
    }
  }

  /** One answer of the part allocator: the volume to write to and the room for payload there
      (negative: unbounded). */
  datatype Slot = Slot(volume: string, epoch: int, cap: int)

  function CapsOf(slots: seq<Slot>): (caps: seq<int>)
    ensures |caps| == |slots|
  {
    seq(|slots|, i requires 0 <= i < |slots| => slots[i].cap)
  }

  function SizesOf(seals: seq<PartSeal>): (sizes: seq<int>)
    ensures |sizes| == |seals|
  {
    seq(|seals|, i requires 0 <= i < |seals| => seals[i].size)
  }

  /** What the producer of a fresh dump reports once its stream has ended. */
  datatype Totals = Totals(info: string, fileCount: nat, uncompressed: int, members: seq<string>, frames: seq<int>, units: seq<string>)

  datatype CommitResult = CommitResult(arch: Archive, pos: ArchivePos)

  /** The seals of these payloads, before any raw size is folded in. */
  predicate Seals(seals: seq<PartSeal>, landed: seq<Bytes>, hash: Bytes -> string)
  {
    |seals| == |landed| && forall k :: 0 <= k < |seals| ==> seals[k].size == |landed[k]| && seals[k].sha == hash(landed[k])
  }

  /** The medium holds part k of the archive at the k-th position. */
  ghost predicate Landed(files: Stored, key: ArchiveKey, parts: seq<FilePos>, landed: seq<Bytes>)
  {
    && |parts| == |landed|
    && forall k :: 0 <= k < |parts| ==>
         parts[k] in files && files[parts[k]] == StoredFile(Header(ArchivePart, key, k), Data(landed[k]))
  }

  lemma LandedLengths(files: Stored, key: ArchiveKey, parts: seq<FilePos>, landed: seq<Bytes>)
    requires Landed(files, key, parts, landed)
    ensures |parts| == |landed|
  {
  }

  lemma LandedMore(before: Stored, after: Stored, key: ArchiveKey, parts: seq<FilePos>, landed: seq<Bytes>, pos: FilePos, bytes: Bytes)
    requires Landed(before, key, parts, landed) && Grew(before, after)
    requires pos in after && after[pos] == StoredFile(Header(ArchivePart, key, |parts|), Data(bytes))
    ensures Landed(after, key, parts + [pos], landed + [bytes])
  {
  }

  lemma SealsMore(seals: seq<PartSeal>, landed: seq<Bytes>, hash: Bytes -> string, bytes: Bytes)
    requires Seals(seals, landed, hash)
    ensures Seals(seals + [PartSeal(|bytes|, hash(bytes), 0)], landed + [bytes], hash)
  {
  }

  /** Raw sizes: where each atom's successor starts in the raw stream, less where it starts. */
  function RawSpans(frames: seq<int>, uncompressed: int): (spans: seq<int>)
    ensures |spans| == |frames|
  {
    seq(|frames|, i requires 0 <= i < |frames| => (if i + 1 < |frames| then frames[i + 1] else uncompressed) - frames[i])
  }

  function RawSizesOf(seals: seq<PartSeal>): (sizes: seq<int>)
    ensures |sizes| == |seals|
  {
    seq(|seals|, i requires 0 <= i < |seals| => seals[i].rawSize)
  }

  class ArchiveWriter {
    const meta: Archive
    const expectSha: string
    const copySeals: Option<seq<PartSeal>>
    const atomBound: int
    const media: Media
    const hash: Bytes -> string
    const indexBytes: (seq<string>, seq<int>, seq<string>) -> nat

    var slots: seq<Slot>
    var h: Bytes
    var n: nat
    var ph: Bytes
    var pn: nat
    var parts: seq<FilePos>
    var seals: seq<PartSeal>
    var part: nat
    var place: Slot
    var committed: Option<CommitResult>

    ghost var landed: seq<Bytes>
    ghost var inPart: bool
    /** Whether some call on this writer has failed. */
    ghost var failed: bool

    ghost predicate Valid()
      reads this, media
    {
      && Landed(media.files, meta.Key(), parts, landed) && Seals(seals, landed, hash)
      && part == |parts| + (if inPart then 1 else 0)
      && pn == |ph| && n == |h| && h == Concat(landed) + (if inPart then ph else [])
    }

    /** This write re-authors a committed archive, whose checksum it has to meet. */
    predicate IsCopy() { expectSha != "" }

    /** Every part is given the same answer: no bound, the part is one atom. */
    predicate AtomSized() { copySeals.None? && atomBound > 0 }

    /** The allocator answers part by part, with a volume and the room there. */
    predicate TakesSlots() { copySeals.None? && atomBound <= 0 }

    /** The caps the coming parts will be given, as far as they are known. */
    ghost function Caps(): seq<int>
      reads this`slots, this`part
    {
      match copySeals
      case Some(source) => if part <= |source| then SizesOf(source)[part..] else []
      case None => if atomBound > 0 then [-1] else CapsOf(slots)
    }

    constructor Fresh(meta: Archive, atomBound: int, slots: seq<Slot>, media: Media, hash: Bytes -> string,
                      indexBytes: (seq<string>, seq<int>, seq<string>) -> nat)
      ensures Valid() && landed == [] && !inPart && !failed && committed == None && this.slots == slots
      ensures this.meta == meta && expectSha == "" && copySeals == None && this.media == media && this.hash == hash
      ensures this.atomBound == (if meta.shape == Atomic then atomBound else 0) && this.indexBytes == indexBytes
    {
      this.meta, this.expectSha, this.copySeals := meta, "", None;
      this.atomBound := if meta.shape == Atomic then atomBound else 0;
      this.media, this.hash, this.indexBytes, this.slots := media, hash, indexBytes, slots;
      h, n, ph, pn, parts, seals, part, committed := [], 0, [], 0, [], [], 0, None;
      place := Slot("", 0, 0);
      landed, inPart, failed := [], false, false;
    }

    constructor Copy(source: Archive, slots: seq<Slot>, media: Media, hash: Bytes -> string,
                     indexBytes: (seq<string>, seq<int>, seq<string>) -> nat)
      ensures Valid() && landed == [] && !inPart && !failed && committed == None && this.slots == slots
      ensures meta == source && expectSha == source.sha && this.media == media && this.hash == hash && atomBound == 0
      ensures copySeals == (if source.shape == Atomic && |source.partSeals| == source.parts > 0 then Some(source.partSeals) else None)
      ensures this.indexBytes == indexBytes
    {
      this.meta, this.expectSha := source, source.sha;
      this.copySeals := if source.shape == Atomic && |source.partSeals| == source.parts && source.parts > 0 then Some(source.partSeals) else None;
      this.atomBound := 0;
      this.media, this.hash, this.indexBytes, this.slots := media, hash, indexBytes, slots;
      h, n, ph, pn, parts, seals, part, committed := [], 0, [], 0, [], [], 0, None;
      place := Slot("", 0, 0);
      landed, inPart, failed := [], false, false;
    }

    method NextSlot() returns (ok: bool, slot: Slot)
      modifies this`slots, media`refused
      ensures old(media.refused) ==> media.refused
      ensures !ok ==> media.refused || old(Caps()) == []
      ensures ok ==> old(Caps()) != [] && slot.cap == old(Caps())[0]
      ensures ok && TakesSlots() ==> old(slots) != [] && slot == old(slots)[0] && slots == old(slots)[1..]
      ensures copySeals.Some? || atomBound > 0 ==> slots == old(slots)
    {
      ok, slot := false, Slot("", 0, 0);
      var volume: string := *;
      var epoch: int := *;
      if copySeals.Some? {
        if part >= |copySeals.value| {
          return;
        }
        slot := Slot(volume, epoch, copySeals.value[part].size);
        ok := media.Grants();
      } else if atomBound > 0 {
        slot := Slot(volume, epoch, -1);
        ok := media.Grants();
      } else if |slots| > 0 {
        ok, slot, slots := true, slots[0], slots[1..];
      }
    }

    /** Opens the next part on the allocator's next slot. */
    method NextPart() returns (ok: bool, max: int)
      requires Valid() && !inPart
      modifies this, media`refused
      ensures old(media.refused) ==> media.refused
      ensures !ok ==> media.refused || old(Caps()) == []
      ensures ok ==> Valid() && inPart && ph == [] && h == old(h) && landed == old(landed) && committed == old(committed)
      ensures ok ==> old(Caps()) != [] && max == old(Caps())[0]
      ensures ok ==> Caps() == if AtomSized() then old(Caps()) else old(Caps())[1..]
      ensures ok ==> parts == old(parts) && place.cap == max
      ensures ok && TakesSlots() ==> old(slots) != [] && place == old(slots)[0] && slots == old(slots)[1..]
      ensures failed == (old(failed) || !ok)
    {
      hide Valid;
      ok, max := OpenPart();
      failed := failed || !ok;
    }

    method OpenPart() returns (ok: bool, max: int)
      requires Valid() && !inPart
      modifies this`slots, this`part, this`ph, this`pn, this`place, this`inPart, media`refused
      ensures old(media.refused) ==> media.refused
      ensures !ok ==> media.refused || old(Caps()) == []
      ensures ok ==> Valid() && inPart && ph == []
      ensures ok ==> old(Caps()) != [] && max == old(Caps())[0] && place.cap == max
      ensures ok ==> Caps() == if AtomSized() then old(Caps()) else old(Caps())[1..]
      ensures ok && TakesSlots() ==> old(slots) != [] && place == old(slots)[0] && slots == old(slots)[1..]
    {
      hide Landed;
      hide Seals;
      max := 0;
      var slot;
      ok, slot := NextSlot();
      if ok {
        ok := media.Grants();
      }
      if ok {
        part := part + 1;
        ph, pn, place, inPart := [], 0, slot, true;
        max := slot.cap;
      }
    }

    /** Writes data to the open part; a short write reports failure but is metered. */
    method Write(data: Bytes) returns (wrote: nat, ok: bool)
      requires Valid() && inPart
      modifies this`h, this`n, this`ph, this`pn, this`failed, media`refused
      ensures media.refused == (old(media.refused) || !ok)
      ensures wrote <= |data| && (ok <==> wrote == |data|) && failed == (old(failed) || !ok)
      ensures Valid() && inPart && ph == old(ph) + data[..wrote] && h == old(h) + data[..wrote]
      ensures Caps() == old(Caps())
    {
      hide Landed;
      hide Seals;
      wrote := media.Takes(|data|);
      ok := wrote == |data|;
      h, n := h + data[..wrote], n + wrote;
      ph, pn := ph + data[..wrote], pn + wrote;
      failed := failed || !ok;
    }

    /** Closes the open part: it lies, sealed, on the volume its slot named. */
    method ClosePart() returns (ok: bool)
      requires Valid() && inPart
      modifies this`parts, this`seals, this`landed, this`inPart, this`failed, media
      ensures Grew(old(media.files), media.files) && media.refused == (old(media.refused) || !ok)
      ensures ok ==> Valid() && !inPart && landed == old(landed) + [old(ph)]
      ensures ok ==> |parts| == |old(parts)| + 1 && parts[..|old(parts)|] == old(parts)
      ensures ok ==> parts[|old(parts)|].volume == place.volume && parts[|old(parts)|].epoch == place.epoch
      ensures Caps() == old(Caps()) && failed == (old(failed) || !ok)
    {
      hide Valid;
      ok := StorePart();
      failed := failed || !ok;
    }

    method StorePart() returns (ok: bool)
      requires Valid() && inPart
      modifies this`parts, this`seals, this`landed, this`inPart, media
      ensures Grew(old(media.files), media.files) && media.refused == (old(media.refused) || !ok)
      ensures ok ==> Valid() && !inPart && landed == old(landed) + [old(ph)]
      ensures ok ==> |parts| == |old(parts)| + 1 && parts[..|old(parts)|] == old(parts)
      ensures ok ==> parts[|old(parts)|].volume == place.volume && parts[|old(parts)|].epoch == place.epoch
      ensures Caps() == old(Caps())
    {
      hide Caps;
      hide Landed;
      hide Seals;
      var pos;
      ok, pos := media.Append(place.volume, place.epoch, StoredFile(Header(ArchivePart, meta.Key(), part - 1), Data(ph)));
      if ok {
        LandedLengths(old(media.files), meta.Key(), parts, landed);
        LandedMore(old(media.files), media.files, meta.Key(), parts, landed, pos, ph);
        SealsMore(seals, landed, hash, ph);
        parts, seals := parts + [pos], seals + [PartSeal(pn, hash(ph), 0)];
        assert (landed + [ph])[..|landed|] == landed;
        landed, inPart := landed + [ph], false;
      }
    }

    /** The record's descriptive half: a copy keeps its source's, a fresh dump takes the
        producer's, without any index lists when no file changed. */
    ghost predicate Describes(arch: Archive, t: Totals)
    {
      && arch.Key() == meta.Key() && arch.shape == meta.shape && arch.indexSize == meta.indexSize
      && (IsCopy() ==> arch.info == meta.info && arch.members == meta.members && arch.units == meta.units)
      && (!IsCopy() ==> arch.info == t.info)
      && (!IsCopy() && t.fileCount == 0 ==> arch.members == [] && arch.units == [] && arch.frames == [])
      && (!IsCopy() && t.fileCount > 0 ==> arch.members == t.members && arch.units == t.units)
    }

    /** The record's layout half agrees with the bytes that landed. */
    ghost predicate Measures(arch: Archive)
      reads this
    {
      && arch.compressed == |Concat(landed)| && arch.sha == hash(Concat(landed))
      && arch.parts == |landed| && Seals(arch.partSeals, landed, hash)
    }

    /** An atomic copy whose parts are its source's keeps the source's raw sizes; a fresh
        atomic dump takes them from the producer's boundaries; any other part has none. */
    ghost predicate RawSizes(arch: Archive, t: Totals)
      reads this
    {
      var sizes := RawSizesOf(arch.partSeals);
      if meta.shape == Atomic && copySeals.Some? && |copySeals.value| == |landed| then
        sizes == RawSizesOf(copySeals.value)
      else if meta.shape == Atomic && |t.frames| == |landed| then
        sizes == RawSpans(t.frames, t.uncompressed) && arch.frames == []
      else sizes == RawSizesOf(seals)
    }

    /** The frame table: the source's for a copy, the producer's for a fresh dump that has any
        file; none once it has been spent on an atomic dump's raw sizes. */
    ghost predicate FrameTable(arch: Archive, t: Totals)
      reads this
    {
      var spent := meta.shape == Atomic && |t.frames| == |landed| && !(copySeals.Some? && |copySeals.value| == |landed|);
      arch.frames == if spent then [] else if IsCopy() then meta.frames else if t.fileCount == 0 then [] else t.frames
    }

    method Assemble(t: Totals) returns (ok: bool, arch: Archive)
      requires Valid() && !inPart
      ensures ok <==> !IsCopy() || hash(Concat(landed)) == expectSha
      ensures ok && (IsCopy() ==> meta.sha == expectSha) ==> Describes(arch, t) && Measures(arch) && RawSizes(arch, t) && FrameTable(arch, t)
    {
      ok, arch := true, meta.(compressed := n, parts := |parts|, partSeals := seals);
      assert Concat(landed) + [] == Concat(landed);
      if expectSha != "" {
        if hash(h) != expectSha {
          return false, arch;
        }
      } else {
        arch := arch.(sha := hash(h), info := t.info, members := t.members, frames := t.frames, units := t.units);
        if t.fileCount == 0 {
          arch := arch.(members := [], frames := [], units := []);
        }
      }
      if arch.shape == Atomic && copySeals.Some? && |copySeals.value| == |arch.partSeals| {
        var rawSealed := FoldRawSizes(arch.partSeals, RawSizesOf(copySeals.value));
        arch := arch.(partSeals := rawSealed);
      } else if arch.shape == Atomic && |t.frames| == |arch.partSeals| {
        var rawSealed := FoldRawSizes(arch.partSeals, RawSpans(t.frames, t.uncompressed));
        arch := arch.(partSeals := rawSealed, frames := []);
      }
    }

    /** The index (if any) and then the footer are on the medium, naming where everything lies. */
    ghost predicate Finalized(files: Stored, res: CommitResult)
      reads this
    {
      var arch, pos := res.arch, res.pos;
      && arch.partMap == parts == pos.parts && arch.indexPos == pos.index
      && Landed(files, meta.Key(), parts, landed)
      && (Indexed(arch) ==> IndexIsThere(files, res))
      && (!Indexed(arch) ==> pos.index == NO_FILE)
      && pos.commit in files
      && files[pos.commit] == StoredFile(Header(CommitFooter, meta.Key(), 0), Footer(arch.(members := [], frames := [], units := [])))
    }

    ghost predicate IndexIsThere(files: Stored, res: CommitResult)
    {
      && res.pos.index in files && res.arch.indexSize == indexBytes(res.arch.members, res.arch.frames, res.arch.units)
      && files[res.pos.index] == StoredFile(Header(MemberIndex, meta.Key(), 0), Index(res.arch.members, res.arch.frames, res.arch.units))
    }

    method Finalize(arch0: Archive) returns (ok: bool, res: CommitResult)
      requires Valid() && !inPart && arch0.Key() == meta.Key()
      modifies media
      ensures Grew(old(media.files), media.files) && Valid() && media.refused == (old(media.refused) || !ok)
      ensures ok ==> Finalized(media.files, res)
      ensures ok ==> res.arch == arch0.(indexSize := res.arch.indexSize, partMap := parts, indexPos := res.pos.index)
      ensures ok && !Indexed(arch0) ==> res.arch.indexSize == arch0.indexSize
      // the footer is the last thing written: without success none appears
      ensures !ok ==> NoNewFooter(old(media.files), media.files)
    {
      var arch, index := arch0, NO_FILE;
      res := CommitResult(arch, ArchivePos([], NO_FILE, NO_FILE));
      if |arch.members| > 0 || |arch.units| > 0 {
        arch := arch.(indexSize := indexBytes(arch.members, arch.frames, arch.units));
        ok, index := WriteRecord(MemberIndex, Index(arch.members, arch.frames, arch.units));
        if !ok {
          return;
        }
      }
      arch := arch.(partMap := parts, indexPos := index);
      var commit;
      ok, commit := WriteRecord(CommitFooter, Footer(arch.(members := [], frames := [], units := [])));
      if ok {
        res := CommitResult(arch, ArchivePos(parts, commit, index));
      }
    }

    method WriteRecord(kind: Kind, payload: Payload) returns (ok: bool, pos: FilePos)
      requires Valid()
      modifies media
      ensures Valid() && Grew(old(media.files), media.files) && media.refused == (old(media.refused) || !ok)
      ensures ok ==> pos !in old(media.files) && media.files == old(media.files)[pos := StoredFile(Header(kind, meta.Key(), 0), payload)]
      ensures !ok ==> NoNewFooter(old(media.files), media.files)
    {
      var volume: string := *;
      var epoch: int := *;
      ok := media.Grants();
      if !ok {
        return false, NO_FILE;
      }
      ok, pos := media.Append(volume, epoch, StoredFile(Header(kind, meta.Key(), 0), payload));
    }

    /** Finishes the archive: checks a copy against its source, writes index and footer, and
        reports the result, which the recorder may refuse. */
    method Commit(t: Totals) returns (ok: bool)
      requires Valid() && !inPart && (IsCopy() ==> meta.sha == expectSha)
      modifies this`committed, this`failed, media
      ensures Valid() && Grew(old(media.files), media.files)
      ensures old(media.refused) ==> media.refused
      ensures !ok ==> media.refused || (IsCopy() && hash(Concat(landed)) != expectSha)
      ensures ok ==> committed.Some? && Finalized(media.files, committed.value)
      ensures ok ==> Describes(committed.value.arch.(indexSize := meta.indexSize), t)
      ensures ok ==> Measures(committed.value.arch) && RawSizes(committed.value.arch, t) && FrameTable(committed.value.arch, t)
      ensures !ok ==> committed == old(committed)
      ensures failed == (old(failed) || !ok)
      // bytes that do not match their source leave nothing behind
      ensures IsCopy() && hash(Concat(landed)) != expectSha ==> !ok && media.files == old(media.files)
    {
      var res;
      ok, res := Seal(t);
      if ok {
        committed := Some(res);
      }
      failed := failed || !ok;
    }

    method Seal(t: Totals) returns (ok: bool, res: CommitResult)
      requires Valid() && !inPart && (IsCopy() ==> meta.sha == expectSha)
      modifies media
      ensures Valid() && Grew(old(media.files), media.files)
      ensures old(media.refused) ==> media.refused
      ensures !ok ==> media.refused || (IsCopy() && hash(Concat(landed)) != expectSha)
      ensures ok ==> Finalized(media.files, res)
      ensures ok ==> Describes(res.arch.(indexSize := meta.indexSize), t)
      ensures ok ==> Measures(res.arch) && RawSizes(res.arch, t) && FrameTable(res.arch, t)
      ensures IsCopy() && hash(Concat(landed)) != expectSha ==> !ok && media.files == old(media.files)
    {
      var arch;
      ok, arch := Assemble(t);
      res := CommitResult(arch, ArchivePos([], NO_FILE, NO_FILE));
      if !ok {
        return;
      }
      ok, res := Finalize(arch);
      if ok {
        // the recorder may refuse
        ok := media.Grants();
      }
    }
  }

  predicate Indexed(arch: Archive) { arch.members != [] || arch.units != [] }

  method FoldRawSizes(seals: seq<PartSeal>, spans: seq<int>) returns (r: seq<PartSeal>)
    requires |seals| == |spans|
    ensures |r| == |seals| && RawSizesOf(r) == spans
    ensures forall k :: 0 <= k < |r| ==> r[k].size == seals[k].size && r[k].sha == seals[k].sha
  {
    r := seals;
    for i := 0 to |seals|
      invariant |r| == |seals|
      invariant forall k :: 0 <= k < |r| ==> r[k] == if k < i then seals[k].(rawSize := spans[k]) else seals[k]
    {
      r := r[i := r[i].(rawSize := spans[i])];
    }
  }
}
