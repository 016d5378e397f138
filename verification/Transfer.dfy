/** Driving a stream through an archive writer, and reading back what it wrote. */
module Transfer {
  import opened Records
  import opened Scan
  import opened ReadPlan
  import opened PartReading
  import opened Cutting
  import opened PartWriting

  lemma Extends(base: Bytes, rest: Bytes, i: nat, n: nat, m: nat)
    requires i + m <= |rest| && n <= m
    ensures rest[i..i + m][..n] == rest[i..i + n]
    ensures rest[..i] + rest[i..i + n] == rest[..i + n]
    ensures (base + rest[..i]) + rest[i..i + n] == base + rest[..i + n]
  {
    assert (base + rest[..i]) + rest[i..i + n] == base + (rest[..i] + rest[i..i + n]);
  }

  /** The producer of a stream. In what chunks it hands the stream out, and whether it breaks off,
      is up to it. */
  class Source {
    ghost var failed: bool

    constructor ()
      ensures !failed
    {
      failed := false;
    }

    method Chunk(limit: nat) returns (ok: bool, n: nat)
      requires limit >= 1
      modifies this
      ensures failed == (old(failed) || !ok) && 1 <= n <= limit
    {
      ok := *;
      n :| 1 <= n <= limit;
      failed := failed || !ok;
    }
  }

  /** Nothing a device or the producer refused is forgotten, and a failure stems from one. */
  twostate predicate FailsForCause(w: ArchiveWriter, src: Source, ok: bool, other: bool)
    reads w.media, src
  {
    && (old(w.media.refused) ==> w.media.refused) && (old(src.failed) ==> src.failed)
    && (ok || other || w.media.refused || src.failed)
  }

  /** Copies into the open part up to its cap, in whatever chunks the source hands out, and
      looks one byte past a full part to tell "exactly done" from "more to come". */
  method CopyPart(w: ArchiveWriter, src: Source, rest: Bytes, max: int) returns (ok: bool, taken: nat, eof: bool)
    requires w.Valid() && w.inPart && w.ph == []
    modifies w, w.media`refused, src
    ensures FailsForCause(w, src, ok, false)
    ensures w.Caps() == old(w.Caps()) && w.landed == old(w.landed) && w.committed == old(w.committed)
    ensures w.parts == old(w.parts) && w.place == old(w.place) && w.slots == old(w.slots)
    ensures ok ==> w.Valid() && w.inPart && eof == EndsHere(rest, max)
    ensures ok ==> taken == (if eof then |rest| else max) && w.ph == rest[..taken]
  {
    ok, taken, eof := true, 0, false;
    var limit := if max < 0 || |rest| < max then |rest| else max;
    while ok && taken < limit
      invariant taken <= limit
      invariant w.Caps() == old(w.Caps()) && w.landed == old(w.landed) && w.committed == old(w.committed)
      invariant w.parts == old(w.parts) && w.place == old(w.place) && w.slots == old(w.slots)
      invariant FailsForCause(w, src, ok, false)
      invariant ok ==> w.Valid() && w.inPart && w.ph == rest[..taken]
      decreases ok, limit - taken
    {
      var chunk;
      ok, chunk := src.Chunk(limit - taken);
      if !ok {
        return;
      }
      var wrote;
      wrote, ok := w.Write(rest[taken..taken + chunk]);
      Extends([], rest, taken, wrote, chunk);
      taken := taken + wrote;
    }
    eof := taken == |rest|;
  }

  /** One more part, on the slot's volume. */
  ghost predicate OneMoreOn(before: seq<FilePos>, parts: seq<FilePos>, slot: Slot)
  {
    && |parts| == |before| + 1 && parts[..|before|] == before
    && parts[|before|].volume == slot.volume && parts[|before|].epoch == slot.epoch
  }

  /** Each further part lies on the volume of the slot whose cap it was cut to. */
  ghost predicate OnSlots(before: seq<FilePos>, parts: seq<FilePos>, slots: seq<Slot>)
  {
    && |before| <= |parts| <= |before| + |slots| && parts[..|before|] == before
    && forall k :: |before| <= k < |parts| ==>
         parts[k].volume == slots[k - |before|].volume && parts[k].epoch == slots[k - |before|].epoch
  }

  lemma SlotStep(before: seq<FilePos>, parts: seq<FilePos>, more: seq<FilePos>, slots: seq<Slot>)
    requires OnSlots(before, parts, slots) && |parts| - |before| < |slots|
    requires OneMoreOn(parts, more, slots[|parts| - |before|])
    ensures OnSlots(before, more, slots)
  {
    assert more[..|before|] == more[..|parts|][..|before|];
    forall k | 0 <= k < |parts| ensures more[k] == parts[k] { assert more[..|parts|][k] == more[k]; }
  }

  /** One part of the drive loop. */
  method DrivePart(w: ArchiveWriter, src: Source, rest: Bytes) returns (ok: bool, taken: nat, eof: bool)
    requires w.Valid() && !w.inPart
    modifies w, w.media, src
    ensures FailsForCause(w, src, ok, old(w.Caps()) == [])
    ensures Grew(old(w.media.files), w.media.files)
    ensures ok ==> w.Valid() && !w.inPart && w.committed == old(w.committed)
    ensures ok ==> old(w.Caps()) != [] && eof == EndsHere(rest, old(w.Caps())[0])
    ensures ok ==> taken == (if eof then |rest| else old(w.Caps())[0]) && w.landed == old(w.landed) + [rest[..taken]]
    ensures ok && !eof ==> w.Caps() == old(w.Caps())[1..]
    ensures ok && w.TakesSlots() ==> old(w.slots) != [] && w.slots == old(w.slots)[1..] && OneMoreOn(old(w.parts), w.parts, old(w.slots)[0])
  {
    hide ArchiveWriter.Valid;
    taken, eof := 0, false;
    var max;
    ok, max := w.NextPart();
    if ok {
      ok, taken, eof := CopyPart(w, src, rest, max);
    }
    if ok {
      ok := w.ClosePart();
    }
  }

  /** What has landed and what is still to be cut make up the whole cut. */
  ghost predicate CutSoFar(start: seq<Bytes>, stream: Bytes, caps: seq<int>, landed: seq<Bytes>, rest: Bytes, left: seq<int>)
  {
    (Fits(stream, caps) <==> Fits(rest, left)) && start + Cut(stream, caps) == landed + Cut(rest, left)
  }

  lemma CutStep(start: seq<Bytes>, stream: Bytes, caps: seq<int>, landed: seq<Bytes>, rest: Bytes, left: seq<int>)
    requires CutSoFar(start, stream, caps, landed, rest, left) && left != []
    ensures EndsHere(rest, left[0]) ==> Fits(stream, caps) && start + Cut(stream, caps) == landed + [rest]
    ensures !EndsHere(rest, left[0]) ==> CutSoFar(start, stream, caps, landed + [rest[..left[0]]], rest[left[0]..], left[1..])
  {
    if !EndsHere(rest, left[0]) {
      var more := Cut(rest[left[0]..], left[1..]);
      assert landed + ([rest[..left[0]]] + more) == (landed + [rest[..left[0]]]) + more;
    }
  }

  /** The drive loop: part after part until the stream is exhausted. It fails only when a device
      or the producer does, or when the parts run out of room. */
  method Drive(w: ArchiveWriter, src: Source, stream: Bytes) returns (ok: bool)
    requires w.Valid() && !w.inPart
    modifies w, w.media, src
    ensures FailsForCause(w, src, ok, !Fits(stream, old(w.Caps())))
    ensures Grew(old(w.media.files), w.media.files)
    ensures ok ==> w.Valid() && !w.inPart && w.committed == old(w.committed)
    ensures ok ==> Fits(stream, old(w.Caps())) && w.landed == old(w.landed) + Cut(stream, old(w.Caps()))
    ensures ok && w.TakesSlots() ==> OnSlots(old(w.parts), w.parts, old(w.slots))
  {
    hide ArchiveWriter.Valid;
    var rest, eof := stream, false;
    while !eof
      invariant Grew(old(w.media.files), w.media.files)
      invariant w.Valid() && !w.inPart && w.committed == old(w.committed)
      invariant FailsForCause(w, src, true, false)
      invariant eof ==> Fits(stream, old(w.Caps())) && w.landed == old(w.landed) + Cut(stream, old(w.Caps()))
      invariant !eof ==> CutSoFar(old(w.landed), stream, old(w.Caps()), w.landed, rest, w.Caps())
      invariant w.TakesSlots() ==> OnSlots(old(w.parts), w.parts, old(w.slots)) && |w.parts| >= |old(w.parts)|
      invariant w.TakesSlots() ==> |w.parts| - |old(w.parts)| <= |old(w.slots)| && w.slots == old(w.slots)[|w.parts| - |old(w.parts)|..]
      decreases !eof, |w.Caps()|
    {
      ghost var landed, left, parts := w.landed, w.Caps(), w.parts;
      var taken;
      ok, taken, eof := DrivePart(w, src, rest);
      if !ok {
        return;
      }
      CutStep(old(w.landed), stream, old(w.Caps()), landed, rest, left);
      if w.TakesSlots() { SlotStep(old(w.parts), parts, w.parts, old(w.slots)); }
      assert eof ==> rest[..taken] == rest;
      rest := rest[taken..];
    }
    ok := true;
  }

  method DriveAtom(w: ArchiveWriter, src: Source, atom: Bytes) returns (ok: bool)
    requires w.Valid() && !w.inPart && w.atomBound > 0
    modifies w, w.media, src
    ensures FailsForCause(w, src, ok, old(w.Caps()) == [])
    ensures Grew(old(w.media.files), w.media.files)
    ensures ok ==> w.Valid() && !w.inPart && w.committed == old(w.committed) && w.landed == old(w.landed) + [atom]
  {
    hide ArchiveWriter.Valid;
    var max, taken, eof;
    ok, max := w.NextPart();
    if ok {
      ok, taken, eof := CopyPart(w, src, atom, -1);
    }
    if ok {
      assert atom[..|atom|] == atom;
      ok := w.ClosePart();
    }
  }

  /** The drive mode of an atomic dump: each atom becomes exactly one part, whatever its size. */
  method DriveAtoms(w: ArchiveWriter, src: Source, atoms: seq<Bytes>) returns (ok: bool)
    requires w.Valid() && !w.inPart && w.atomBound > 0
    modifies w, w.media, src
    ensures w.copySeals.None? ==> FailsForCause(w, src, ok, false)
    ensures Grew(old(w.media.files), w.media.files)
    ensures ok ==> w.Valid() && !w.inPart && w.committed == old(w.committed) && w.landed == old(w.landed) + atoms
  {
    hide ArchiveWriter.Valid;
    for i := 0 to |atoms|
      invariant Grew(old(w.media.files), w.media.files)
      invariant w.Valid() && !w.inPart && w.committed == old(w.committed) && w.landed == old(w.landed) + atoms[..i]
      invariant FailsForCause(w, src, true, false)
    {
      ok := DriveAtom(w, src, atoms[i]);
      if !ok {
        return;
      }
      assert (old(w.landed) + atoms[..i]) + [atoms[i]] == old(w.landed) + atoms[..i + 1];
    }
    assert atoms[..|atoms|] == atoms;
    ok := true;
  }

  // ---------------------------------------------------------------- write, then read

  /** The parts of a placed copy, each with its seal; all unsealed when the recorded seals do
      not align one to one. */
  function IOParts(parts: seq<FilePos>, seals: seq<PartSeal>): (r: seq<Part>)
    ensures |r| == |parts|
  {
    seq(|parts|, i requires 0 <= i < |parts| => Part(parts[i], if |seals| == |parts| then seals[i] else NO_SEAL))
  }

  method PairParts(parts: seq<FilePos>, seals: seq<PartSeal>) returns (r: seq<Part>)
    ensures r == IOParts(parts, seals)
  {
    r := seq(|parts|, i requires 0 <= i < |parts| => Part(parts[i], NO_SEAL));
    if |seals| == |parts| {
      for i := 0 to |parts|
        invariant |r| == |parts|
        invariant forall k :: 0 <= k < |parts| ==> r[k] == Part(parts[k], if k < i then seals[k] else NO_SEAL)
      {
        r := r[i := r[i].(seal := seals[i])];
      }
    }
  }

  /** The opener serves the stored files, and only those. */
  ghost predicate OpensStored(open: Opener, files: Stored)
  {
    forall p, rng: Range ::
      open(p, rng) == if p in files && files[p].payload.Data? then Opened(files[p].header, Slice(files[p].payload.bytes, rng)) else CannotOpen
  }

  /** A digest is never the empty string. */
  ghost predicate Digests(hash: Bytes -> string) { forall b :: hash(b) != "" }

  /** Writes a whole stream as one archive. */
  method WriteStream(w: ArchiveWriter, src: Source, stream: Bytes, t: Totals) returns (ok: bool)
    requires w.Valid() && !w.inPart && w.landed == [] && (w.IsCopy() ==> w.meta.sha == w.expectSha)
    modifies w, w.media, src
    ensures FailsForCause(w, src, ok, !Fits(stream, old(w.Caps())) || (w.IsCopy() && w.hash(stream) != w.expectSha))
    ensures Grew(old(w.media.files), w.media.files)
    ensures ok ==> w.Valid() && w.committed.Some? && w.Finalized(w.media.files, w.committed.value)
    ensures ok ==> Fits(stream, old(w.Caps())) && w.landed == Cut(stream, old(w.Caps())) && Concat(w.landed) == stream
    ensures ok ==> w.Measures(w.committed.value.arch) && w.committed.value.arch.compressed == |stream|
    ensures ok && w.TakesSlots() ==> OnSlots(old(w.parts), w.parts, old(w.slots))
  {
    hide ArchiveWriter.Valid;
    hide ArchiveWriter.Caps;
    hide ArchiveWriter.Describes;
    hide ArchiveWriter.RawSizes;
    hide ArchiveWriter.FrameTable;
    hide ArchiveWriter.Finalized;
    hide OnSlots;
    ok := Drive(w, src, stream);
    if ok {
      CutKeepsStream(stream, old(w.Caps()));
      assert [] + Cut(stream, old(w.Caps())) == Cut(stream, old(w.Caps()));
      ok := w.Commit(t);
    }
  }

  /** Whatever the cuts were, reading any in-bounds range of what was written plans, opens
      every segment on the right part with its seal intact, and delivers exactly that slice of
      the stream that was written; the only exception is an offset and length that add up to
      more than 63 bits hold. */
  lemma WriteThenRead(files: Stored, key: ArchiveKey, parts: seq<FilePos>, seals: seq<PartSeal>, landed: seq<Bytes>,
                      hash: Bytes -> string, open: Opener, rng: Range)
    requires Landed(files, key, parts, landed) && Seals(seals, landed, hash) && Digests(hash) && OpensStored(open, files)
    requires rng.Fits() && 0 <= rng.off <= |Concat(landed)| < TWO63
    ensures var stream := Concat(landed); var ps := IOParts(parts, seals);
      && TotalSize(ps) == |stream| && PlanOf(ps, rng).Plan?
      && ReadsBack(Job(ps, key, PlanOf(ps, rng).segs, open, hash), stream, rng)
  {
    var ps := IOParts(parts, seals);
    TotalIsLength(ps, landed);
    RangedReadIff(ps, landed, rng);
    PlanInRange(ps, rng);
    var job := Job(ps, key, PlanOf(ps, rng).segs, open, hash);
    StoredServes(files, key, parts, seals, landed, open);
    ServedIsDelivered(job, landed, 0);
    assert Delivered(landed, job.segs) == job.From(0);
    AllGood(job, landed);
  }

  lemma StoredServes(files: Stored, key: ArchiveKey, parts: seq<FilePos>, seals: seq<PartSeal>, landed: seq<Bytes>, open: Opener)
    requires Landed(files, key, parts, landed) && OpensStored(open, files)
    ensures Serves(open, key, IOParts(parts, seals), landed)
  {
  }

  lemma AllGood(job: Job, landed: seq<Bytes>)
    requires job.Planned() && Serves(job.open, job.want, job.parts, landed)
    requires forall i :: 0 <= i < |landed| ==> job.parts[i].seal.size == |landed[i]| && job.parts[i].seal.sha == job.hash(landed[i])
    ensures forall k :: 0 <= k < |job.segs| ==> job.Good(k)
  {
    forall k | 0 <= k < |job.segs| ensures job.Good(k) {
      var i := job.segs[k].idx;
      assert job.At(k) == Opened(Header(ArchivePart, job.want, i), Slice(landed[i], job.segs[k].rng));
    }
  }

  /** Every segment of the job is good, and together they are the slice unless the range's end
      overflows; then nothing is read at all. */
  ghost predicate ReadsBack(job: Job, stream: Bytes, rng: Range)
    requires 0 <= rng.off <= |stream|
  {
    && job.Planned() && (forall k :: 0 <= k < |job.segs| ==> job.Good(k))
    && (job.From(0) == stream[rng.off..EndOf(rng, |stream|)] <==>
          (rng.len <= 0 || rng.off + rng.len < TWO63 || rng.off == |stream|))
  }

  /** The recorded seal sizes add up to the recorded compressed size. */
  lemma SealsSumToStream(parts: seq<FilePos>, seals: seq<PartSeal>, landed: seq<Bytes>, hash: Bytes -> string)
    requires |parts| == |landed| && Seals(seals, landed, hash)
    ensures TotalSize(IOParts(parts, seals)) == |Concat(landed)|
  {
    TotalIsLength(IOParts(parts, seals), landed);
  }

  /** The raw spans of a fresh atomic dump tile the raw stream from the first atom's start. */
  lemma {:induction false} RawSpansTile(frames: seq<int>, uncompressed: int)
    requires frames != []
    ensures Sum(RawSpans(frames, uncompressed)) == uncompressed - frames[0]
  {
    var spans := RawSpans(frames, uncompressed);
    if |frames| == 1 {
      assert spans[1..] == [];
    } else {
      RawSpansTile(frames[1..], uncompressed);
      assert spans[1..] == RawSpans(frames[1..], uncompressed);
    }
  }
}
