/** Reading an archive back: part segments opened one after another, each whole sealed part
    hashed as it streams and checked against its seal where it ends. */
module PartReading {
  import opened Records
  import opened Scan
  import opened ReadPlan

  /** What a part file's header says about it. */
  datatype Header = Header(kind: Kind, key: ArchiveKey, part: int)

  /** What a medium answers when one slice of one file is opened. */
  datatype Opening = CannotOpen | Opened(header: Header, content: Bytes)

  type Opener = (FilePos, Range) -> Opening

  datatype End = More | Eof | Failed(error: ReadError)

  datatype ReadError = NotOpened | WrongPart | SealMismatch | Broken | CloseFailed

  /** One open slice. How many bytes a read returns, whether the last ones come together with
      the end of file, and whether the device fails is up to the device. */
  class Stream {
    const content: Bytes
    var at: nat

    ghost predicate Valid()
      reads this
    {
      at <= |content|
    }

    constructor (content: Bytes)
      ensures Valid() && this.content == content && at == 0
    {
      this.content := content;
      at := 0;
    }

    method Read(max: nat) returns (data: Bytes, end: End)
      requires Valid()
      modifies this
      ensures Valid() && |data| <= max && old(at) + |data| == at && data == content[old(at)..at]
      ensures end == More || end == Failed(Broken) || (end == Eof && at == |content|)
    {
      var n: nat :| n <= max && n <= |content| - at;
      data := content[at..at + n];
      at := at + n;
      end := *;
      if end.Failed? || (end.Eof? && at < |content|) {
        end := Failed(Broken);
      }
    }

    method Close() returns (ok: bool)
    {
      ok := *;
    }
  }

  /** The header found is the part the catalog expects there. */
  predicate IsPart(h: Header, want: ArchiveKey, part: nat)
  {
    h.kind == ArchivePart && h.key == want && h.part == part
  }

  /** Everything a read is configured with. `hash` is the digest of a byte string. */
  datatype Job = Job(parts: seq<Part>, want: ArchiveKey, segs: seq<Segment>, open: Opener, hash: Bytes -> string)
  {
    ghost predicate Planned() { forall k :: 0 <= k < |segs| ==> segs[k].idx < |parts| }

    function At(k: nat): Opening
      requires Planned() && k < |segs|
    {
      open(parts[segs[k].idx].pos, segs[k].rng)
    }

    /** Segment k is checked against a seal: it is the whole of a sealed part. */
    predicate Armed(k: nat)
      requires Planned() && k < |segs|
    {
      segs[k].rng.IsWhole() && parts[segs[k].idx].Sealed()
    }

    predicate Opens(k: nat)
      requires Planned() && k < |segs|
    {
      At(k).Opened? && IsPart(At(k).header, want, segs[k].idx)
    }

    predicate SealHolds(k: nat)
      requires Planned() && k < |segs| && At(k).Opened?
    {
      |At(k).content| == parts[segs[k].idx].seal.size && hash(At(k).content) == parts[segs[k].idx].seal.sha
    }

    /** Segment k is good: the right part is there, and where a seal covers it the seal holds. */
    predicate Good(k: nat)
      requires Planned() && k < |segs|
    {
      Opens(k) && (Armed(k) ==> SealHolds(k))
    }

    function Content(k: nat): Bytes
      requires Planned() && k < |segs|
    {
      if At(k).Opened? then At(k).content else []
    }

    /** The bytes of segments k onward. */
    function From(k: nat): Bytes
      requires Planned() && k <= |segs|
      decreases |segs| - k
    {
      if k == |segs| then [] else Content(k) + From(k + 1)
    }
  }

  class PartsReader {
    const job: Job
    var pos: nat
    var cur: Stream?
    var ph: Option<Bytes>
    var pn: nat

    /** Whether a device has failed a read or a close under this reader. */
    ghost var faulted: bool

    ghost predicate Valid()
      reads this, cur
    {
      && job.Planned() && pos <= |job.segs|
      && (forall k :: 0 <= k < pos ==> job.Good(k))
      && (cur != null ==>
            && pos < |job.segs| && job.Opens(pos) && cur.Valid() && cur.content == job.Content(pos)
            && (ph.Some? <==> job.Armed(pos))
            && (ph.Some? ==> ph.value == cur.content[..cur.at] && pn == cur.at))
    }

    /** What is still to be delivered. */
    ghost function Remaining(): Bytes
      requires Valid()
      reads this, cur
    {
      if cur == null then job.From(pos) else cur.content[cur.at..] + job.From(pos + 1)
    }

    constructor (job: Job)
      requires job.Planned()
      ensures Valid() && this.job == job && pos == 0 && cur == null && !faulted
    {
      this.job := job;
      pos, cur, ph, pn, faulted := 0, null, None, 0, false;
    }

    method OpenSeg() returns (r: Option<ReadError>)
      requires Valid() && cur == null && pos < |job.segs|
      modifies this`cur, this`ph, this`pn
      ensures Valid() && pos == old(pos)
      ensures r.None? <==> job.Opens(pos)
      ensures r.None? <==> job.At(pos).Opened? && job.At(pos).header == Header(ArchivePart, job.want, job.segs[pos].idx)
      ensures r.None? ==> cur != null && fresh(cur) && Remaining() == job.From(pos)
      ensures r.Some? ==> cur == null && r.value == (if job.At(pos).CannotOpen? then NotOpened else WrongPart)
    {
      var seg := job.segs[pos];
      var o := job.open(job.parts[seg.idx].pos, seg.rng);
      if o.CannotOpen? {
        return Some(NotOpened);
      }
      if !IsPart(o.header, job.want, seg.idx) {
        return Some(WrongPart);
      }
      ph, pn := None, 0;
      if seg.rng.IsWhole() && job.parts[seg.idx].Sealed() {
        ph := Some([]);
      }
      cur := new Stream(o.content);
      r := None;
    }

    /** The finished segment's running hash and count match its part's seal. */
    method CheckSeal() returns (ok: bool)
      requires Valid() && cur != null && ph.Some? && cur.at == |cur.content|
      ensures ok <==> job.SealHolds(pos)
    {
      var s := job.parts[job.segs[pos].idx].seal;
      assert cur.content[..cur.at] == cur.content;
      ok := pn == s.size && job.hash(ph.value) == s.sha;
    }

    /** The open segment has ended: check it, step to the next one. */
    method EndSegment() returns (sealOk: bool, closed: bool)
      requires Valid() && cur != null && cur.at == |cur.content|
      modifies this`pos, this`cur, this`faulted
      ensures Valid() && cur == null && faulted == (old(faulted) || !closed)
      ensures sealOk <==> job.Good(old(pos))
      ensures sealOk ==> pos == old(pos) + 1 && Remaining() == old(Remaining())
      ensures !sealOk ==> pos == old(pos) && old(Remaining()) == job.From(pos + 1)
    {
      closed := cur.Close();
      faulted := faulted || !closed;
      sealOk := true;
      if ph.Some? {
        sealOk := CheckSeal();
      }
      cur := null;
      if sealOk {
        pos := pos + 1;
      }
    }

    static lemma Advanced(content: Bytes, was: nat, at: nat, data: Bytes, after: Bytes)
      requires was <= at <= |content| && data == content[was..at]
      ensures content[was..] + after == data + (content[at..] + after)
      ensures content[..was] + data == content[..at]
    {
      assert content[was..] == data + content[at..];
    }

    /** One read of the open segment, hashed on the way. */
    method Pull(max: nat) returns (data: Bytes, end: End)
      requires Valid() && cur != null
      modifies this`ph, this`pn, this`faulted, cur
      ensures Valid() && pos == old(pos) && cur == old(cur) && |data| <= max && faulted == (old(faulted) || end.Failed?)
      ensures old(Remaining()) == data + Remaining()
      ensures end == More || end == Failed(Broken) || (end == Eof && cur.at == |cur.content|)
    {
      hide Job.From;
      hide Job.Good;
      hide Job.Opens;
      hide Job.Armed;
      hide Job.Content;
      ghost var was, rest := cur.at, job.From(pos + 1);
      data, end := cur.Read(max);
      faulted := faulted || end.Failed?;
      Advanced(cur.content, was, cur.at, data, rest);
      if data != [] && ph.Some? {
        ph := Some(ph.value + data);
        pn := pn + |data|;
      }
      assert Remaining() == cur.content[cur.at..] + rest;
    }

    /** What a read that ended this way says about the archive. */
    ghost predicate Truthful(data: Bytes, end: End)
      requires Valid()
      reads this, cur
    {
      match end
      case More => true
      // the end of file is reported only after every segment was delivered and found good
      case Eof => pos == |job.segs| && data == [] && Remaining() == []
      // an error names the segment it is about
      case Failed(SealMismatch) => pos < |job.segs| && job.Opens(pos) && job.Armed(pos) && !job.SealHolds(pos)
      case Failed(NotOpened) => pos < |job.segs| && job.At(pos).CannotOpen? && data == []
      case Failed(WrongPart) => pos < |job.segs| && job.At(pos).Opened? && !job.Opens(pos) && data == []
      // or follows a failure of the device itself
      case Failed(Broken) => pos < |job.segs| && faulted
      case Failed(CloseFailed) => data == [] && faulted
    }

    /** What is left after a read that ended this way. A segment that just broke its seal is
        behind us, although the position stays on it. */
    ghost function Left(end: End): Bytes
      requires Valid()
      reads this, cur
    {
      if end == Failed(SealMismatch) && pos < |job.segs| then job.From(pos + 1) else Remaining()
    }

    /** Nothing lost, nothing repeated: what was left before is what came out and what is left. */
    ghost predicate Accounted(before: Bytes, data: Bytes, end: End)
      requires Valid()
      reads this, cur
    {
      before == data + Left(end)
    }

    method Read(max: nat) returns (data: Bytes, end: End)
      requires Valid()
      modifies this, cur
      ensures Valid() && |data| <= max
      ensures cur == old(cur) || cur == null || fresh(cur)
      ensures Accounted(old(Remaining()), data, end) && Truthful(data, end)
    {
      var again;
      data, end, again := Attempt(max);
      while again
        invariant Valid() && (cur == old(cur) || cur == null || fresh(cur)) && |data| <= max
        invariant again ==> Remaining() == old(Remaining())
        invariant !again ==> Accounted(old(Remaining()), data, end) && Truthful(data, end)
        decreases |job.segs| - pos, again
      {
        data, end, again := Attempt(max);
      }
    }

    /** One round of the read loop: open a segment if none is open, and read from it. */
    method Attempt(max: nat) returns (data: Bytes, end: End, again: bool)
      requires Valid()
      modifies this, cur
      ensures Valid() && |data| <= max
      ensures cur == old(cur) || cur == null || fresh(cur)
      ensures again ==> pos == old(pos) + 1 && Remaining() == old(Remaining())
      ensures !again ==> pos >= old(pos) && Accounted(old(Remaining()), data, end) && Truthful(data, end)
    {
      data, end, again := [], More, false;
      if cur == null {
        if pos >= |job.segs| {
          end := Eof;
          return;
        }
        var failed := OpenSeg();
        if failed.Some? {
          end := Failed(failed.value);
          return;
        }
      }
      data, end, again := ReadOpen(max);
    }

    method ReadOpen(max: nat) returns (data: Bytes, end: End, again: bool)
      requires Valid() && cur != null
      modifies this, cur
      ensures Valid() && |data| <= max && (cur == old(cur) || cur == null)
      ensures again ==> pos == old(pos) + 1 && Remaining() == old(Remaining())
      ensures !again ==> pos >= old(pos) && Accounted(old(Remaining()), data, end) && Truthful(data, end)
    {
      again := false;
      data, end := Pull(max);
      if end == Eof {
        end, again := Finish(data);
      }
    }

    /** What reaching the end of the open segment, with this data, is reported as. */
    method Finish(data: Bytes) returns (end: End, again: bool)
      requires Valid() && cur != null && cur.at == |cur.content|
      modifies this
      ensures Valid() && cur == null && Left(end) == old(Remaining()) && Truthful(data, end)
      ensures pos >= old(pos) && end != Eof && (again ==> pos == old(pos) + 1 && data == [] && end == More)
    {
      var sealOk, closed := EndSegment();
      if !sealOk {
        end, again := Failed(SealMismatch), false;
      } else if data != [] {
        end, again := More, false;
      } else {
        end, again := if closed then More else Failed(CloseFailed), closed;
      }
    }
  }

  ghost predicate FirstWontOpen(job: Job)
  {
    job.Planned() && job.segs != [] && !job.Opens(0)
  }

  datatype OpenFailure = NoParts | BadRange(reason: PlanError) | FirstPart(error: ReadError)

  /** Plans the range and opens its first segment, so that a copy that cannot be read at all
      fails here, before any byte has moved. */
  method Open(parts: seq<Part>, want: ArchiveKey, rng: Range, open: Opener, hash: Bytes -> string)
    returns (reader: PartsReader?, failure: Option<OpenFailure>)
    ensures failure.None? <==> reader != null
    ensures failure == Some(NoParts) <==> parts == []
    ensures forall e :: failure == Some(BadRange(e)) <==> (parts != [] && PlanOf(parts, rng) == NoPlan(e))
    ensures reader != null ==>
      && fresh(reader) && reader.Valid() && !reader.faulted && (reader.cur != null ==> fresh(reader.cur))
      && PlanOf(parts, rng).Plan? && reader.job == Job(parts, want, PlanOf(parts, rng).segs, open, hash)
      && reader.Remaining() == reader.job.From(0)
    ensures failure.Some? && failure.value.FirstPart? ==> PlanOf(parts, rng).Plan? && FirstWontOpen(Job(parts, want, PlanOf(parts, rng).segs, open, hash))
  {
    reader, failure := null, None;
    if |parts| == 0 {
      failure := Some(NoParts);
      return;
    }
    var plan := PlanSegments(parts, rng);
    if plan.NoPlan? {
      failure := Some(BadRange(plan.error));
      return;
    }
    PlanInRange(parts, rng);
    var pr := new PartsReader(Job(parts, want, plan.segs, open, hash));
    if |plan.segs| > 0 {
      var failed := pr.OpenSeg();
      if failed.Some? {
        failure := Some(FirstPart(failed.value));
        return;
      }
    }
    reader := pr;
  }

  lemma PlanInRange(parts: seq<Part>, rng: Range)
    ensures PlanOf(parts, rng).Plan? ==> forall k :: 0 <= k < |PlanOf(parts, rng).segs| ==> PlanOf(parts, rng).segs[k].idx < |parts|
  {
    if !rng.IsWhole() && Bound(rng, TotalSize(parts)).Some? {
      SegmentsInRange(parts, Bound(rng, TotalSize(parts)).value);
    }
  }

  lemma Regroup(a: Bytes, b: Bytes, c: Bytes)
    ensures a + (b + c) == (a + b) + c
  {
  }

  /** Segment k was opened on the part it is planned on, and if it is the whole of a sealed part
      it has the size and the hash of the seal. */
  ghost predicate Checked(job: Job, k: nat)
    requires job.Planned() && k < |job.segs|
  {
    var s := job.segs[k];
    var seal := job.parts[s.idx].seal;
    match job.open(job.parts[s.idx].pos, s.rng)
    case CannotOpen => false
    case Opened(h, content) =>
      && h == Header(ArchivePart, job.want, s.idx)
      && (s.rng.off == 0 && s.rng.len <= 0 && seal.sha != "" ==> |content| == seal.size && job.hash(content) == seal.sha)
  }

  lemma AllChecked(reader: PartsReader)
    requires reader.Valid() && reader.pos == |reader.job.segs|
    ensures forall k :: 0 <= k < |reader.job.segs| ==> Checked(reader.job, k)
  {
    forall k | 0 <= k < |reader.job.segs| ensures Checked(reader.job, k) { assert reader.job.Good(k); }
  }

  /** Reads with the given buffer sizes until the stream ends, fails, or the sizes run out. */
  method Drain(reader: PartsReader, sizes: seq<nat>) returns (out: Bytes, end: End)
    requires reader.Valid()
    modifies reader, reader.cur
    ensures reader.Valid() && reader.Accounted(old(reader.Remaining()), out, end)
    ensures end == Eof ==> reader.Remaining() == [] && reader.pos == |reader.job.segs|
    // the end is reached only past segments that came from the right parts, each whole sealed
    // part at its recorded size and hash
    ensures end == Eof ==> forall k :: 0 <= k < |reader.job.segs| ==> Checked(reader.job, k)
    ensures end.Failed? ==> reader.faulted || (reader.pos < |reader.job.segs| && !reader.job.Good(reader.pos))
  {
    hide Checked;
    out, end := [], More;
    var i := 0;
    while i < |sizes| && end == More
      invariant i <= |sizes| && reader.Valid()
      invariant reader.cur == old(reader.cur) || reader.cur == null || fresh(reader.cur)
      invariant reader.Accounted(old(reader.Remaining()), out, end)
      invariant end == Eof ==> reader.Remaining() == [] && reader.pos == |reader.job.segs|
      invariant end.Failed? ==> reader.faulted || (reader.pos < |reader.job.segs| && !reader.job.Good(reader.pos))
    {
      var data, e := reader.Read(sizes[i]);
      Regroup(out, data, reader.Left(e));
      out, end, i := out + data, e, i + 1;
    }
    if end == Eof { AllChecked(reader); }
  }

  /** The medium holds these payloads at the parts' positions, under the right headers. */
  ghost predicate Serves(open: Opener, want: ArchiveKey, parts: seq<Part>, payloads: seq<Bytes>)
  {
    && |parts| == |payloads|
    && forall i, rng: Range :: 0 <= i < |parts| ==>
         open(parts[i].pos, rng) == Opened(Header(ArchivePart, want, i), Slice(payloads[i], rng))
  }

  lemma {:induction false} ServedIsDelivered(job: Job, payloads: seq<Bytes>, k: nat)
    requires job.Planned() && k <= |job.segs| && Serves(job.open, job.want, job.parts, payloads)
    ensures Delivered(payloads, job.segs) == Delivered(payloads, job.segs[..k]) + job.From(k)
    decreases |job.segs| - k
  {
    if k == |job.segs| {
      assert job.segs[..k] == job.segs;
    } else {
      ServedIsDelivered(job, payloads, k + 1);
      ServedStep(job, payloads, k);
      hide Delivered;
      hide Serves;
      Regroup(Delivered(payloads, job.segs[..k]), job.Content(k), job.From(k + 1));
    }
  }

  lemma ServedStep(job: Job, payloads: seq<Bytes>, k: nat)
    requires job.Planned() && k < |job.segs| && Serves(job.open, job.want, job.parts, payloads)
    ensures Delivered(payloads, job.segs[..k + 1]) == Delivered(payloads, job.segs[..k]) + job.Content(k)
  {
    var segs, s := job.segs[..k], job.segs[k];
    assert job.segs[..k + 1] == segs + [s];
    DeliveredAppend(payloads, segs, s);
    hide Delivered;
    assert job.At(k) == Opened(Header(ArchivePart, job.want, s.idx), Slice(payloads[s.idx], s.rng));
  }

  /** Where the medium serves the payloads, a segment is bad only for a seal its part does not
      meet. */
  lemma BadSegmentBreaksSeal(job: Job, payloads: seq<Bytes>, k: nat)
    requires job.Planned() && k < |job.segs| && Serves(job.open, job.want, job.parts, payloads) && Sizes(job.parts, payloads)
    requires !job.Good(k)
    ensures job.hash(payloads[job.segs[k].idx]) != job.parts[job.segs[k].idx].seal.sha
  {
    var i := job.segs[k].idx;
    assert job.At(k) == Opened(Header(ArchivePart, job.want, i), Slice(payloads[i], job.segs[k].rng));
  }

  /** Reading a range back to the end yields that slice of the stored stream, whatever the
      parts, the buffers and the device's chunks are; and every whole part passed its seal. The
      read fails only after a failure of a device or on a part that does not meet its seal. */
  method ReadRange(parts: seq<Part>, want: ArchiveKey, rng: Range, open: Opener, hash: Bytes -> string,
                   sizes: seq<nat>, ghost payloads: seq<Bytes>) returns (out: Bytes, end: End, ghost faulted: bool)
    requires Sizes(parts, payloads) && AllSealed(parts) && rng.Fits() && Serves(open, want, parts, payloads)
    requires 0 <= rng.off <= TotalSize(parts) < TWO63 && (rng.len <= 0 || rng.off + rng.len < TWO63)
    ensures TotalSize(parts) == |Concat(payloads)|
    ensures out <= Concat(payloads)[rng.off..EndOf(rng, TotalSize(parts))]
    ensures end == Eof ==> out == Concat(payloads)[rng.off..EndOf(rng, TotalSize(parts))]
    ensures end == Eof && rng.IsWhole() ==> forall i :: 0 <= i < |parts| ==> hash(payloads[i]) == parts[i].seal.sha
    ensures end.Failed? ==> faulted || parts == [] || exists i :: 0 <= i < |parts| && hash(payloads[i]) != parts[i].seal.sha
  {
    out, end, faulted := [], Failed(NotOpened), false;
    ServedRange(parts, want, rng, open, hash, payloads);
    var reader, failure := Open(parts, want, rng, open, hash);
    if reader == null {
      if parts != [] {
        BadSegmentBreaksSeal(Job(parts, want, PlanOf(parts, rng).segs, open, hash), payloads, 0);
      }
    } else {
      out, end := Drain(reader, sizes);
      faulted := reader.faulted;
      if end.Failed? && !faulted {
        BadSegmentBreaksSeal(reader.job, payloads, reader.pos);
      }
      if end == Eof && rng.IsWhole() {
        forall i | 0 <= i < |parts| ensures hash(payloads[i]) == parts[i].seal.sha {
          assert reader.job.segs[i] == Segment(i, WHOLE) && reader.job.Good(i);
        }
      }
    }
  }

  /** What a read job over a medium that holds the payloads has to deliver. */
  lemma ServedRange(parts: seq<Part>, want: ArchiveKey, rng: Range, open: Opener, hash: Bytes -> string, payloads: seq<Bytes>)
    requires Sizes(parts, payloads) && AllSealed(parts) && rng.Fits() && Serves(open, want, parts, payloads)
    requires 0 <= rng.off <= TotalSize(parts) < TWO63 && (rng.len <= 0 || rng.off + rng.len < TWO63)
    ensures TotalSize(parts) == |Concat(payloads)| && PlanOf(parts, rng).Plan?
    ensures var job := Job(parts, want, PlanOf(parts, rng).segs, open, hash);
      job.Planned() && job.From(0) == Concat(payloads)[rng.off..EndOf(rng, TotalSize(parts))]
  {
    TotalIsLength(parts, payloads);
    RangedReadIff(parts, payloads, rng);
    PlanInRange(parts, rng);
    var job := Job(parts, want, PlanOf(parts, rng).segs, open, hash);
    ServedIsDelivered(job, payloads, 0);
    assert job.segs[..0] == [];
    assert [] + job.From(0) == job.From(0);
  }
}
