/** Mapping a byte range of an archive onto slices of its parts. */
module ReadPlan {
  import opened Records

  const TWO63 := 0x8000_0000_0000_0000
  const TWO64 := 0x1_0000_0000_0000_0000

  /** The program's 64-bit signed addition of two 64-bit values: it wraps around. */
  function Add64(a: int, b: int): int
  {
    var s := a + b;
    if s >= TWO63 then s - TWO64 else if s < -TWO63 then s + TWO64 else s
  }

  /** A byte range; a length of zero or less runs to the payload's end, so the zero value is
      the whole payload. */
  datatype Range = Range(off: int, len: int)
  {
    predicate IsWhole() { off == 0 && len <= 0 }

    /** The fields fit 64 bits. */
    predicate Fits() { -TWO63 <= off < TWO63 && -TWO63 <= len < TWO63 }
  }

  const WHOLE := Range(0, 0)

  datatype Part = Part(pos: FilePos, seal: PartSeal)
  {
    predicate Sealed() { seal.sha != "" }
  }

  datatype Segment = Segment(idx: nat, rng: Range)

  datatype PlanError = Unsealed | OutsidePayload

  datatype Planned = Plan(segs: seq<Segment>) | NoPlan(error: PlanError)

  function TotalSize(parts: seq<Part>): int
  {
    if parts == [] then 0 else TotalSize(parts[..|parts| - 1]) + parts[|parts| - 1].seal.size
  }

  /** Clamps a range to a payload of total bytes. */
  function Bound(r: Range, total: int): Option<Range>
  {
    if r.off < 0 || r.off > total then None
    else if r.len <= 0 || Add64(r.off, r.len) > total then Some(Range(r.off, total - r.off))
    else Some(r)
  }

  /** The segment of part i for the bounded range b, if b reaches into it. */
  function SegmentOf(i: nat, start: int, size: int, b: Range): seq<Segment>
  {
    if start + size > b.off && start < Add64(b.off, b.len) && size > 0 then
      var segOff := if b.off - start > 0 then b.off - start else 0;
      var reach := Add64(b.off, b.len) - start;
      var segEnd := if reach < size then reach else size;
      [Segment(i, if segOff == 0 && segEnd == size then WHOLE else Range(segOff, segEnd - segOff))]
    else []
  }

  function SegmentsOf(parts: seq<Part>, b: Range): seq<Segment>
  {
    if parts == [] then []
    else
      var n := |parts| - 1;
      SegmentsOf(parts[..n], b) + SegmentOf(n, TotalSize(parts[..n]), parts[n].seal.size, b)
  }

  function PlanOf(parts: seq<Part>, rng: Range): Planned
  {
    if rng.IsWhole() then Plan(seq(|parts|, i requires 0 <= i < |parts| => Segment(i, WHOLE)))
    else if exists i :: 0 <= i < |parts| && !parts[i].Sealed() then NoPlan(Unsealed)
    else match Bound(rng, TotalSize(parts))
      case None => NoPlan(OutsidePayload)
      case Some(b) => Plan(SegmentsOf(parts, b))
  }

  /** The parts' total size, or None when some part is unsealed. */
  method SumSizes(parts: seq<Part>) returns (total: Option<int>)
    ensures total.None? <==> exists i :: 0 <= i < |parts| && !parts[i].Sealed()
    ensures total.Some? ==> total.value == TotalSize(parts)
  {
    var sum := 0;
    for i := 0 to |parts|
      invariant sum == TotalSize(parts[..i])
      invariant forall k :: 0 <= k < i ==> parts[k].Sealed()
    {
      if !parts[i].Sealed() {
        return None;
      }
      assert parts[..i + 1][..i] == parts[..i];
      sum := sum + parts[i].seal.size;
    }
    assert parts[..|parts|] == parts;
    total := Some(sum);
  }

  method PickSegments(parts: seq<Part>, b: Range) returns (segs: seq<Segment>)
    ensures segs == SegmentsOf(parts, b)
  {
    segs := [];
    var start := 0;
    for i := 0 to |parts|
      invariant start == TotalSize(parts[..i]) && segs == SegmentsOf(parts[..i], b)
    {
      assert parts[..i + 1][..i] == parts[..i];
      var size := parts[i].seal.size;
      var end := start + size;
      if end > b.off && start < Add64(b.off, b.len) && size > 0 {
        var segOff := if b.off - start > 0 then b.off - start else 0;
        var reach := Add64(b.off, b.len) - start;
        var segEnd := if reach < size then reach else size;
        var sr := Range(segOff, segEnd - segOff);
        if segOff == 0 && segEnd == size {
          sr := WHOLE;
        }
        segs := segs + [Segment(i, sr)];
      }
      start := end;
    }
    assert parts[..|parts|] == parts;
  }

  method PlanSegments(parts: seq<Part>, rng: Range) returns (r: Planned)
    ensures r == PlanOf(parts, rng)
  {
    if rng.IsWhole() {
      var all := seq(|parts|, i requires 0 <= i < |parts| => Segment(i, WHOLE));
      return Plan(all);
    }
    var total := SumSizes(parts);
    if total.None? {
      return NoPlan(Unsealed);
    }
    var b := Bound(rng, total.value);
    if b.None? {
      return NoPlan(OutsidePayload);
    }
    var segs := PickSegments(parts, b.value);
    r := Plan(segs);
  }

  // ---------------------------------------------------------------- what a plan delivers

  /** The slice of a stored payload a medium serves for a range it was handed by a plan. */
  function Slice(payload: Bytes, rng: Range): Bytes
  {
    if rng.IsWhole() then payload
    else if 0 <= rng.off && 0 <= rng.len && rng.off + rng.len <= |payload| then payload[rng.off..rng.off + rng.len]
    else []
  }

  function Concat(chunks: seq<Bytes>): Bytes
  {
    if chunks == [] then [] else Concat(chunks[..|chunks| - 1]) + chunks[|chunks| - 1]
  }

  /** What reading the segments in order yields over the parts' payloads. */
  function Delivered(payloads: seq<Bytes>, segs: seq<Segment>): Bytes
  {
    if segs == [] then []
    else
      var s := segs[|segs| - 1];
      Delivered(payloads, segs[..|segs| - 1]) + if s.idx < |payloads| then Slice(payloads[s.idx], s.rng) else []
  }

  /** The seals record the payloads' sizes. */
  ghost predicate Sizes(parts: seq<Part>, payloads: seq<Bytes>)
  {
    |parts| == |payloads| && forall i :: 0 <= i < |parts| ==> parts[i].seal.size == |payloads[i]|
  }

  lemma {:induction false} TotalIsLength(parts: seq<Part>, payloads: seq<Bytes>)
    requires Sizes(parts, payloads)
    ensures TotalSize(parts) == |Concat(payloads)|
  {
    if parts != [] {
      var n := |parts| - 1;
      TotalIsLength(parts[..n], payloads[..n]);
    }
  }

  lemma DeliveredAppend(payloads: seq<Bytes>, segs: seq<Segment>, s: Segment)
    ensures Delivered(payloads, segs + [s]) == Delivered(payloads, segs) + if s.idx < |payloads| then Slice(payloads[s.idx], s.rng) else []
  {
    assert (segs + [s])[..|segs|] == segs;
  }

  lemma {:induction false} DeliveredMore(payloads: seq<Bytes>, more: Bytes, segs: seq<Segment>)
    requires forall k :: 0 <= k < |segs| ==> segs[k].idx < |payloads|
    ensures Delivered(payloads + [more], segs) == Delivered(payloads, segs)
  {
    if segs != [] { DeliveredMore(payloads, more, segs[..|segs| - 1]); }
  }

  lemma {:induction false} SegmentsInRange(parts: seq<Part>, b: Range)
    ensures forall k :: 0 <= k < |SegmentsOf(parts, b)| ==> SegmentsOf(parts, b)[k].idx < |parts|
  {
    if parts != [] { SegmentsInRange(parts[..|parts| - 1], b); }
  }

  lemma {:induction false} WholeDelivers(payloads: seq<Bytes>, n: nat)
    requires n <= |payloads|
    ensures Delivered(payloads, seq(n, i requires 0 <= i < n => Segment(i, WHOLE))) == Concat(payloads[..n])
  {
    if n > 0 {
      WholeDelivers(payloads, n - 1);
      var segs := seq(n, i requires 0 <= i < n => Segment(i, WHOLE));
      assert segs[..n - 1] == seq(n - 1, i requires 0 <= i < n - 1 => Segment(i, WHOLE));
      assert payloads[..n][..n - 1] == payloads[..n - 1];
    }
  }

  function Clip(x: int, n: nat): nat { if x < 0 then 0 else if x > n then n else x }

  /** The bytes of s at positions lo to hi, as far as s reaches. */
  function Window(s: Bytes, lo: int, hi: int): Bytes
    requires lo <= hi
  {
    s[Clip(lo, |s|)..Clip(hi, |s|)]
  }

  /** The bytes of one part a plan's at most one segment of it delivers. */
  function Piece(payload: Bytes, here: seq<Segment>): Bytes
  {
    if here == [] then [] else Slice(payload, here[0].rng)
  }

  /** The segments read over the payloads are the stream's bytes from lo to hi. */
  ghost predicate Reads(payloads: seq<Bytes>, segs: seq<Segment>, stream: Bytes, lo: nat, hi: nat)
    requires lo <= hi
  {
    Delivered(payloads, segs) == Window(stream, lo, hi)
  }

  /** The segments a bounded range picks deliver exactly that range of the stream. */
  lemma {:induction false} SegmentsDeliver(parts: seq<Part>, payloads: seq<Bytes>, off: nat, len: nat)
    requires Sizes(parts, payloads) && off + len < TWO63
    ensures Reads(payloads, SegmentsOf(parts, Range(off, len)), Concat(payloads), off, off + len)
  {
    if parts != [] {
      var n := |parts| - 1;
      SegmentsDeliver(parts[..n], payloads[..n], off, len);
      TotalIsLength(parts[..n], payloads[..n]);
      SegmentsInRange(parts[..n], Range(off, len));
      DeliverOneMore(payloads[..n], payloads[n], SegmentsOf(parts[..n], Range(off, len)), TotalSize(parts[..n]), off, len);
      assert payloads == payloads[..n] + [payloads[n]];
    }
  }

  lemma DeliverOneMore(before: seq<Bytes>, last: Bytes, segs: seq<Segment>, start: nat, off: nat, len: nat)
    requires start == |Concat(before)| && off + len < TWO63
    requires forall k :: 0 <= k < |segs| ==> segs[k].idx < |before|
    requires Reads(before, segs, Concat(before), off, off + len)
    ensures Reads(before + [last], segs + SegmentOf(|before|, start, |last|, Range(off, len)), Concat(before + [last]), off, off + len)
  {
    HereDelivers(|before|, start, last, off, len);
    OneMore(before, last, segs, SegmentOf(|before|, start, |last|, Range(off, len)), off, off + len);
  }

  lemma OneMore(before: seq<Bytes>, last: Bytes, segs: seq<Segment>, here: seq<Segment>, lo: nat, hi: nat)
    requires forall k :: 0 <= k < |segs| ==> segs[k].idx < |before|
    requires |here| <= 1 && (here != [] ==> here[0].idx == |before|)
    requires lo <= hi && Piece(last, here) == Window(last, lo - |Concat(before)|, hi - |Concat(before)|)
    requires Reads(before, segs, Concat(before), lo, hi)
    ensures Reads(before + [last], segs + here, Concat(before + [last]), lo, hi)
  {
    var stream := Concat(before);
    calc {
      Delivered(before + [last], segs + here);
      { DeliveredLast(before + [last], segs, here, |before|); }
      Delivered(before + [last], segs) + Piece(last, here);
      { DeliveredMore(before, last, segs); }
      Window(stream, lo, hi) + Window(last, lo - |stream|, hi - |stream|);
      { CutConcat(stream, last, lo, hi); }
      Window(stream + last, lo, hi);
      { ConcatLast(before, last); }
      Window(Concat(before + [last]), lo, hi);
    }
  }

  lemma ConcatLast(before: seq<Bytes>, last: Bytes)
    ensures Concat(before + [last]) == Concat(before) + last
  {
    assert (before + [last])[..|before|] == before;
  }

  lemma CutConcat(done: Bytes, last: Bytes, lo: nat, hi: nat)
    requires lo <= hi
    ensures Window(done + last, lo, hi) == Window(done, lo, hi) + Window(last, lo - |done|, hi - |done|)
  {
  }

  lemma HereDelivers(n: nat, start: nat, last: Bytes, off: nat, len: nat)
    requires off + len < TWO63
    ensures var here := SegmentOf(n, start, |last|, Range(off, len));
      |here| <= 1 && (here != [] ==> here[0].idx == n) && Piece(last, here) == Window(last, off - start, off + len - start)
  {
    var a, z := Clip(off - start, |last|), Clip(off + len - start, |last|);
    var here := SegmentOf(n, start, |last|, Range(off, len));
    if here != [] {
      assert !here[0].rng.IsWhole() ==> here[0].rng == Range(a, z - a);
      assert here[0].rng.IsWhole() ==> last[a..z] == last;
    }
  }

  lemma DeliveredLast(payloads: seq<Bytes>, segs: seq<Segment>, here: seq<Segment>, n: nat)
    requires n < |payloads| && |here| <= 1 && (here != [] ==> here[0].idx == n)
    ensures Delivered(payloads, segs + here) == Delivered(payloads, segs) + Piece(payloads[n], here)
  {
    if here == [] {
      assert segs + here == segs;
    } else {
      DeliveredAppend(payloads, segs, here[0]);
      assert segs + here == segs + [here[0]];
    }
  }

  /** The end of a range over a stream of total bytes. */
  function EndOf(rng: Range, total: int): int
  {
    if rng.len <= 0 || rng.off + rng.len > total then total else rng.off + rng.len
  }

  ghost predicate AllSealed(parts: seq<Part>) { forall i :: 0 <= i < |parts| ==> parts[i].Sealed() }

  /** A range read delivers exactly its slice of the stream, except when offset plus length
      overflows 64 bits: then nothing at all is delivered, which is the slice only when the
      range starts at the stream's end. */
  lemma RangedReadIff(parts: seq<Part>, payloads: seq<Bytes>, rng: Range)
    requires Sizes(parts, payloads) && AllSealed(parts) && rng.Fits()
    requires 0 <= rng.off <= TotalSize(parts) < TWO63
    ensures TotalSize(parts) == |Concat(payloads)|
    ensures var stream := Concat(payloads); var plan := PlanOf(parts, rng);
      plan.Plan? &&
      (Delivered(payloads, plan.segs) == stream[rng.off..EndOf(rng, |stream|)] <==>
        (rng.len <= 0 || rng.off + rng.len < TWO63 || rng.off == |stream|))
  {
    TotalIsLength(parts, payloads);
    if rng.IsWhole() {
      WholeRead(parts, payloads);
    } else if rng.len <= 0 || rng.off + rng.len < TWO63 {
      InBoundsRead(parts, payloads, rng);
    } else {
      OverflowingRead(parts, payloads, rng);
    }
  }

  lemma WholeRead(parts: seq<Part>, payloads: seq<Bytes>)
    requires |parts| == |payloads|
    ensures PlanOf(parts, WHOLE).Plan? && Delivered(payloads, PlanOf(parts, WHOLE).segs) == Concat(payloads)
    ensures forall r: Range :: r.IsWhole() ==> PlanOf(parts, r) == PlanOf(parts, WHOLE)
  {
    WholeDelivers(payloads, |parts|);
    assert payloads[..|parts|] == payloads;
  }

  lemma InBoundsRead(parts: seq<Part>, payloads: seq<Bytes>, rng: Range)
    requires Sizes(parts, payloads) && AllSealed(parts) && rng.Fits() && !rng.IsWhole()
    requires 0 <= rng.off <= TotalSize(parts) < TWO63 && (rng.len <= 0 || rng.off + rng.len < TWO63)
    requires TotalSize(parts) == |Concat(payloads)|
    ensures PlanOf(parts, rng).Plan?
    ensures Delivered(payloads, PlanOf(parts, rng).segs) == Concat(payloads)[rng.off..EndOf(rng, TotalSize(parts))]
  {
    hide Delivered;
    hide SegmentsOf;
    hide Concat;
    hide TotalSize;
    var total := TotalSize(parts);
    BoundIs(rng, total);
    var len := EndOf(rng, total) - rng.off;
    assert PlanOf(parts, rng) == Plan(SegmentsOf(parts, Range(rng.off, len)));
    ExactRead(parts, payloads, rng.off, len);
  }

  lemma ExactRead(parts: seq<Part>, payloads: seq<Bytes>, off: nat, len: nat)
    requires Sizes(parts, payloads) && off + len <= |Concat(payloads)| < TWO63
    ensures Delivered(payloads, SegmentsOf(parts, Range(off, len))) == Concat(payloads)[off..off + len]
  {
    SegmentsDeliver(parts, payloads, off, len);
  }

  lemma BoundIs(rng: Range, total: nat)
    requires rng.Fits() && 0 <= rng.off <= total < TWO63 && (rng.len <= 0 || rng.off + rng.len < TWO63)
    ensures rng.off <= EndOf(rng, total) <= total
    ensures Bound(rng, total) == Some(Range(rng.off, EndOf(rng, total) - rng.off))
  {
  }

  lemma OverflowingRead(parts: seq<Part>, payloads: seq<Bytes>, rng: Range)
    requires Sizes(parts, payloads) && AllSealed(parts) && rng.Fits() && rng.len > 0
    requires 0 <= rng.off <= TotalSize(parts) < TWO63 && rng.off + rng.len >= TWO63
    requires TotalSize(parts) == |Concat(payloads)|
    ensures PlanOf(parts, rng).Plan? && Delivered(payloads, PlanOf(parts, rng).segs) == []
    ensures Concat(payloads)[rng.off..EndOf(rng, TotalSize(parts))] == [] <==> rng.off == TotalSize(parts)
  {
    Overflows(parts, rng);
  }

  lemma {:induction false} Overflows(parts: seq<Part>, b: Range)
    requires b.Fits() && b.off >= 0 && b.len > 0 && b.off + b.len >= TWO63
    requires forall i :: 0 <= i < |parts| ==> parts[i].seal.size >= 0
    ensures SegmentsOf(parts, b) == []
  {
    if parts != [] {
      Overflows(parts[..|parts| - 1], b);
      TotalNonNegative(parts[..|parts| - 1]);
    }
  }

  lemma {:induction false} TotalNonNegative(parts: seq<Part>)
    requires forall i :: 0 <= i < |parts| ==> parts[i].seal.size >= 0
    ensures TotalSize(parts) >= 0
  {
    if parts != [] { TotalNonNegative(parts[..|parts| - 1]); }
  }

  /** A range outside the payload, or over parts without seals, is refused. */
  lemma RefusedIff(parts: seq<Part>, rng: Range)
    ensures PlanOf(parts, rng).NoPlan? <==> !rng.IsWhole() && (!AllSealed(parts) || rng.off < 0 || rng.off > TotalSize(parts))
  {
  }

  /** Only a segment covering its whole part is planned in the whole-part form, so the seal
      check is armed exactly where the seal can be checked. */
  lemma {:induction false} WholeFormIff(parts: seq<Part>, off: nat, len: nat, k: nat)
    requires forall i :: 0 <= i < |parts| ==> parts[i].seal.size >= 0
    requires off + len < TWO63 && k < |SegmentsOf(parts, Range(off, len))|
    ensures var s := SegmentsOf(parts, Range(off, len))[k];
      s.idx < |parts| &&
      var start := TotalSize(parts[..s.idx]); var end := start + parts[s.idx].seal.size;
      (s.rng.IsWhole() <==> off <= start && end <= off + len)
  {
    var n := |parts| - 1;
    var before := SegmentsOf(parts[..n], Range(off, len));
    if k < |before| {
      WholeFormIff(parts[..n], off, len, k);
      assert parts[..n][..before[k].idx] == parts[..before[k].idx];
    } else {
      TotalNonNegative(parts[..n]);
    }
  }
}
