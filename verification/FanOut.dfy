/** Driving one stream through a tee: every surviving lane is left with the same cut of the
    stream, each part within that lane's own cap. */
module FanOut {
  import opened Records
  import opened ReadPlan
  import opened Cutting
  import opened PartWriting
  import opened Transfer
  import opened Teeing

  /** What a lane's allocator has in store after k answers. */
  function StoreAfter(w: ArchiveWriter, caps: seq<int>, k: nat): seq<int>
  {
    if w.AtomSized() then caps else if k <= |caps| then caps[k..] else []
  }

  lemma StoreStep(w: ArchiveWriter, caps: seq<int>, k: nat)
    ensures NextCaps(w, StoreAfter(w, caps, k)) == StoreAfter(w, caps, k + 1)
  {
  }

  /** A cap handed out for part k is within what the lane's own allocator answered for it. */
  predicate Within(w: ArchiveWriter, caps: seq<int>, k: nat, cap: int)
  {
    w.AtomSized() || (k < |caps| && Under(cap, caps[k]))
  }

  /** The lanes have answered for k parts since these were their caps. */
  ghost predicate Asked(t: Tee, caps: seq<seq<int>>, k: nat)
    reads t`stock
  {
    |t.stock| == |caps| == |t.writers| && forall i :: 0 <= i < |caps| ==> t.stock[i] == StoreAfter(t.writers[i], caps[i], k)
  }

  /** Every cap handed out was within every live lane's own. */
  ghost predicate AllWithin(t: Tee, caps: seq<seq<int>>, handed: seq<int>)
    reads t`live
  {
    |t.live| == |caps| == |t.writers| &&
    forall i, k :: 0 <= i < |caps| && t.live[i] && 0 <= k < |handed| ==> Within(t.writers[i], caps[i], k, handed[k])
  }

  // ---------------------------------------------------------------- cutting as the caps come

  /** The caps so far were all filled, leaving these parts and this rest. */
  ghost predicate CutInto(stream: Bytes, handed: seq<int>, parts: seq<Bytes>, rest: Bytes)
    decreases |handed|
  {
    if handed == [] then parts == [] && rest == stream
    else
      && !EndsHere(stream, handed[0]) && parts != [] && parts[0] == stream[..handed[0]]
      && CutInto(stream[handed[0]..], handed[1..], parts[1..], rest)
  }

  lemma {:induction false} CutMore(stream: Bytes, handed: seq<int>, parts: seq<Bytes>, rest: Bytes, cap: int)
    requires CutInto(stream, handed, parts, rest)
    ensures EndsHere(rest, cap) ==> Fits(stream, handed + [cap]) && Cut(stream, handed + [cap]) == parts + [rest]
    ensures !EndsHere(rest, cap) ==> CutInto(stream, handed + [cap], parts + [rest[..cap]], rest[cap..])
    decreases |handed|
  {
    if handed == [] {
      assert [] + [cap] == [cap] && [cap][1..] == [];
    } else {
      CutMore(stream[handed[0]..], handed[1..], parts[1..], rest, cap);
      assert (handed + [cap])[1..] == handed[1..] + [cap] && (handed + [cap])[0] == handed[0];
      assert parts == [parts[0]] + parts[1..];
      assert (parts + [rest])[1..] == parts[1..] + [rest];
      if !EndsHere(rest, cap) { assert (parts + [rest[..cap]])[1..] == parts[1..] + [rest[..cap]]; }
    }
  }

  // ---------------------------------------------------------------- driving the tee

  /** Copies into the fan part up to its cap, in whatever chunks the source hands out. */
  method CopyFan(t: Tee, src: Source, rest: Bytes, max: int) returns (ok: bool, taken: nat, eof: bool)
    requires t.Valid() && t.open == Some([])
    modifies t`live, t`reports, t`wrote, t`open, t.World(), src
    ensures (old(src.failed) ==> src.failed) && (ok || src.failed || !t.AnyLive())
    ensures t.Valid() && t.Fewer(old(t.live)) && t.open.Some?
    ensures ok ==> eof == EndsHere(rest, max) && taken == (if eof then |rest| else max) && t.open == Some(rest[..taken])
  {
    hide Tee.Valid;
    ok, taken, eof := true, 0, false;
    var limit := if max < 0 || |rest| < max then |rest| else max;
    while ok && taken < limit
      invariant taken <= limit
      invariant t.Valid() && t.Fewer(old(t.live)) && t.open.Some? && (ok ==> t.open == Some(rest[..taken]))
      invariant (old(src.failed) ==> src.failed) && (ok || src.failed || !t.AnyLive())
      decreases ok, limit - taken
    {
      var chunk;
      ok, chunk := src.Chunk(limit - taken);
      if !ok {
        return;
      }
      var wrote;
      wrote, ok := t.Write(rest[taken..taken + chunk]);
      Extends([], rest, taken, wrote, chunk);
      taken := taken + wrote;
    }
    eof := taken == |rest|;
  }

  /** The cap handed out is within every live lane's own answer; and when it is a bound, some
      lane's allocator has given up an answer for it. */
  lemma HandedOut(t: Tee, live: seq<bool>, stock: seq<seq<int>>, max: int)
    requires |live| == |stock| == |t.writers| && max == LeastOf(live, stock)
    requires forall i :: 0 <= i < |live| && live[i] ==> stock[i] != []
    requires forall i :: 0 <= i < |live| && live[i] && t.writers[i].AtomSized() ==> stock[i] == [-1]
    ensures forall i :: 0 <= i < |live| && live[i] ==> Under(max, stock[i][0])
    ensures max >= 0 ==> exists i :: 0 <= i < |live| && stock[i] != [] && !t.writers[i].AtomSized()
  {
    LeastIsLeast(live, stock);
    if max >= 0 {
      var i :| 0 <= i < |live| && live[i] && stock[i] != [] && stock[i][0] == max;
      assert !t.writers[i].AtomSized();
    }
  }

  lemma AtomStock(t: Tee)
    requires t.Valid()
    ensures forall i :: 0 <= i < |t.live| && t.live[i] && t.writers[i].AtomSized() ==> t.stock[i] == [-1]
  {
    forall i | 0 <= i < |t.live| && t.live[i] && t.writers[i].AtomSized() ensures t.stock[i] == [-1] {
      assert Lane(t.writers[i], t.closed, t.open, t.stock[i]);
    }
  }

  lemma LaneCount(t: Tee)
    requires t.Valid()
    ensures |t.live| == |t.stock| == |t.writers|
  {
  }

  /** Opens the next part, and says whose answers the cap is. */
  method OpenPart(t: Tee) returns (ok: bool, max: int)
    requires t.Valid() && t.open == None
    modifies t`live, t`reports, t`wrote, t`open, t`stock, t.World()
    ensures |t.live| == |t.stock| == |t.writers| == |old(t.stock)| && t.Fewer(old(t.live))
    ensures t.Valid() && (ok || !t.AnyLive())
    ensures ok ==> t.open == Some([]) && t.stock == t.After(old(t.stock))
    ensures ok ==> forall i :: 0 <= i < |t.live| && t.live[i] ==> old(t.stock)[i] != [] && Under(max, old(t.stock)[i][0])
    ensures ok && max >= 0 ==> exists i :: 0 <= i < |t.live| && old(t.stock)[i] != [] && !t.writers[i].AtomSized()
  {
    hide Tee.Valid;
    LaneCount(t);
    AtomStock(t);
    ok, max := t.NextPart();
    LaneCount(t);
    if ok {
      HandedOut(t, t.live, old(t.stock), max);
    }
  }

  /** One part of the drive loop. */
  method DriveFanPart(t: Tee, src: Source, rest: Bytes) returns (ok: bool, taken: nat, eof: bool, ghost cap: int)
    requires t.Valid() && t.open == None
    modifies t`live, t`reports, t`wrote, t`open, t`stock, t`landed, t`kept, t`closed, t.World(), src
    ensures |t.live| == |t.stock| == |t.writers| == |old(t.stock)| && t.Fewer(old(t.live)) && t.Valid()
    ensures (old(src.failed) ==> src.failed) && (ok || src.failed || !t.AnyLive())
    ensures ok ==> t.open == None && t.stock == t.After(old(t.stock))
    ensures ok ==> eof == EndsHere(rest, cap) && taken == (if eof then |rest| else cap) && t.closed == old(t.closed) + [rest[..taken]]
    ensures ok ==> forall i :: 0 <= i < |t.live| && t.live[i] ==> old(t.stock)[i] != [] && Under(cap, old(t.stock)[i][0])
    ensures ok && !eof ==> exists i :: 0 <= i < |t.live| && old(t.stock)[i] != [] && !t.writers[i].AtomSized()
  {
    hide Tee.Valid;
    taken, eof := 0, false;
    var max;
    ok, max := OpenPart(t);
    cap := max;
    if ok {
      ok, taken, eof := CopyFan(t, src, rest, max);
    }
    if ok {
      ok := t.ClosePart();
    }
  }

  /** An upper bound on how many answers any lane has in store. */
  function Longest(caps: seq<seq<int>>): (n: nat)
    ensures forall i :: 0 <= i < |caps| ==> |caps[i]| <= n
  {
    if caps == [] then 0
    else
      var n, m := Longest(caps[1..]), |caps[0]|;
      assert forall i :: 0 < i < |caps| ==> caps[i] == caps[1..][i - 1];
      if n < m then m else n
  }

  lemma AskedOnce(t: Tee, caps: seq<seq<int>>, k: nat, before: seq<seq<int>>)
    requires |before| == |caps| == |t.writers| && t.stock == t.After(before)
    requires forall i :: 0 <= i < |caps| ==> before[i] == StoreAfter(t.writers[i], caps[i], k)
    ensures Asked(t, caps, k + 1)
  {
    forall i | 0 <= i < |caps| ensures t.stock[i] == StoreAfter(t.writers[i], caps[i], k + 1) {
      StoreStep(t.writers[i], caps[i], k);
    }
  }

  lemma WithinOnce(t: Tee, caps: seq<seq<int>>, handed: seq<int>, before: seq<seq<int>>, was: seq<bool>, cap: int)
    requires |before| == |caps| == |t.writers| == |t.live| == |was| && t.Fewer(was)
    requires forall i :: 0 <= i < |caps| ==> before[i] == StoreAfter(t.writers[i], caps[i], |handed|)
    requires forall i, k :: 0 <= i < |caps| && was[i] && 0 <= k < |handed| ==> Within(t.writers[i], caps[i], k, handed[k])
    requires forall i :: 0 <= i < |caps| && t.live[i] ==> before[i] != [] && Under(cap, before[i][0])
    ensures AllWithin(t, caps, handed + [cap])
  {
    forall i, k | 0 <= i < |caps| && t.live[i] && 0 <= k < |handed| + 1 ensures Within(t.writers[i], caps[i], k, (handed + [cap])[k]) {
      if k == |handed| { assert before[i] == StoreAfter(t.writers[i], caps[i], k); }
    }
  }

  /** The drive loop over a tee: part after part until the stream is exhausted. `handed` lists
      the caps the parts were given. It fails only when the producer does or no lane is left. */
  method DriveTee(t: Tee, src: Source, stream: Bytes) returns (ok: bool, ghost handed: seq<int>)
    requires t.Valid() && t.open == None
    modifies t`live, t`reports, t`wrote, t`open, t`stock, t`landed, t`kept, t`closed, t.World(), src
    ensures |t.live| == |t.writers| && t.Fewer(old(t.live)) && t.Valid()
    ensures ok || src.failed || !t.AnyLive()
    ensures ok ==> t.open == None && Fits(stream, handed) && t.closed == old(t.closed) + Cut(stream, handed)
    ensures ok ==> AllWithin(t, old(t.stock), handed)
  {
    hide Tee.Valid;
    LaneCount(t);
    ghost var caps := t.stock;
    ghost var bound := Longest(caps);
    ghost var parts: seq<Bytes> := [];
    handed := [];
    var rest, eof := stream, false;
    while !eof
      invariant |t.live| == |t.writers| == |caps| && t.Valid() && t.open == None && t.Fewer(old(t.live))
      invariant t.closed == old(t.closed) + parts && |handed| <= bound + 1
      invariant Asked(t, caps, |handed|) && AllWithin(t, caps, handed)
      invariant if eof then Fits(stream, handed) && parts == Cut(stream, handed) else CutInto(stream, handed, parts, rest) && |handed| <= bound
      decreases !eof, bound + 1 - |handed|
    {
      ghost var before, was := t.stock, t.live;
      ghost var cap;
      var taken;
      ok, taken, eof, cap := DriveFanPart(t, src, rest);
      if !ok {
        return;
      }
      CutMore(stream, handed, parts, rest, cap);
      AskedOnce(t, caps, |handed|, before);
      WithinOnce(t, caps, handed, before, was, cap);
      if !eof {
        ghost var i :| 0 <= i < |t.live| && before[i] != [] && !t.writers[i].AtomSized();
        assert |handed| < |caps[i]|;
      }
      assert rest[..|rest|] == rest;
      parts, handed, rest := parts + [rest[..taken]], handed + [cap], rest[taken..];
    }
    ok := true;
  }

  /** A part of this size is within what the lane's allocator answered for it. */
  predicate Room(w: ArchiveWriter, caps: seq<int>, k: nat, size: nat)
  {
    w.AtomSized() || (k < |caps| && (caps[k] < 0 || size <= caps[k]))
  }

  lemma CutFitsLane(w: ArchiveWriter, caps: seq<int>, stream: Bytes, handed: seq<int>)
    requires Fits(stream, handed) && forall k :: 0 <= k < |handed| ==> Within(w, caps, k, handed[k])
    ensures var cut := Cut(stream, handed); forall k :: 0 <= k < |cut| ==> Room(w, caps, k, |cut[k]|)
  {
    CutRespectsCaps(stream, handed);
    var cut := Cut(stream, handed);
    forall k | 0 <= k < |cut| ensures Room(w, caps, k, |cut[k]|) { assert Within(w, caps, k, handed[k]); }
  }

  /** A lane that came through holds the whole stream, committed, in parts cut at the common
      boundaries and none above the lane's own cap. */
  ghost predicate CameThrough(w: ArchiveWriter, caps: seq<int>, stream: Bytes, cut: seq<Bytes>)
    reads w, w.media
  {
    && Committed(w) && w.landed == cut && Concat(cut) == stream
    && forall k :: 0 <= k < |cut| ==> Room(w, caps, k, |cut[k]|)
  }

  lemma SurvivorHolds(t: Tee, i: nat, caps: seq<int>, stream: Bytes, handed: seq<int>)
    requires t.Valid() && t.open == None && i < |t.writers| && t.live[i] && Committed(t.writers[i])
    requires t.closed == Cut(stream, handed) && Fits(stream, handed)
    requires forall k :: 0 <= k < |handed| ==> Within(t.writers[i], caps, k, handed[k])
    ensures CameThrough(t.writers[i], caps, stream, t.closed)
  {
    assert Lane(t.writers[i], t.closed, None, t.stock[i]);
    CutKeepsStream(stream, handed);
    CutFitsLane(t.writers[i], caps, stream, handed);
  }

  /** Writes a whole stream through a tee and commits it. Every lane none of whose own calls
      failed comes through. */
  method WriteFan(t: Tee, src: Source, stream: Bytes, totals: Totals) returns (ok: bool)
    requires t.Valid() && t.open == None && t.closed == []
    requires forall i :: 0 <= i < |t.writers| && t.writers[i].IsCopy() ==> t.writers[i].meta.sha == t.writers[i].expectSha
    modifies t`live, t`reports, t`wrote, t`open, t`stock, t`landed, t`kept, t`closed, t.World(), src
    ensures |t.live| == |t.writers| == |old(t.stock)| && t.Fewer(old(t.live))
    ensures ok ==> forall i :: 0 <= i < |t.writers| && t.live[i] ==> CameThrough(t.writers[i], old(t.stock)[i], stream, t.closed)
    ensures forall i :: 0 <= i < |t.writers| ==> (t.live[i] <==> !t.writers[i].failed)
    ensures ok || src.failed || forall i :: 0 <= i < |t.writers| ==> t.writers[i].failed
  {
    hide Tee.Valid;
    hide CameThrough;
    hide Committed;
    LaneCount(t);
    ghost var caps := t.stock;
    ghost var handed;
    ok, handed := DriveTee(t, src, stream);
    if ok {
      assert [] + Cut(stream, handed) == Cut(stream, handed);
      ok := t.Commit(totals);
      LaneCount(t);
      forall i | ok && 0 <= i < |t.writers| && t.live[i] ensures CameThrough(t.writers[i], caps[i], stream, t.closed) {
        SurvivorHolds(t, i, caps[i], stream, handed);
      }
    }
    t.WhoLeft();
  }
}
