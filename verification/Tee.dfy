/** Fanning one archive stream into several archive writers that stay in lockstep. A lane that
    fails is dropped; the stream goes on to the survivors. */
module Teeing {
  import opened Records
  import opened ReadPlan
  import opened PartWriting

  /** A lane none of whose calls failed has closed these parts, and its allocator will answer with
      these caps. */
  ghost predicate Holding(w: ArchiveWriter, closed: seq<Bytes>, caps: seq<int>)
    reads w, w.media
  {
    !w.failed && w.Valid() && w.landed == closed && w.Caps() == caps
  }

  /** ... and in its open part (if any) it holds these bytes. */
  ghost predicate Lane(w: ArchiveWriter, closed: seq<Bytes>, open: Option<Bytes>, caps: seq<int>)
    reads w, w.media
  {
    match open
    case None => Holding(w, closed, caps) && !w.inPart
    case Some(bytes) => Holding(w, closed, caps) && w.inPart && w.ph == bytes
  }

  /** The cap handed out is no more than the lane's own (a negative one is no bound). */
  predicate Under(max: int, cap: int)
  {
    (max < 0 ==> cap < 0) && (max >= 0 ==> cap < 0 || max <= cap)
  }

  /** The caps a lane's allocator still has in store once it has answered for one more part. */
  function NextCaps(w: ArchiveWriter, caps: seq<int>): seq<int>
  {
    if w.AtomSized() || caps == [] then caps else caps[1..]
  }

  /** The smaller of two caps. */
  function Least(max: int, cap: int): int
  {
    if cap >= 0 && (max < 0 || cap < max) then cap else max
  }

  /** The smallest of the live lanes' first caps. */
  function LeastOf(live: seq<bool>, caps: seq<seq<int>>): int
    requires |live| == |caps|
  {
    if live == [] then -1
    else
      var n := |live| - 1;
      var others := LeastOf(live[..n], caps[..n]);
      if live[n] && caps[n] != [] then Least(others, caps[n][0]) else others
  }

  /** What is handed out is within every live lane's own cap, and is one of them. */
  lemma {:induction false} LeastIsLeast(live: seq<bool>, caps: seq<seq<int>>)
    requires |live| == |caps|
    ensures forall i :: 0 <= i < |live| && live[i] && caps[i] != [] ==> Under(LeastOf(live, caps), caps[i][0])
    ensures LeastOf(live, caps) >= 0 ==> exists i :: 0 <= i < |live| && live[i] && caps[i] != [] && caps[i][0] == LeastOf(live, caps)
  {
    if live != [] {
      var n := |live| - 1;
      LeastIsLeast(live[..n], caps[..n]);
      if LeastOf(live[..n], caps[..n]) >= 0 {
        var i :| 0 <= i < n && live[..n][i] && caps[..n][i] != [] && caps[..n][i][0] == LeastOf(live[..n], caps[..n]);
        assert live[i] && caps[i] != [];
      }
    }
  }

  /** Writers that share neither themselves nor their media. */
  ghost predicate Separate(writers: seq<ArchiveWriter>)
  {
    forall i, j :: 0 <= i < j < |writers| ==> writers[i] != writers[j] && writers[i].media != writers[j].media
  }

  type Fan = w: seq<ArchiveWriter> | Separate(w) witness []

  class Tee {
    const writers: Fan
    /** Which lanes still receive the stream; a dropped one never comes back. */
    var live: seq<bool>
    var landed: seq<nat>
    /** What each lane has been given of the open fan part. */
    var wrote: seq<nat>
    /** How often each lane was reported as dropped. */
    var reports: seq<nat>

    /** What the producer was told was accepted: closed parts, and the open part's bytes. */
    ghost var closed: seq<Bytes>
    ghost var open: Option<Bytes>
    /** How many parts each lane closed while it was live. */
    ghost var kept: seq<nat>
    /** What each lane's allocator has in store. */
    ghost var stock: seq<seq<int>>

    /** The lanes and their media, which are separate objects. */
    ghost function World(): set<object>
    {
      (set i | 0 <= i < |writers| :: writers[i]) + (set i | 0 <= i < |writers| :: writers[i].media)
    }

    ghost predicate Shape()
      reads this
    {
      && |live| == |landed| == |wrote| == |reports| == |kept| == |stock| == |writers|
      && (forall i :: 0 <= i < |writers| ==> reports[i] == if live[i] then 0 else 1)
    }

    /** Of the lanes numbered from lo up to hi, the live ones hold exactly this; the others have
        failed a call of their own. */
    ghost predicate Lanes(lo: nat, hi: nat, parts: seq<Bytes>, bytes: Option<Bytes>, caps: seq<seq<int>>)
      requires hi <= |writers| == |live| == |caps|
      reads this`live, World()
    {
      forall i :: lo <= i < hi ==> if live[i] then Lane(writers[i], parts, bytes, caps[i]) else writers[i].failed
    }

    /** Lanes lo up to hi are credited with exactly the parts they closed while live. */
    ghost predicate Credit(lo: nat, hi: nat, parts: seq<Bytes>)
      requires Shape() && hi <= |writers|
      reads this
    {
      forall i :: lo <= i < hi ==>
        kept[i] <= |parts| && landed[i] == |Concat(parts[..kept[i]])| && (live[i] ==> kept[i] == |parts|)
    }

    ghost predicate Credited()
      requires Shape()
      reads this
    {
      Credit(0, |writers|, closed)
    }

    /** Each live lane has been given this much of the open part. */
    ghost predicate Given(lo: nat, hi: nat, size: nat)
      requires Shape() && hi <= |writers|
      reads this
    {
      forall i :: lo <= i < hi && live[i] ==> wrote[i] == size
    }

    /** Lockstep: every live lane has exactly what the producer was told was accepted. */
    ghost predicate Valid()
      reads this, World()
    {
      && this !in World() && Shape() && Credited() && Lanes(0, |writers|, closed, open, stock)
      && (open.Some? ==> Given(0, |writers|, |open.value|))
    }

    /** The lanes that left are exactly those with a failed call of their own. */
    ghost predicate OnlyFailedLeft()
      reads this`live, World()
    {
      |live| == |writers| && forall i :: 0 <= i < |writers| ==> (live[i] <==> !writers[i].failed)
    }

    lemma WhoLeft()
      requires Valid()
      ensures OnlyFailedLeft()
    {
      forall i | 0 <= i < |writers| ensures live[i] <==> !writers[i].failed {
        if live[i] { assert Lane(writers[i], closed, open, stock[i]); }
      }
    }

    /** Whether any lane still receives the stream. */
    predicate AnyLive()
      reads this
    {
      exists i :: 0 <= i < |live| && live[i]
    }

    /** Lanes only ever leave. */
    ghost predicate Fewer(before: seq<bool>)
      reads this`live
    {
      |before| == |live| && forall i :: 0 <= i < |live| && live[i] ==> before[i]
    }

    constructor (writers: Fan)
      requires forall i :: 0 <= i < |writers| ==> Lane(writers[i], [], None, writers[i].Caps())
      ensures Valid() && this.writers == writers && closed == [] && open == None
      ensures forall i :: 0 <= i < |writers| ==> live[i] && landed[i] == 0 && stock[i] == writers[i].Caps()
    {
      this.writers := writers;
      live := seq(|writers|, i => true);
      landed := seq(|writers|, i => 0);
      wrote := seq(|writers|, i => 0);
      reports := seq(|writers|, i => 0);
      closed, open, kept := [], None, seq(|writers|, i => 0);
      stock := seq(|writers|, i requires 0 <= i < |writers| reads if 0 <= i < |writers| then {writers[i]} else {} => writers[i].Caps());
    }

    method Drop(i: nat)
      requires Shape() && i < |writers| && live[i]
      modifies this`live, this`reports
      ensures Shape() && live == old(live)[i := false]
    {
      live := live[i := false];
      reports := reports[i := reports[i] + 1];
    }

    // ---------------------------------------------------------------- opening a part

    /** What the allocators have in store once each has answered for one more part. */
    function After(caps: seq<seq<int>>): (after: seq<seq<int>>)
      requires |caps| == |writers|
      ensures |after| == |caps|
    {
      seq(|caps|, i requires 0 <= i < |caps| => NextCaps(writers[i], caps[i]))
    }

    method OpenLane(i: nat, ghost parts: seq<Bytes>, ghost caps: seq<seq<int>>) returns (ok: bool, max: int)
      requires |live| == |writers| == |caps| && i < |writers| && live[i]
      requires Lanes(0, i, parts, Some([]), After(caps)) && Lanes(i, |writers|, parts, None, caps)
      modifies World()
      ensures ok ==> Lanes(0, i + 1, parts, Some([]), After(caps)) && caps[i] != [] && max == caps[i][0]
      ensures !ok ==> writers[i].failed
      ensures Lanes(0, i, parts, Some([]), After(caps)) && Lanes(i + 1, |writers|, parts, None, caps)
    {
      assert Separate(writers);
      ok, max := writers[i].NextPart();
    }

    /** Opens the part on lane i if that is still live, or drops the lane. */
    method Join(i: nat, ghost parts: seq<Bytes>, ghost caps: seq<seq<int>>, max0: int) returns (max: int)
      requires Shape() && i < |writers| == |caps|
      requires Lanes(0, i, parts, Some([]), After(caps)) && Lanes(i, |writers|, parts, None, caps)
      modifies this`live, this`reports, World()
      ensures Shape() && (live == old(live) || (old(live)[i] && live == old(live)[i := false]))
      ensures Lanes(0, i + 1, parts, Some([]), After(caps)) && Lanes(i + 1, |writers|, parts, None, caps)
      ensures if live[i] then caps[i] != [] && max == Least(max0, caps[i][0]) else max == max0
    {
      max := max0;
      if live[i] {
        var opens, cap := OpenLane(i, parts, caps);
        if !opens {
          Drop(i);
        } else if cap >= 0 && (max < 0 || cap < max) {
          max := cap;
        }
      }
    }

    /** The part is open on the lanes below i, and not yet tried on the others. */
    ghost predicate Opening(i: nat, max: int)
      requires i <= |writers|
      reads this, World()
    {
      && this !in World() && Shape() && Credited() && open == None && Given(0, |writers|, 0)
      && Lanes(0, i, closed, Some([]), After(stock)) && Lanes(i, |writers|, closed, None, stock)
      && Heard(i, max)
    }

    /** The lanes below i that joined have each answered, max being the least answer. */
    ghost predicate Heard(i: nat, max: int)
      requires Shape() && i <= |writers|
      reads this
    {
      (forall j :: 0 <= j < i && live[j] ==> stock[j] != []) && max == LeastOf(live[..i], stock[..i])
    }

    lemma HearNext(i: nat, before: seq<bool>, max0: int, max: int)
      requires Shape() && i < |writers| && |before| == |live| && live[..i] == before[..i]
      requires (forall j :: 0 <= j < i && before[j] ==> stock[j] != []) && max0 == LeastOf(before[..i], stock[..i])
      requires if live[i] then stock[i] != [] && max == Least(max0, stock[i][0]) else max == max0
      ensures Heard(i + 1, max)
    {
      assert live[..i + 1][..i] == live[..i] && stock[..i + 1][..i] == stock[..i];
      forall j | 0 <= j < i && live[j] ensures before[j] { assert live[..i][j] == before[..i][j]; }
    }

    method OpenNext(i: nat, max0: int) returns (max: int)
      requires i < |writers| && Opening(i, max0)
      modifies this`live, this`reports, World()
      ensures Opening(i + 1, max)
      ensures live == old(live) || (old(live)[i] && live == old(live)[i := false])
    {
      hide Lane;
      max := Join(i, closed, stock, max0);
      HearNext(i, old(live), max0, max);
    }

    /** Tries every lane in turn, and gives up once none is left. */
    method OpenAll() returns (ok: bool, max: int)
      requires Opening(0, -1)
      modifies this`live, this`reports, World()
      ensures Fewer(old(live)) && (ok <==> AnyLive() || !old(AnyLive()))
      ensures ok ==> Opening(|writers|, max)
      ensures !ok ==> this !in World() && Shape() && Credited() && Lanes(0, |writers|, closed, None, stock)
    {
      hide Lane;
      max := -1;
      for i := 0 to |writers|
        invariant Opening(i, max)
        invariant Fewer(old(live)) && (AnyLive() || live == old(live))
      {
        var was := live[i];
        max := OpenNext(i, max);
        if was && !live[i] && !AnyLive() {
          AllLeft(i + 1, max);
          return false, 0;
        }
      }
      ok := true;
    }

    lemma AllLeft(i: nat, max: int)
      requires i <= |writers| && Opening(i, max) && !AnyLive()
      ensures Lanes(0, |writers|, closed, None, stock)
    {
      hide Lane;
    }

    method BeginPart()
      requires Valid() && open == None
      modifies this`wrote
      ensures Opening(0, -1)
    {
      wrote := seq(|writers|, i => 0);
    }

    ghost method PartIsOpen(max: int)
      requires Opening(|writers|, max)
      modifies this`open, this`stock
      ensures Valid() && open == Some([]) && stock == After(old(stock))
      ensures max == LeastOf(live, old(stock)) && forall i :: 0 <= i < |writers| && live[i] ==> old(stock)[i] != []
    {
      assert live[..|writers|] == live && stock[..|writers|] == stock;
      open, stock := Some([]), After(stock);
    }

    /** Opens the next part on every live lane, under the least of the caps their allocators
        answer with. */
    method NextPart() returns (ok: bool, max: int)
      requires Valid() && open == None
      modifies this`live, this`reports, this`wrote, this`open, this`stock, World()
      ensures Valid() && Fewer(old(live)) && OnlyFailedLeft()
      ensures open == if ok then Some([]) else None
      ensures ok <==> AnyLive() || !old(AnyLive())
      ensures stock == if ok then After(old(stock)) else old(stock)
      ensures ok ==> max == LeastOf(live, old(stock)) && forall i :: 0 <= i < |writers| && live[i] ==> old(stock)[i] != []
    {
      BeginPart();
      ok, max := OpenAll();
      if ok {
        PartIsOpen(max);
      }
      WhoLeft();
    }

    // ---------------------------------------------------------------- writing to the part

    method WriteLane(i: nat, data: Bytes, ghost parts: seq<Bytes>, ghost bytes: Bytes, ghost caps: seq<seq<int>>) returns (ok: bool)
      requires |live| == |writers| == |caps| && i < |writers| && live[i]
      requires Lanes(0, i, parts, Some(bytes + data), caps) && Lanes(i, |writers|, parts, Some(bytes), caps)
      modifies World()
      ensures if ok then Lanes(0, i + 1, parts, Some(bytes + data), caps) else writers[i].failed
      ensures Lanes(0, i, parts, Some(bytes + data), caps) && Lanes(i + 1, |writers|, parts, Some(bytes), caps)
    {
      assert Separate(writers);
      var n;
      n, ok := writers[i].Write(data);
    }

    /** The lanes below i have been given the data, the others not yet. */
    ghost predicate Writing(i: nat, bytes: Bytes, data: Bytes)
      requires i <= |writers|
      reads this, World()
    {
      && this !in World() && Shape() && Credited()
      && Lanes(0, i, closed, Some(bytes + data), stock) && Lanes(i, |writers|, closed, Some(bytes), stock)
      && Given(0, i, |bytes| + |data|) && Given(i, |writers|, |bytes|)
    }

    /** Gives lane i the data if it is still live, or drops it. */
    method Give(i: nat, data: Bytes, ghost parts: seq<Bytes>, ghost bytes: Bytes, ghost caps: seq<seq<int>>)
      requires Shape() && i < |writers| == |caps|
      requires Lanes(0, i, parts, Some(bytes + data), caps) && Lanes(i, |writers|, parts, Some(bytes), caps)
      modifies this`live, this`reports, World()
      ensures Shape() && (live == old(live) || (old(live)[i] && live == old(live)[i := false]))
      ensures Lanes(0, i + 1, parts, Some(bytes + data), caps) && Lanes(i + 1, |writers|, parts, Some(bytes), caps)
    {
      if live[i] {
        var ok := WriteLane(i, data, parts, bytes, caps);
        if !ok {
          Drop(i);
        }
      }
    }

    method WriteNext(i: nat, data: Bytes, ghost bytes: Bytes)
      requires i < |writers| && Writing(i, bytes, data)
      modifies this`live, this`reports, this`wrote, World()
      ensures Writing(i + 1, bytes, data)
      ensures live == old(live) || (old(live)[i] && live == old(live)[i := false])
    {
      hide Lanes;
      hide Lane;
      hide Concat;
      Give(i, data, closed, bytes, stock);
      if live[i] {
        wrote := wrote[i := wrote[i] + |data|];
      }
    }

    /** The chunk is accepted as long as one lane took all of it. */
    method Write(data: Bytes) returns (n: nat, ok: bool)
      requires Valid() && open.Some?
      modifies this`live, this`reports, this`wrote, this`open, World()
      ensures Valid() && Fewer(old(live)) && OnlyFailedLeft()
      ensures ok <==> AnyLive()
      ensures n == (if ok then |data| else 0)
      ensures open == if ok then Some(old(open).value + data) else old(open)
    {
      hide Lane;
      ghost var bytes := open.value;
      for i := 0 to |writers|
        invariant Writing(i, bytes, data) && Fewer(old(live))
        invariant open == old(open)
      {
        WriteNext(i, data, bytes);
      }
      ok := AnyLive();
      n := if ok then |data| else 0;
      if ok {
        open := Some(bytes + data);
      }
      WhoLeft();
    }

    // ---------------------------------------------------------------- closing the part

    method CloseLane(i: nat, ghost parts: seq<Bytes>, ghost bytes: Bytes, ghost caps: seq<seq<int>>) returns (ok: bool)
      requires |live| == |writers| == |caps| && i < |writers| && live[i]
      requires Lanes(0, i, parts + [bytes], None, caps) && Lanes(i, |writers|, parts, Some(bytes), caps)
      modifies World()
      ensures if ok then Lanes(0, i + 1, parts + [bytes], None, caps) else writers[i].failed
      ensures Lanes(0, i, parts + [bytes], None, caps) && Lanes(i + 1, |writers|, parts, Some(bytes), caps)
    {
      assert Separate(writers);
      ok := writers[i].ClosePart();
    }

    /** Closes lane i's part if it is still live, or drops the lane. */
    method Shut(i: nat, ghost parts: seq<Bytes>, ghost bytes: Bytes, ghost caps: seq<seq<int>>)
      requires Shape() && i < |writers| == |caps|
      requires Lanes(0, i, parts + [bytes], None, caps) && Lanes(i, |writers|, parts, Some(bytes), caps)
      modifies this`live, this`reports, World()
      ensures Shape() && (live == old(live) || (old(live)[i] && live == old(live)[i := false]))
      ensures Lanes(0, i + 1, parts + [bytes], None, caps) && Lanes(i + 1, |writers|, parts, Some(bytes), caps)
    {
      if live[i] {
        var ok := CloseLane(i, parts, bytes, caps);
        if !ok {
          Drop(i);
        }
      }
    }

    /** The credit is up to date for the lanes below i, which have closed the part. */
    ghost predicate Crediting(i: nat, bytes: Bytes)
      requires Shape() && i <= |writers|
      reads this
    {
      && Credit(0, i, closed + [bytes]) && Credit(i, |writers|, closed) && Given(0, |writers|, |bytes|)
      && (forall j :: 0 <= j < |writers| && !live[j] ==> kept[j] <= |closed|)
    }

    /** The part is closed on, and credited to, the lanes below i; the others still have it open. */
    ghost predicate Closing(i: nat, bytes: Bytes)
      requires i <= |writers|
      reads this, World()
    {
      && this !in World() && Shape() && Crediting(i, bytes)
      && Lanes(0, i, closed + [bytes], None, stock) && Lanes(i, |writers|, closed, Some(bytes), stock)
    }

    /** A just-closed part is credited to its lane, if the lane is still there. */
    method CreditLane(i: nat, ghost bytes: Bytes)
      requires Shape() && i < |writers| && Crediting(i, bytes)
      modifies this`landed, this`kept
      ensures Shape() && Crediting(i + 1, bytes)
      ensures landed == old(landed) || (live[i] && landed == old(landed)[i := landed[i]])
    {
      assert closed[..|closed|] == closed && (closed + [bytes])[..|closed| + 1] == closed + [bytes];
      assert (closed + [bytes])[..|closed|] == closed && (closed + [bytes])[..kept[i]] == closed[..kept[i]];
      if live[i] {
        landed := landed[i := landed[i] + wrote[i]];
        kept := kept[i := |closed| + 1];
      }
    }

    /** Only live lanes have gained credit since. */
    ghost predicate OnlyLiveGained(hi: nat, before: seq<nat>)
      reads this`live, this`landed
    {
      |before| == |live| == |landed| && forall j :: 0 <= j < |live| && (j >= hi || !live[j]) ==> landed[j] == before[j]
    }

    method CloseNext(i: nat, ghost bytes: Bytes)
      requires i < |writers| && Closing(i, bytes)
      modifies this`live, this`reports, this`landed, this`kept, World()
      ensures Closing(i + 1, bytes)
      ensures live == old(live) || (old(live)[i] && live == old(live)[i := false])
      ensures landed == old(landed) || (live[i] && landed == old(landed)[i := landed[i]])
    {
      hide Lane;
      Shut(i, closed, bytes, stock);
      CreditLane(i, bytes);
    }

    method CloseAll(ghost bytes: Bytes)
      requires Closing(0, bytes)
      modifies this`live, this`reports, this`landed, this`kept, World()
      ensures Closing(|writers|, bytes) && Fewer(old(live)) && OnlyLiveGained(|writers|, old(landed))
    {
      hide Lane;
      for i := 0 to |writers|
        invariant Closing(i, bytes) && Fewer(old(live))
        invariant OnlyLiveGained(i, old(landed))
      {
        CloseNext(i, bytes);
      }
    }

    /** Once every lane has been closed or dropped, the part counts if one closed it. */
    ghost method PartIsClosed(bytes: Bytes, ok: bool)
      requires Closing(|writers|, bytes) && (ok || !AnyLive())
      modifies this`open, this`closed
      ensures Valid() && open == None && closed == old(closed) + if ok then [bytes] else []
    {
      open := None;
      if ok {
        closed := closed + [bytes];
      } else {
        NoneLeft(bytes);
      }
    }

    lemma AboutToClose(bytes: Bytes)
      requires Valid() && open == Some(bytes)
      ensures Closing(0, bytes)
    {
    }

    /** The part counts as closed as long as one lane closed it; only those lanes are credited. */
    method ClosePart() returns (ok: bool)
      requires Valid() && open.Some?
      modifies this`live, this`reports, this`landed, this`kept, this`open, this`closed, World()
      ensures Valid() && Fewer(old(live)) && open == None && OnlyFailedLeft()
      ensures ok <==> AnyLive() || !old(AnyLive())
      ensures closed == old(closed) + if ok then [old(open).value] else []
      ensures OnlyLiveGained(|writers|, old(landed))
    {
      ghost var bytes := open.value;
      AboutToClose(bytes);
      var none := !AnyLive();
      CloseAll(bytes);
      ok := none || AnyLive();
      PartIsClosed(bytes, ok);
      WhoLeft();
    }

    lemma NoneLeft(bytes: Bytes)
      requires Shape() && Crediting(|writers|, bytes) && !AnyLive()
      ensures Credited()
    {
      forall i | 0 <= i < |writers| ensures (closed + [bytes])[..kept[i]] == closed[..kept[i]] {
      }
    }

    // ---------------------------------------------------------------- committing

    /** The live lanes from lo up to hi have committed what landed on them. */
    ghost predicate Done(lo: nat, hi: nat)
      requires hi <= |writers| == |live|
      reads this`live, World()
    {
      forall i :: lo <= i < hi && live[i] ==> Committed(writers[i])
    }

    lemma LaneHolds(w: ArchiveWriter, parts: seq<Bytes>, caps: seq<int>)
      requires Lane(w, parts, None, caps)
      ensures !w.failed && w.Valid() && w.landed == parts && w.Caps() == caps && !w.inPart
    {
    }

    lemma HoldsLane(w: ArchiveWriter, parts: seq<Bytes>, caps: seq<int>)
      requires !w.failed && w.Valid() && w.landed == parts && w.Caps() == caps && !w.inPart
      ensures Lane(w, parts, None, caps)
    {
    }

    lemma IsCommitted(w: ArchiveWriter)
      requires w.committed.Some? && w.Finalized(w.media.files, w.committed.value) && w.Measures(w.committed.value.arch)
      ensures Committed(w)
    {
    }

    method CommitLane(i: nat, t: Totals, ghost parts: seq<Bytes>, ghost caps: seq<seq<int>>) returns (ok: bool)
      requires |live| == |writers| == |caps| && i < |writers| && live[i] && Lanes(0, |writers|, parts, None, caps) && Done(0, i)
      requires writers[i].IsCopy() ==> writers[i].meta.sha == writers[i].expectSha
      modifies World()
      ensures Lanes(0, i, parts, None, caps) && Lanes(i + 1, |writers|, parts, None, caps) && Done(0, i)
      ensures if ok then Lanes(0, |writers|, parts, None, caps) && Done(0, i + 1) else writers[i].failed
    {
      hide Lane;
      hide Committed;
      hide ArchiveWriter.Valid;
      hide ArchiveWriter.Caps;
      hide ArchiveWriter.Describes;
      hide ArchiveWriter.RawSizes;
      hide ArchiveWriter.Finalized;
      hide ArchiveWriter.Measures;
      assert Separate(writers);
      var w := writers[i];
      LaneHolds(w, parts, caps[i]);
      ok := w.Commit(t);
      if ok {
        HoldsLane(w, parts, caps[i]);
        IsCommitted(w);
      }
    }

    /** The lanes below i have committed, or are dropped. */
    ghost predicate Committing(i: nat)
      requires i <= |writers|
      reads this, World()
    {
      this !in World() && Shape() && Credited() && Lanes(0, |writers|, closed, None, stock) && Done(0, i)
    }

    method CommitNext(i: nat, t: Totals)
      requires i < |writers| && Committing(i)
      requires writers[i].IsCopy() ==> writers[i].meta.sha == writers[i].expectSha
      modifies this`live, this`reports, World()
      ensures Committing(i + 1)
      ensures live == old(live) || (old(live)[i] && live == old(live)[i := false])
    {
      hide Lane;
      if live[i] {
        var done := CommitLane(i, t, closed, stock);
        if !done {
          Drop(i);
        }
      }
    }

    /** Commits on every live lane; a lane whose commit fails is dropped. */
    method Commit(t: Totals) returns (ok: bool)
      requires Valid() && open == None
      requires forall i :: 0 <= i < |writers| && writers[i].IsCopy() ==> writers[i].meta.sha == writers[i].expectSha
      modifies this`live, this`reports, World()
      ensures Valid() && Fewer(old(live)) && OnlyFailedLeft() && Done(0, |writers|)
      ensures ok <==> AnyLive() || !old(AnyLive())
    {
      hide Lane;
      for i := 0 to |writers|
        invariant Committing(i) && Fewer(old(live)) && (AnyLive() || live == old(live))
      {
        var was := live[i];
        CommitNext(i, t);
        if was && !live[i] && !AnyLive() {
          WhoLeft();
          return false;
        }
      }
      ok := true;
      WhoLeft();
    }
  }

  /** The writer has committed exactly the bytes that landed on it, and its medium holds them. */
  ghost predicate Committed(w: ArchiveWriter)
    reads w, w.media
  {
    w.committed.Some? && w.Finalized(w.media.files, w.committed.value) && w.Measures(w.committed.value.arch)
  }

  /** Any two survivors carry the same checksum, size and per-part seals: which one a ranged
      read is later served from does not matter. */
  lemma SurvivorsAlign(t: Tee, i: nat, j: nat)
    requires t.Valid() && t.open == None && i < |t.writers| && j < |t.writers| && t.live[i] && t.live[j]
    requires Committed(t.writers[i]) && Committed(t.writers[j]) && t.writers[i].hash == t.writers[j].hash
    ensures var a, b := t.writers[i].committed.value.arch, t.writers[j].committed.value.arch;
      && a.sha == b.sha && a.compressed == b.compressed == |Concat(t.closed)| && a.parts == b.parts
      && |a.partSeals| == |b.partSeals| == |t.closed|
      && forall k :: 0 <= k < |t.closed| ==> a.partSeals[k].size == b.partSeals[k].size && a.partSeals[k].sha == b.partSeals[k].sha
  {
    assert Lane(t.writers[i], t.closed, None, t.stock[i]) && Lane(t.writers[j], t.closed, None, t.stock[j]);
  }
}
