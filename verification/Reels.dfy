/** Packing a run's bytes onto the reels of a tape pool, for the capacity forecast. */
module Reels {
  datatype Reel = Reel(remaining: int, runs: set<string>)

  function Room(reels: seq<Reel>): int
  {
    if reels == [] then 0 else Room(reels[..|reels| - 1]) + reels[|reels| - 1].remaining
  }

  predicate NoneOverfull(reels: seq<Reel>) { forall i :: 0 <= i < |reels| ==> reels[i].remaining >= 0 }

  function Marked(r: Reel, run: string): Reel { r.(runs := r.runs + {run}) }

  /** How many further reels n bytes need. */
  function ReelsFor(n: int, usable: int): nat
    requires usable > 0
  {
    if n <= 0 then 0 else (n + usable - 1) / usable
  }

  class Pool {
    const usable: int
    const appendable: bool
    var reels: seq<Reel>

    constructor (usable: int, appendable: bool, reels: seq<Reel>)
      ensures this.usable == usable && this.appendable == appendable && this.reels == reels
    {
      this.usable, this.appendable, this.reels := usable, appendable, reels;
    }

    /** Puts what fits on the last reel, or on a fresh one when the last is full. */
    method PlaceSome(run: string, bytes: int, ghost start: seq<Reel>, ghost open: nat, ghost bytes0: int) returns (rest: int)
      requires bytes > 0 && Packing(start, reels, open, usable, run, bytes0, bytes)
      modifies this`reels
      ensures rest < bytes && Packing(start, reels, open, usable, run, bytes0, rest)
    {
      ghost var before := reels;
      if reels[|reels| - 1].remaining <= 0 {
        reels := reels + [Reel(usable, {})];
      }
      var last := |reels| - 1;
      var put := if bytes > reels[last].remaining then reels[last].remaining else bytes;
      reels := reels[last := Reel(reels[last].remaining - put, reels[last].runs + {run})];
      assert {} + {run} == {run};
      if |before| == |reels| {
        PutKeeps(start, before, reels, open, usable, run, bytes0, bytes, put);
      } else {
        SpillKeeps(start, before, reels, open, usable, run, bytes0, bytes, put);
      }
      rest := bytes - put;
    }

    /** Places the run's bytes. They start on the pool's last reel or, with an empty pool or for a
        fresh run on reels that cannot be appended to, on a fresh one; further reels follow as
        each fills. The first reel is left with what does not spill, all but the last further
        reel are full, and the last has room for less than a whole reel. */
    method Pack(run: string, bytes0: int, freshRun: bool)
      requires usable > 0 && NoneOverfull(reels)
      modifies this`reels
      ensures old(reels) == [] ==> IsPacked([Reel(usable, {})], reels, 0, usable, run, bytes0)
      ensures old(reels) != [] && freshRun && !appendable ==> IsPacked(old(reels) + [Reel(usable, {})], reels, |old(reels)|, usable, run, bytes0)
      ensures old(reels) != [] && (!freshRun || appendable) ==> IsPacked(old(reels), reels, |old(reels)| - 1, usable, run, bytes0)
    {
      var bytes := bytes0;
      if |reels| == 0 || (freshRun && !appendable) {
        reels := reels + [Reel(usable, {})];
      }
      ghost var start, open := reels, |reels| - 1;
      reels := reels[|reels| - 1 := Marked(reels[|reels| - 1], run)];
      NothingPlaced(start, open, usable, run, bytes0);
      hide Packing;
      hide IsPacked;
      while bytes > 0
        invariant Packing(start, reels, open, usable, run, bytes0, bytes)
      {
        bytes := PlaceSome(run, bytes, start, open, bytes0);
      }
      AllPlaced(start, reels, open, usable, run, bytes0, bytes);
    }
  }

  lemma NothingPlaced(start: seq<Reel>, open: nat, usable: int, run: string, bytes: int)
    requires usable > 0 && NoneOverfull(start) && open == |start| - 1
    ensures Packing(start, start[open := Marked(start[open], run)], open, usable, run, bytes, bytes)
  {
  }

  /** Bytes put on the last reel, which has room. */
  lemma PutKeeps(start: seq<Reel>, before: seq<Reel>, after: seq<Reel>, open: nat, usable: int, run: string, bytes0: int, left: int, put: int)
    requires Packing(start, before, open, usable, run, bytes0, left) && left > 0
    requires var last := before[|before| - 1];
      0 < put <= last.remaining && put <= left && after == before[|before| - 1 := Reel(last.remaining - put, last.runs + {run})]
    ensures Packing(start, after, open, usable, run, bytes0, left - put)
  {
  }

  /** The last reel is full: the bytes go to a fresh one. */
  lemma SpillKeeps(start: seq<Reel>, before: seq<Reel>, after: seq<Reel>, open: nat, usable: int, run: string, bytes0: int, left: int, put: int)
    requires Packing(start, before, open, usable, run, bytes0, left) && left > 0 && before[|before| - 1].remaining <= 0
    requires 0 < put <= usable && put <= left && after == before + [Reel(usable - put, {run})]
    ensures Packing(start, after, open, usable, run, bytes0, left - put)
  {
    if |before| > |start| {
      var spilt := bytes0 - start[open].remaining - left;
      OneMoreReel(before[|before| - 1].remaining, |before| - |start|, usable, spilt, put);
    }
  }

  lemma OneMoreReel(room: int, n: int, usable: int, spilt: int, put: int)
    requires Spilt(room, n, usable, spilt) && room <= 0 && 0 < put <= usable
    ensures Spilt(usable - put, n + 1, usable, spilt + put)
  {
    assert (n + 1) * usable == n * usable + usable;
  }

  lemma CeilIs(n: int, usable: int, over: int)
    requires usable > 0 && n >= 1 && 0 <= n * usable - over < usable
    ensures over > 0 ==> (over + usable - 1) / usable == n
  {
    if over > 0 {
      DivIs(over + usable - 1, usable, n);
    }
  }

  lemma Multiple(d: int, k: int)
    requires d > 0
    ensures (k >= 1 ==> d * k >= d) && (k <= -1 ==> d * k <= 0 - d)
  {
  }

  lemma Apart(d: int, a: int, b: int)
    ensures d * (a - b) == d * a - d * b
  {
  }

  lemma DivIs(x: int, d: int, q: int)
    requires d > 0 && q * d <= x < q * d + d
    ensures x / d == q
  {
    var p, m := x / d, x % d;
    assert x == d * p + m && 0 <= m < d;
    Apart(d, p, q);
    Multiple(d, p - q);
  }

  lemma AllPlaced(start: seq<Reel>, reels: seq<Reel>, open: nat, usable: int, run: string, bytes0: int, left: int)
    requires Packing(start, reels, open, usable, run, bytes0, left) && left <= 0
    ensures IsPacked(start, reels, open, usable, run, bytes0)
  {
    var over := bytes0 - start[open].remaining;
    if |reels| > |start| {
      CeilIs(|reels| - |start|, usable, over);
    }
    forall i | 0 <= i < |reels| ensures reels[i].remaining >= 0 {
      if i < open { assert reels[..open][i] == start[..open][i]; }
    }
  }

  /** Part way: some bytes are still to be placed. */
  ghost predicate Packing(start: seq<Reel>, reels: seq<Reel>, open: nat, usable: int, run: string, bytes0: int, left: int)
  {
    && open == |start| - 1 && open < |reels| && usable > 0 && NoneOverfull(start)
    && reels[..open] == start[..open]
    && reels[open].runs == start[open].runs + {run}
    && (forall i :: open < i < |reels| ==> reels[i].runs == {run})
    && (left > 0 ==> bytes0 > 0) && (bytes0 > 0 ==> 0 <= left <= bytes0) && (bytes0 <= 0 ==> left == bytes0)
    && (if |reels| == |start| then reels[open].remaining == start[open].remaining - (bytes0 - left) >= 0
        else
          && reels[open].remaining == 0 && (forall i :: open < i < |reels| - 1 ==> reels[i].remaining == 0)
          && bytes0 > start[open].remaining
          && Spilt(reels[|reels| - 1].remaining, |reels| - |start|, usable, bytes0 - start[open].remaining - left))
  }

  /** n further reels took the bytes that spilt, the last one having this room left. */
  ghost predicate Spilt(room: int, n: int, usable: int, spilt: int)
  {
    n >= 1 && room == n * usable - spilt && 0 <= room < usable
  }

  /** All placed. */
  ghost predicate IsPacked(start: seq<Reel>, reels: seq<Reel>, open: int, usable: int, run: string, bytes: int)
    requires usable > 0 && 0 <= open == |start| - 1
  {
    var over := bytes - start[open].remaining;
    && |reels| == |start| + ReelsFor(over, usable) && NoneOverfull(reels)
    && reels[..open] == start[..open]
    && reels[open] == Reel(if bytes <= 0 then start[open].remaining else if over > 0 then 0 else 0 - over, start[open].runs + {run})
    && (forall i :: open < i < |reels| - 1 ==> reels[i] == Reel(0, {run}))
    && (over > 0 && bytes > 0 ==> reels[|reels| - 1] == Reel(ReelsFor(over, usable) * usable - over, {run}))
  }

  // ---------------------------------------------------------------- what packing keeps

  lemma {:induction false} RoomOfFull(reels: seq<Reel>, from: nat, to: nat)
    requires from <= to <= |reels| && forall i :: from <= i < to ==> reels[i].remaining == 0
    ensures Room(reels[..to]) == Room(reels[..from])
  {
    if from < to {
      RoomOfFull(reels, from, to - 1);
      assert reels[..to][..to - 1] == reels[..to - 1];
    }
  }

  lemma RoomUpTo(reels: seq<Reel>, i: nat)
    requires i < |reels|
    ensures Room(reels[..i + 1]) == Room(reels[..i]) + reels[i].remaining
  {
    assert reels[..i + 1][..i] == reels[..i];
  }

  /** The run consumes exactly its bytes of room: what the pool had, plus what the further
      reels brought, less the bytes, is what the pool has left. */
  lemma PackingConserves(start: seq<Reel>, reels: seq<Reel>, open: int, usable: int, run: string, bytes: int)
    requires usable > 0 && 0 <= open == |start| - 1 && NoneOverfull(start) && IsPacked(start, reels, open, usable, run, bytes)
    ensures Room(reels) == Room(start) + usable * (|reels| - |start|) - (if bytes > 0 then bytes else 0)
  {
    WhatIsLeft(start, reels, open, usable, run, bytes);
    hide IsPacked;
    RoomBefore(start, reels, open);
    RoomUpTo(start, open);
    assert start[..open + 1] == start;
    RoomUpTo(reels, open);
    if |reels| == |start| {
      assert reels[..open + 1] == reels;
    } else {
      FurtherRoom(reels, open);
    }
  }

  /** Where the room that is left lies. */
  lemma WhatIsLeft(start: seq<Reel>, reels: seq<Reel>, open: int, usable: int, run: string, bytes: int)
    requires usable > 0 && 0 <= open == |start| - 1 && NoneOverfull(start) && IsPacked(start, reels, open, usable, run, bytes)
    ensures |reels| >= |start| && reels[..open] == start[..open]
    ensures forall i :: open < i < |reels| - 1 ==> reels[i].remaining == 0
    ensures var used, more := if bytes > 0 then bytes else 0, usable * (|reels| - |start|);
      && (|reels| == |start| ==> more == 0 && reels[open].remaining == start[open].remaining - used)
      && (|reels| > |start| ==> reels[open].remaining == 0 && reels[|reels| - 1].remaining == start[open].remaining + more - used)
  {
    var over, n := bytes - start[open].remaining, |reels| - |start|;
    assert n == ReelsFor(over, usable);
    if n > 0 {
      assert over > 0 && bytes > 0;
      assert n * usable == usable * n;
    }
  }

  lemma RoomBefore(start: seq<Reel>, reels: seq<Reel>, open: nat)
    requires open < |start| && open < |reels| && reels[..open] == start[..open]
    ensures Room(reels[..open]) == Room(start[..open])
  {
  }

  lemma FurtherRoom(reels: seq<Reel>, open: nat)
    requires open < |reels| - 1 && forall i :: open < i < |reels| - 1 ==> reels[i].remaining == 0
    ensures Room(reels) == Room(reels[..open + 1]) + reels[|reels| - 1].remaining
  {
    RoomOfFull(reels, open + 1, |reels| - 1);
    RoomUpTo(reels, |reels| - 1);
    assert reels[..|reels|] == reels;
  }

  /** How many bytes reel i took. */
  function Took(start: seq<Reel>, reels: seq<Reel>, usable: int, i: nat): int
    requires i < |reels|
  {
    (if i < |start| then start[i].remaining else usable) - reels[i].remaining
  }

  /** The run touches a reel when it puts bytes there; an empty run touches the open reel. */
  predicate Touches(start: seq<Reel>, reels: seq<Reel>, usable: int, bytes: int, i: nat)
    requires i < |reels|
  {
    Took(start, reels, usable, i) > 0 || (bytes <= 0 && i == |start| - 1)
  }

  lemma FurtherReelsTake(start: seq<Reel>, reels: seq<Reel>, open: int, usable: int, run: string, bytes: int, i: nat)
    requires usable > 0 && 0 <= open == |start| - 1 && NoneOverfull(start) && IsPacked(start, reels, open, usable, run, bytes)
    requires open < i < |reels|
    ensures Took(start, reels, usable, i) > 0
  {
    var over := bytes - start[open].remaining;
    var x, n := over + usable - 1, ReelsFor(over, usable);
    assert x == usable * n + x % usable && 0 <= x % usable < usable;
    assert n * usable - over < usable;
  }

  /** The run was marked on reel i before this packing. */
  predicate WasMarked(start: seq<Reel>, run: string, i: nat) { i < |start| && run in start[i].runs }

  /** Packing marks exactly the reels the run touches, besides those it was marked on already,
      unless the run has bytes and the open reel is already full and unmarked: then that reel
      is marked although none of the bytes lie on it. */
  lemma MarksTouchedIff(start: seq<Reel>, reels: seq<Reel>, open: int, usable: int, run: string, bytes: int)
    requires usable > 0 && 0 <= open == |start| - 1 && NoneOverfull(start) && IsPacked(start, reels, open, usable, run, bytes)
    ensures (forall i :: 0 <= i < |reels| ==>
              (run in reels[i].runs <==> WasMarked(start, run, i) || Touches(start, reels, usable, bytes, i))) <==>
            !(bytes > 0 && start[open].remaining == 0 && run !in start[open].runs)
  {
    assert run in reels[open].runs;
    forall i | 0 <= i < |reels| && i != open ensures run in reels[i].runs <==> WasMarked(start, run, i) || Touches(start, reels, usable, bytes, i) {
      if i < open {
        assert start[..open][i] == reels[..open][i];
      } else {
        FurtherReelsTake(start, reels, open, usable, run, bytes, i);
      }
    }
    assert Touches(start, reels, usable, bytes, open) <==> !(bytes > 0 && start[open].remaining == 0);
  }
}
