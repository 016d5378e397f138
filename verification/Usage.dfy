/** Each medium's stored bytes, fused over one pass, and the append-only usage ledger. */
module Usage {
  import opened Records
  import opened Entries
  import opened CatalogState
  import opened CatalogShape
  import opened FillLedger

  datatype Total = Total(bytes: int, runs: nat)

  const NOTHING := Total(0, 0)

  datatype Sample = Sample(at: int, medium: string, used: int, runs: nat)

  // ---------------------------------------------------------------- per medium, one at a time

  /** The stored bytes of the content archives a copy holds. */
  function HeldBytes(archives: seq<Archive>, p: Placement): int
  {
    if archives == [] then 0
    else (if Holds(p, archives[0].dle, archives[0].level) then archives[0].compressed else 0) + HeldBytes(archives[1..], p)
  }

  function PlacedOn(e: Entry, medium: string): bool { PlacementAt(e.placements, medium) < |e.placements| }

  /** The sum of the archives with a copy on the medium. */
  function MediumBytes(entries: seq<Entry>, medium: string): int
  {
    if entries == [] then 0
    else
      var e := entries[0];
      (if PlacedOn(e, medium) then HeldBytes(e.run.archives, e.placements[PlacementAt(e.placements, medium)]) else 0)
      + MediumBytes(entries[1..], medium)
  }

  /** How many runs have a copy on the medium. */
  function RunsOn(entries: seq<Entry>, medium: string): nat
  {
    if entries == [] then 0
    else (if PlacedOn(entries[0], medium) then 1 else 0) + RunsOn(entries[1..], medium)
  }

  // ---------------------------------------------------------------- one pass for all media

  function At(totals: map<string, Total>, medium: string): Total
  {
    if medium in totals then totals[medium] else NOTHING
  }

  function AddCopy(totals: map<string, Total>, run: Run, p: Placement): map<string, Total>
  {
    var t := At(totals, p.medium);
    totals[p.medium := Total(t.bytes + HeldBytes(run.archives, p), t.runs + 1)]
  }

  function AddCopies(totals: map<string, Total>, run: Run, placements: seq<Placement>): map<string, Total>
    decreases |placements|
  {
    if placements == [] then totals else AddCopies(AddCopy(totals, run, placements[0]), run, placements[1..])
  }

  function AddEntries(totals: map<string, Total>, entries: seq<Entry>): map<string, Total>
    decreases |entries|
  {
    if entries == [] then totals else AddEntries(AddCopies(totals, entries[0].run, entries[0].placements), entries[1..])
  }

  function MediumTotals(entries: seq<Entry>): map<string, Total> { AddEntries(map[], entries) }

  lemma {:induction false} CopiesAt(totals: map<string, Total>, run: Run, placements: seq<Placement>, medium: string)
    requires OneCopyPerMedium(placements)
    ensures var after := AddCopies(totals, run, placements);
      var j := PlacementAt(placements, medium);
      && (medium in after <==> medium in totals || j < |placements|)
      && At(after, medium) == if j < |placements|
           then Total(At(totals, medium).bytes + HeldBytes(run.archives, placements[j]), At(totals, medium).runs + 1)
           else At(totals, medium)
    decreases |placements|
  {
    if placements != [] {
      CopiesAt(AddCopy(totals, run, placements[0]), run, placements[1..], medium);
      var k := PlacementAt(placements[1..], medium);
      if k < |placements[1..]| { assert placements[k + 1] == placements[1..][k]; }
    }
  }

  lemma {:induction false} EntriesAt(totals: map<string, Total>, entries: seq<Entry>, medium: string)
    requires forall i :: 0 <= i < |entries| ==> OneCopyPerMedium(entries[i].placements)
    ensures var after := AddEntries(totals, entries);
      && (medium in after <==> medium in totals || RunsOn(entries, medium) > 0)
      && At(after, medium) == Total(At(totals, medium).bytes + MediumBytes(entries, medium), At(totals, medium).runs + RunsOn(entries, medium))
    decreases |entries|
  {
    if entries != [] {
      CopiesAt(totals, entries[0].run, entries[0].placements, medium);
      assert forall i :: 0 <= i < |entries[1..]| ==> entries[1..][i] == entries[i + 1];
      EntriesAt(AddCopies(totals, entries[0].run, entries[0].placements), entries[1..], medium);
    }
  }

  // ---------------------------------------------------------------- record by record

  /** The sizes of the archives these records place, one for each record. */
  function RecordBytes(run: Run, placed: seq<PlacedArchive>): int
  {
    if placed == [] then 0 else ArchiveOf(run, placed[0].dle, placed[0].level).compressed + RecordBytes(run, placed[1..])
  }

  /** What the medium stores, by the records alone: an archive the content still lists but the
      copy no longer holds is not in it. */
  function StoredBytes(entries: seq<Entry>, medium: string): int
  {
    if entries == [] then 0
    else RecordBytes(entries[0].run, CopyOn(entries[0].placements, medium)) + StoredBytes(entries[1..], medium)
  }

  lemma {:induction false} HeldWithFirst(archives: seq<Archive>, p: Placement, rest: Placement)
    requires p.archives != [] && rest.archives == p.archives[1..]
    requires OneContentPerKey(archives) && PlacedAt(rest.archives, p.archives[0].dle, p.archives[0].level) == |rest.archives|
    ensures var first := p.archives[0]; var k := ArchiveAt(archives, first.dle, first.level);
      HeldBytes(archives, p) == HeldBytes(archives, rest) + if k < |archives| then archives[k].compressed else 0
  {
    if archives != [] {
      var a, first := archives[0], p.archives[0];
      HeldWithFirst(archives[1..], p, rest);
      if a.dle == first.dle && a.level == first.level {
        var k := ArchiveAt(archives[1..], first.dle, first.level);
        assert forall i :: 0 <= i < |archives[1..]| ==> archives[1..][i] == archives[i + 1];
        assert k == |archives[1..]|;
      } else {
        assert Holds(p, a.dle, a.level) <==> Holds(rest, a.dle, a.level);
      }
    }
  }

  lemma {:induction false} NothingHeld(archives: seq<Archive>, p: Placement)
    requires p.archives == []
    ensures HeldBytes(archives, p) == 0
  {
    if archives != [] { NothingHeld(archives[1..], p); }
  }

  /** A copy's stored bytes are the sizes of the archives its records place. */
  lemma {:induction false} HeldByRecord(run: Run, p: Placement)
    requires OneContentPerKey(run.archives) && OneRecordPerKey(p.archives)
    requires forall i :: 0 <= i < |p.archives| ==> InContent(run, p.archives[i])
    ensures HeldBytes(run.archives, p) == RecordBytes(run, p.archives)
    decreases |p.archives|
  {
    if p.archives == [] {
      NothingHeld(run.archives, p);
    } else {
      var rest := Placement(p.medium, p.archives[1..]);
      assert forall i :: 0 <= i < |rest.archives| ==> rest.archives[i] == p.archives[i + 1];
      HeldWithFirst(run.archives, p, rest);
      HeldByRecord(run, rest);
      assert InContent(run, p.archives[0]);
    }
  }

  lemma {:induction false} BytesByRecord(entries: seq<Entry>, medium: string)
    requires forall i :: 0 <= i < |entries| ==> EntryShape(entries[i])
    ensures MediumBytes(entries, medium) == StoredBytes(entries, medium)
  {
    if entries != [] {
      var e := entries[0];
      assert EntryShape(e);
      var j := PlacementAt(e.placements, medium);
      if j < |e.placements| {
        assert CopyShape(e.run, e.placements[j]);
        HeldByRecord(e.run, e.placements[j]);
      }
      assert forall i :: 0 <= i < |entries[1..]| ==> entries[1..][i] == entries[i + 1];
      BytesByRecord(entries[1..], medium);
    }
  }

  /** The fused pass agrees with the per-medium accounting and with the sum over the placed
      records, and names exactly the media that hold something. */
  lemma TotalsAgree(c: Cat, medium: string)
    requires WellShaped(c)
    ensures At(MediumTotals(c.entries), medium) == Total(MediumBytes(c.entries, medium), RunsOn(c.entries, medium))
    ensures MediumBytes(c.entries, medium) == StoredBytes(c.entries, medium)
    ensures medium in MediumTotals(c.entries) <==> RunsOn(c.entries, medium) > 0
  {
    forall i | 0 <= i < |c.entries| ensures OneCopyPerMedium(c.entries[i].placements) { assert EntryShape(c.entries[i]); }
    EntriesAt(map[], c.entries, medium);
    BytesByRecord(c.entries, medium);
  }

  // ---------------------------------------------------------------- the ledger

  /** The last recorded figure of a medium. */
  function LastUsed(samples: seq<Sample>, medium: string): Option<int>
  {
    if samples == [] then None
    else
      var n := |samples| - 1;
      if samples[n].medium == medium then Some(samples[n].used) else LastUsed(samples[..n], medium)
  }

  /** The diff base is what the ledger last said. */
  ghost predicate LedgerOK(samples: seq<Sample>, last: map<string, int>)
  {
    forall m :: (m in last <==> LastUsed(samples, m).Some?) && (m in last ==> LastUsed(samples, m) == Some(last[m]))
  }

  /** The media whose figure differs from the last recorded one. */
  function ChangedMedia(totals: map<string, Total>, last: map<string, int>): set<string>
  {
    set m | m in totals.Keys + last.Keys && !(m in last && last[m] == At(totals, m).bytes)
  }

  /** One sample for each changed medium, in any order. */
  ghost predicate SamplesChanges(samples: seq<Sample>, totals: map<string, Total>, last: map<string, int>, at: int)
  {
    && (forall i :: 0 <= i < |samples| ==>
          samples[i] == Sample(at, samples[i].medium, At(totals, samples[i].medium).bytes, At(totals, samples[i].medium).runs))
    && (forall m :: m in ChangedMedia(totals, last) <==> exists i :: 0 <= i < |samples| && samples[i].medium == m)
    && (forall i, j :: 0 <= i < j < |samples| ==> samples[i].medium != samples[j].medium)
  }

  /** No sample repeats the figure last recorded for its medium. */
  lemma OnlyChangesSampled(samples: seq<Sample>, last: map<string, int>, changed: seq<Sample>, totals: map<string, Total>, at: int)
    requires LedgerOK(samples, last) && SamplesChanges(changed, totals, last, at)
    ensures forall i :: 0 <= i < |changed| ==> LastUsed(samples, changed[i].medium) != Some(changed[i].used)
  {
    forall i | 0 <= i < |changed| ensures LastUsed(samples, changed[i].medium) != Some(changed[i].used) {
      assert changed[i].medium in ChangedMedia(totals, last);
    }
  }

  lemma {:induction false} LastUsedAppend(samples: seq<Sample>, more: seq<Sample>, medium: string)
    ensures LastUsed(samples + more, medium) ==
      if LastUsed(more, medium).Some? then LastUsed(more, medium) else LastUsed(samples, medium)
  {
    if more == [] {
      assert samples + more == samples;
    } else {
      var all := samples + more;
      assert all[..|all| - 1] == samples + more[..|more| - 1];
      LastUsedAppend(samples, more[..|more| - 1], medium);
    }
  }

  lemma {:induction false} LastUsedOf(samples: seq<Sample>, totals: map<string, Total>, medium: string)
    requires forall i :: 0 <= i < |samples| ==> samples[i].used == At(totals, samples[i].medium).bytes
    ensures LastUsed(samples, medium) ==
      if exists i :: 0 <= i < |samples| && samples[i].medium == medium then Some(At(totals, medium).bytes) else None
  {
    if samples != [] {
      LastUsedOf(samples[..|samples| - 1], totals, medium);
    }
  }

  /** After a successful record the last sample of every medium is its true stored bytes:
      zero for one emptied of its last archive, and nothing only for one never used. */
  lemma RecordedIsTrue(c: Cat, samples: seq<Sample>, last: map<string, int>, changed: seq<Sample>, at: int, medium: string)
    requires WellShaped(c) && LedgerOK(samples, last)
    requires SamplesChanges(changed, MediumTotals(c.entries), last, at)
    ensures var now := LastUsed(samples + changed, medium);
      && (now.Some? ==> now.value == StoredBytes(c.entries, medium))
      && (now.None? ==> RunsOn(c.entries, medium) == 0 && LastUsed(samples, medium).None?)
  {
    var totals := MediumTotals(c.entries);
    TotalsAgree(c, medium);
    LastUsedAppend(samples, changed, medium);
    LastUsedOf(changed, totals, medium);
    if medium in ChangedMedia(totals, last) {
      var i :| 0 <= i < |changed| && changed[i].medium == medium;
    }
  }
}
