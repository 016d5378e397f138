/** The loops that delete: reclaiming one archive footer first, and sweeping orphans off a
    medium whose removals may be refused. */
module Sweeping {
  import opened Records
  import opened Entries
  import opened Scan
  import opened Orphans
  import opened Store
  import opened SweepSafety
  import opened CatalogState
  import opened CatalogStore

  /** A per-file medium. Whether it lets go of a file is up to it (locked objects are kept). */
  class Volume {
    var files: Files
    const end: nat
    /** The positions whose removal was refused, in turn. */
    ghost var refused: seq<int>

    method List() returns (listing: seq<FileInfo>)
      ensures listing == Listing(files, end)
    {
      listing := Listing(files, end);
    }

    method RemoveFile(p: int) returns (ok: bool)
      modifies this`files, this`refused
      ensures files == if ok then old(files) - {p} else old(files)
      ensures refused == if ok then old(refused) else old(refused) + [p]
    {
      ok := *;
      if ok {
        files := files - {p};
      } else {
        refused := refused + [p];
      }
    }
  }

  // ---------------------------------------------------------------- what the catalog accounts for

  ghost predicate KnownIn(placements: seq<Placement>, medium: string, n: nat, p: int)
    requires n <= |placements|
  {
    exists i :: 0 <= i < n && placements[i].medium == medium && UsedBy(placements[i].archives, |placements[i].archives|, p)
  }

  /** Some copy on the medium records a file at p. */
  ghost predicate KnownOn(entries: seq<Entry>, medium: string, n: nat, p: int)
    requires n <= |entries|
  {
    exists i :: 0 <= i < n && KnownIn(entries[i].placements, medium, |entries[i].placements|, p)
  }

  method KnownOfRun(placements: seq<Placement>, medium: string) returns (known: set<int>)
    ensures forall p :: p in known <==> KnownIn(placements, medium, |placements|, p)
  {
    known := {};
    for i := 0 to |placements|
      invariant forall p :: p in known <==> KnownIn(placements, medium, i, p)
    {
      if placements[i].medium != medium {
        continue;
      }
      var used := CopyPositions(placements[i].archives);
      known := known + used;
    }
  }

  method KnownPositions(cat: Catalog, medium: string) returns (known: set<int>)
    ensures Knows(cat.entries, medium, known)
  {
    known := {};
    for i := 0 to |cat.entries|
      invariant forall p :: p in known <==> KnownOn(cat.entries, medium, i, p)
    {
      var used := KnownOfRun(cat.entries[i].placements, medium);
      known := known + used;
    }
  }

  /** Every copy the catalog records on the medium is one that is committed there. */
  ghost predicate RecordsAreCommitted(entries: seq<Entry>, medium: string, committed: Ledger)
  {
    forall i, j :: 0 <= i < |entries| && 0 <= j < |entries[i].placements| && entries[i].placements[j].medium == medium ==>
      AllCommitted(committed, entries[i].placements[j].archives)
  }

  ghost predicate AllCommitted(committed: Ledger, archives: seq<PlacedArchive>)
  {
    forall k :: 0 <= k < |archives| ==> IsCommitted(committed, archives[k])
  }

  ghost predicate IsCommitted(committed: Ledger, pa: PlacedArchive)
  {
    exists key :: key in committed && committed[key].Pos() == pa.Pos()
  }

  /** Then what the catalog knows is closed: no footer without all of its archive's files. */
  lemma TrueRecordsAreClosed(files: Files, n: nat, committed: Ledger, entries: seq<Entry>, medium: string, known: set<int>)
    requires Holding(files, n, committed) && RecordsAreCommitted(entries, medium, committed)
    requires Knows(entries, medium, known)
    ensures FooterClosed(committed, known)
  {
    forall key, p | key in committed && committed[key].commit in known && committed[key].Uses(p) ensures p in known {
      var c := committed[key].commit;
      var i :| 0 <= i < |entries| && KnownIn(entries[i].placements, medium, |entries[i].placements|, c);
      var j :| 0 <= j < |entries[i].placements| && entries[i].placements[j].medium == medium
        && UsedBy(entries[i].placements[j].archives, |entries[i].placements[j].archives|, c);
      var archives := entries[i].placements[j].archives;
      var k :| 0 <= k < |archives| && c in PosFiles(archives[k].Pos());
      assert IsCommitted(committed, archives[k]);
      var owner :| owner in committed && committed[owner].Pos() == archives[k].Pos();
      OwnerOfFooter(files, n, committed, key, owner);
      PosFilesOfWritten(committed[key], p);
      assert UsedBy(archives, |archives|, p);
      assert KnownIn(entries[i].placements, medium, |entries[i].placements|, p);
    }
  }

  /** A committed footer belongs to one archive's files only. */
  lemma OwnerOfFooter(files: Files, n: nat, committed: Ledger, key: ArchiveKey, owner: ArchiveKey)
    requires Holding(files, n, committed) && key in committed && owner in committed
    requires committed[key].commit in PosFiles(committed[owner].Pos())
    ensures owner == key
    ensures committed[key].index.Some? ==> committed[key].index.value != 0
  {
    assert Whole(files, key, committed[key]) && Whole(files, owner, committed[owner]);
    PosFilesOfWritten(committed[owner], committed[key].commit);
    UsedFile(files, n, committed, owner, committed[key].commit);
    UsedFile(files, n, committed, key, committed[key].commit);
  }

  // ---------------------------------------------------------------- the orphan sweep

  /** The positions the catalog accounts for on the medium. */
  ghost predicate Knows(entries: seq<Entry>, medium: string, known: set<int>)
  {
    forall q :: q in known <==> KnownOn(entries, medium, |entries|, q)
  }

  /** p holds a listed orphan that minimum_age does not protect. */
  ghost predicate Due(orphans: seq<FileInfo>, young: FileInfo -> bool, p: int)
  {
    exists i :: 0 <= i < |orphans| && orphans[i].pos == p && !young(orphans[i])
  }

  /** How many listed orphans are due. */
  function DueCount(orphans: seq<FileInfo>, young: FileInfo -> bool): nat
  {
    if orphans == [] then 0 else DueCount(orphans[..|orphans| - 1], young) + if young(orphans[|orphans| - 1]) then 0 else 1
  }

  /** Everything gone was due; with apply everything due is gone or was refused; and what is
      counted is what was due less the refusals. */
  ghost predicate SweptExactly(orphans: seq<FileInfo>, young: FileInfo -> bool, apply: bool, swept: nat, gone: set<int>, refused: seq<int>)
  {
    && swept + |refused| == DueCount(orphans, young) && (!apply ==> refused == [])
    && (forall p :: p in gone ==> apply && Due(orphans, young, p))
    && (apply ==> forall p :: Due(orphans, young, p) ==> p in gone || p in refused)
  }

  /** Deletes what no committed archive references. `young` says which files minimum_age still
      protects; a refused removal is left for later. What is gone is only orphans that are not
      protected, and each of those unless its removal was refused; so the medium still holds
      every archive it held. */
  method SweepOrphans(vol: Volume, cat: Catalog, medium: string, young: FileInfo -> bool, apply: bool, ghost committed: Ledger)
    returns (swept: nat, ghost gone: set<int>)
    modifies vol`files, vol`refused
    ensures vol.files == old(vol.files) - gone && old(vol.refused) <= vol.refused
    ensures exists known :: (
      && Knows(cat.entries, medium, known)
      && SweptExactly(OrphansOf(Listing(old(vol.files), vol.end), known), young, apply, swept, gone, vol.refused[|old(vol.refused)|..]))
    ensures Holding(old(vol.files), vol.end, committed) && RecordsAreCommitted(cat.entries, medium, committed) ==>
      Holding(vol.files, vol.end, committed)
  {
    var known := KnownPositions(cat, medium);
    var listing := vol.List();
    var orphans := OrphanFiles(listing, known);
    swept, gone := Sweep(vol, orphans, young, apply);
    if Holding(old(vol.files), vol.end, committed) && RecordsAreCommitted(cat.entries, medium, committed) {
      TrueRecordsAreClosed(old(vol.files), vol.end, committed, cat.entries, medium, known);
      SweptKeepsHolding(old(vol.files), vol.end, committed, known, young, gone);
    }
  }

  method Sweep(vol: Volume, orphans: seq<FileInfo>, young: FileInfo -> bool, apply: bool) returns (swept: nat, ghost gone: set<int>)
    modifies vol`files, vol`refused
    ensures vol.files == old(vol.files) - gone && old(vol.refused) <= vol.refused
    ensures SweptExactly(orphans, young, apply, swept, gone, vol.refused[|old(vol.refused)|..])
  {
    swept, gone := 0, {};
    ghost var seen := |vol.refused|;
    assert orphans[..0] == [];
    for i := 0 to |orphans|
      invariant vol.files == old(vol.files) - gone && old(vol.refused) <= vol.refused
      invariant SweptExactly(orphans[..i], young, apply, swept, gone, vol.refused[seen..])
    {
      ghost var refused := vol.refused[seen..];
      OneMoreDue(orphans, young, i);
      assert orphans[..i + 1][..i] == orphans[..i];
      if young(orphans[i]) {
        continue;
      }
      if !apply {
        swept := swept + 1;
        continue;
      }
      var ok := vol.RemoveFile(orphans[i].pos);
      assert vol.refused[seen..] == refused + if ok then [] else [orphans[i].pos];
      if ok {
        gone, swept := gone + {orphans[i].pos}, swept + 1;
      }
    }
    assert orphans[..|orphans|] == orphans;
  }

  lemma OneMoreDue(orphans: seq<FileInfo>, young: FileInfo -> bool, i: nat)
    requires i < |orphans|
    ensures forall p :: Due(orphans[..i + 1], young, p) <==> Due(orphans[..i], young, p) || (p == orphans[i].pos && !young(orphans[i]))
  {
    var more, less := orphans[..i + 1], orphans[..i];
    assert more[i] == orphans[i];
    forall p ensures Due(more, young, p) <==> Due(less, young, p) || (p == orphans[i].pos && !young(orphans[i])) {
      if Due(less, young, p) {
        var j :| 0 <= j < |less| && less[j].pos == p && !young(less[j]);
        assert more[j] == less[j];
      }
    }
  }

  lemma SweptKeepsHolding(files: Files, n: nat, committed: Ledger, known: set<int>, young: FileInfo -> bool, gone: set<int>)
    requires Holding(files, n, committed) && FooterClosed(committed, known)
    requires forall p :: p in gone ==> Due(OrphansOf(Listing(files, n), known), young, p)
    ensures Holding(files - gone, n, committed)
  {
    SweepKeepsAssembled(files, n, committed, known, gone, ArchiveKey("", "", 0));
  }

  // ---------------------------------------------------------------- reclaiming one archive

  /** Removes the archive's files in order, footer first, then its record. A refused removal
      stops it: some first files are gone, the record stays. */
  method ReclaimAt(vol: Volume, cat: Catalog, medium: string, key: ArchiveKey, pos: ArchivePos) returns (ok: bool, ghost k: nat)
    requires cat.Valid()
    modifies vol`files, vol`refused, cat
    ensures cat.Valid() && k <= |PosFiles(pos)| && vol.files == old(vol.files) - Firsts(PosFiles(pos), k)
    ensures !ok ==> k < |PosFiles(pos)| && vol.refused == old(vol.refused) + [PosFiles(pos)[k]]
    ensures k > 0 ==> pos.commit.pos !in vol.files
    ensures ok ==> k == |PosFiles(pos)| && cat.Contents() == CatalogState.RemoveArchive(cat.price, old(cat.Contents()), key.run, medium, key.dle)
    ensures !ok ==> cat.Contents() == old(cat.Contents())
  {
    var order := ArchivePosFiles(pos);
    k := 0;
    for i := 0 to |order|
      invariant k == i && vol.refused == old(vol.refused) && vol.files == old(vol.files) - Firsts(order, k)
      invariant cat.Valid() && cat.Contents() == old(cat.Contents()) && unchanged(cat)
    {
      ok := vol.RemoveFile(order[i]);
      if !ok {
        FirstIsFooter(pos, k);
        return;
      }
      FirstsNext(order, i);
      k := k + 1;
    }
    FirstIsFooter(pos, k);
    var at: int := *;
    var appended: bool := *;
    var placementGone, entryGone := cat.RemoveArchive(key.run, medium, key.dle, at, appended);
    ok := true;
  }

  /** The first k positions of an order. */
  ghost function Firsts(order: seq<int>, k: nat): set<int>
    requires k <= |order|
  {
    set i | 0 <= i < k :: order[i]
  }

  lemma FirstsNext(order: seq<int>, i: nat)
    requires i < |order|
    ensures Firsts(order, i + 1) == Firsts(order, i) + {order[i]}
  {
  }

  lemma FirstIsFooter(pos: ArchivePos, k: nat)
    requires k <= |PosFiles(pos)|
    ensures k > 0 ==> pos.commit.pos in Firsts(PosFiles(pos), k)
  {
    assert PosFiles(pos)[0] == pos.commit.pos;
  }

  /** A reclaim stopped anywhere leaves the medium holding every other archive, and the
      reclaimed one either still whole or not committed at all. */
  lemma InterruptedReclaim(files: Files, n: nat, committed: Ledger, key: ArchiveKey, k: nat)
    requires Holding(files, n, committed) && key in committed && k <= |PosFiles(committed[key].Pos())|
    ensures Holding(files - Firsts(PosFiles(committed[key].Pos()), k), n, if k == 0 then committed else committed - {key})
  {
    var w := committed[key];
    var gone := Firsts(PosFiles(w.Pos()), k);
    var rest := if k == 0 then committed else committed - {key};
    assert Whole(files, key, w);
    forall p | p in gone ensures files[p].key == key && p in files {
      PosFilesOfWritten(w, p);
      UsedFile(files, n, committed, key, p);
    }
    FirstIsFooter(w.Pos(), k);
    forall o | o in rest ensures Whole(files - gone, o, rest[o]) {
      OthersStayWhole(files, n, committed, key, gone, o);
    }
    forall p, o | FooterOn(files - gone, p, o) ensures o in rest && p == rest[o].commit {
      assert FooterOn(files, p, o);
    }
  }

  lemma OthersStayWhole(files: Files, n: nat, committed: Ledger, key: ArchiveKey, gone: set<int>, o: ArchiveKey)
    requires Holding(files, n, committed) && o in committed && (o != key || gone == {})
    requires forall p :: p in gone ==> p in files && files[p].key == key
    ensures Whole(files - gone, o, committed[o])
  {
    var w, after := committed[o], files - gone;
    assert Whole(files, o, w);
    assert FooterOn(after, w.commit, o);
    forall i | 0 <= i < |w.parts| ensures PartOn(after, w.parts[i], o, i) { assert PartOn(files, w.parts[i], o, i); }
    forall p, i | 0 <= i < |w.parts| && PartOn(after, p, o, i) ensures p <= w.parts[i] { assert PartOn(files, p, o, i); }
    forall p | IndexOn(after, p, o) ensures w.index.Some? && p <= w.index.value { assert IndexOn(files, p, o); }
  }
}
