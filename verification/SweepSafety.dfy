/** When the orphan sweep is safe, and exactly what it deletes. */
module SweepSafety {
  import opened Records
  import opened Scan
  import opened Orphans
  import opened Store

  /** A known footer comes with the knowledge of all its archive's files. */
  ghost predicate FooterClosed(committed: Ledger, known: set<int>)
  {
    forall key :: key in committed && committed[key].commit in known ==>
      forall p :: committed[key].Uses(p) ==> p in known
  }

  ghost predicate InCommitted(committed: Ledger, p: int)
  {
    exists key :: key in committed && committed[key].Uses(p)
  }

  function SeenMaps(files: Files, known: set<int>, n: nat): Maps
  {
    ScanFiles(Listing(Without(files, known), n), "", 0)
  }

  lemma UsedFile(files: Files, n: nat, committed: Ledger, key: ArchiveKey, p: int)
    requires Holding(files, n, committed) && key in committed && committed[key].Uses(p)
    ensures p in files && files[p].key == key && files[p].kind != VolumeLabel
  {
    var w := committed[key];
    assert FooterOn(files, w.commit, key);
    if p in w.parts {
      var i :| 0 <= i < |w.parts| && w.parts[i] == p;
      assert PartOn(files, w.parts[i], key, i);
    }
  }

  lemma {:induction false} PlacedPartsFrom(acc: Maps, key: ArchiveKey, m: nat, loc: FilePos)
    requires key in acc.commits && loc in PlacedParts(acc, key, m)
    ensures exists i :: 0 <= i < m && PartLoc(acc, key, i) == Some(loc)
  {
    if !(PartLoc(acc, key, m - 1) == Some(loc)) {
      PlacedPartsFrom(acc, key, m - 1, loc);
    }
  }

  lemma {:induction false} PlacedPartsHas(acc: Maps, key: ArchiveKey, m: nat, i: nat, loc: FilePos)
    requires key in acc.commits && i < m && PartLoc(acc, key, i) == Some(loc)
    ensures loc in PlacedParts(acc, key, m)
  {
    if i < m - 1 { PlacedPartsHas(acc, key, m - 1, i, loc); }
  }

  lemma PosFilesMembers(pos: ArchivePos, p: int)
    ensures p in PosFiles(pos) <==>
      p == pos.commit.pos || (pos.index != NO_FILE && p == pos.index.pos) ||
      exists i :: 0 <= i < |pos.parts| && pos.parts[i].pos == p
  {
    var head := [pos.commit.pos] + if pos.index != NO_FILE then [pos.index.pos] else [];
    var tail := seq(|pos.parts|, i requires 0 <= i < |pos.parts| => pos.parts[i].pos);
    assert PosFiles(pos) == head + tail;
    assert p in head <==> p == pos.commit.pos || (pos.index != NO_FILE && p == pos.index.pos);
    if exists i :: 0 <= i < |pos.parts| && pos.parts[i].pos == p {
      var i :| 0 <= i < |pos.parts| && pos.parts[i].pos == p;
      assert tail[i] == p;
    }
  }

  /** An archive assembled among the surprises refers only to its own files. */
  lemma RefersToOwnFiles(files: Files, n: nat, committed: Ledger, known: set<int>, key: ArchiveKey, p: int)
    requires Holding(files, n, committed)
    requires key in SeenMaps(files, known, n).commits
    requires p in PosFiles(Placed(SeenMaps(files, known, n), key).Pos())
    ensures key in committed && committed[key].commit !in known
    ensures p in files && files[p].key == key
  {
    var acc := SeenMaps(files, known, n);
    var rest := Without(files, known);
    ScanSeesLatest(rest, n);
    assert FooterOn(rest, acc.commits[key].loc.pos, key);
    assert FooterOn(files, acc.commits[key].loc.pos, key);
    var w := committed[key];
    assert acc.commits[key].arch == w.footer;
    var pos := Placed(acc, key).Pos();
    PosFilesMembers(pos, p);
    if p == pos.commit.pos {
    } else if pos.index != NO_FILE && p == pos.index.pos {
      if key in acc.indexes {
        assert IndexOn(rest, acc.indexes[key].pos, key);
      } else {
        UsedFile(files, n, committed, key, p);
      }
    } else {
      var j :| 0 <= j < |pos.parts| && pos.parts[j].pos == p;
      PlacedPartsFrom(acc, key, PartCount(w.footer), pos.parts[j]);
      var i :| 0 <= i < PartCount(w.footer) && PartLoc(acc, key, i) == Some(pos.parts[j]);
      if PartKey(key, i) in acc.parts {
        assert PartOn(rest, acc.parts[PartKey(key, i)].pos, key, i);
      } else {
        UsedFile(files, n, committed, key, w.parts[i]);
      }
    }
  }

  /** Every unknown file of an archive whose footer is unknown too is referenced. */
  lemma UnknownFileReferenced(files: Files, n: nat, committed: Ledger, known: set<int>, key: ArchiveKey, p: int)
    requires Holding(files, n, committed) && key in committed
    requires committed[key].Uses(p) && p !in known && committed[key].commit !in known
    ensures Referenced(SeenMaps(files, known, n), p)
  {
    var acc := SeenMaps(files, known, n);
    var rest := Without(files, known);
    var w := committed[key];
    ScanSeesLatest(rest, n);
    assert FooterOn(rest, w.commit, key);
    assert FooterOn(files, acc.commits[key].loc.pos, key);
    assert acc.commits[key] == ScannedCommit(w.footer, Loc(w.commit));
    PosFilesMembers(Placed(acc, key).Pos(), p);
    if p in w.parts {
      var i :| 0 <= i < |w.parts| && w.parts[i] == p;
      assert PartOn(rest, p, key, i);
      assert PartOn(files, acc.parts[PartKey(key, i)].pos, key, i);
      PlacedPartsHas(acc, key, PartCount(w.footer), i, Loc(p));
      var placed := Placed(acc, key).Pos().parts;
      var j :| 0 <= j < |placed| && placed[j] == Loc(p);
      assert placed[j].pos == p;
    } else if w.index == Some(p) {
      assert IndexOn(rest, p, key);
      assert IndexOn(files, acc.indexes[key].pos, key);
    }
  }

  /** The orphan verdict on a committed file: only a known footer over an unknown file
      makes the file look orphaned. */
  lemma CommittedFileVerdict(files: Files, n: nat, committed: Ledger, known: set<int>, key: ArchiveKey, p: int)
    requires Holding(files, n, committed) && key in committed
    requires committed[key].Uses(p) && p !in known
    ensures Referenced(SeenMaps(files, known, n), p) <==> committed[key].commit !in known
  {
    UsedFile(files, n, committed, key, p);
    if committed[key].commit !in known {
      UnknownFileReferenced(files, n, committed, known, key, p);
    }
    if Referenced(SeenMaps(files, known, n), p) {
      var k :| k in SeenMaps(files, known, n).commits && p in PosFiles(Placed(SeenMaps(files, known, n), k).Pos());
      RefersToOwnFiles(files, n, committed, known, k, p);
    }
  }

  lemma {:induction false} OrphansInMembers(acc: Maps, files: seq<FileInfo>, f: FileInfo)
    ensures f in OrphansIn(acc, files) <==> f in files && IsOrphan(acc, f)
  {
    if files != [] {
      OrphansInMembers(acc, files[..|files| - 1], f);
      assert files == files[..|files| - 1] + [files[|files| - 1]];
    }
  }

  lemma {:induction false} ListingMembers(files: Files, n: nat, f: FileInfo)
    ensures f in Listing(files, n) <==> 0 <= f.pos < n && f.pos in files && files[f.pos] == f.file
  {
    if n > 0 { ListingMembers(files, n - 1, f); }
  }

  /** The sweep's list, file by file. */
  lemma OrphanExact(files: Files, n: nat, known: set<int>, f: FileInfo)
    ensures f in OrphansOf(Listing(files, n), known) <==>
      0 <= f.pos < n && f.pos in files && files[f.pos] == f.file && f.pos !in known &&
      f.file.kind != VolumeLabel && !Referenced(SeenMaps(files, known, n), f.pos)
  {
    SurprisesAreTheRest(files, known, n);
    OrphansInMembers(SeenMaps(files, known, n), Listing(Without(files, known), n), f);
    ListingMembers(Without(files, known), n, f);
  }

  ghost predicate SparesCommitted(files: Files, n: nat, committed: Ledger, known: set<int>)
  {
    forall f :: f in OrphansOf(Listing(files, n), known) ==> !InCommitted(committed, f.pos)
  }

  /** The sweep spares every committed archive exactly when no footer is known without the
      rest of its archive: excluding known positions is not harmless by itself. */
  lemma SweepSafeIff(files: Files, n: nat, committed: Ledger, known: set<int>)
    requires Holding(files, n, committed)
    ensures SparesCommitted(files, n, committed, known) <==> FooterClosed(committed, known)
  {
    if FooterClosed(committed, known) {
      forall f | f in OrphansOf(Listing(files, n), known) ensures !InCommitted(committed, f.pos) {
        OrphanExact(files, n, known, f);
        if InCommitted(committed, f.pos) {
          var key :| key in committed && committed[key].Uses(f.pos);
          CommittedFileVerdict(files, n, committed, known, key, f.pos);
        }
      }
    }
    if SparesCommitted(files, n, committed, known) {
      forall key, p | key in committed && committed[key].commit in known && committed[key].Uses(p)
        ensures p in known
      {
        UsedFile(files, n, committed, key, p);
        if p !in known {
          CommittedFileVerdict(files, n, committed, known, key, p);
          OrphanExact(files, n, known, FileInfo(p, files[p]));
        }
      }
    }
  }

  /** With nothing known the sweep names exactly the files no committed archive uses. */
  lemma EmptyKnowledgeIsExact(files: Files, n: nat, committed: Ledger, f: FileInfo)
    requires Holding(files, n, committed)
    ensures f in OrphansOf(Listing(files, n), {}) <==>
      f.pos in files && files[f.pos] == f.file && f.file.kind != VolumeLabel && !InCommitted(committed, f.pos)
  {
    OrphanExact(files, n, {}, f);
    assert Without(files, {}) == files;
    if InCommitted(committed, f.pos) {
      var key :| key in committed && committed[key].Uses(f.pos);
      CommittedFileVerdict(files, n, committed, {}, key, f.pos);
    }
    if Referenced(SeenMaps(files, {}, n), f.pos) {
      var k :| k in SeenMaps(files, {}, n).commits && f.pos in PosFiles(Placed(SeenMaps(files, {}, n), k).Pos());
      ScanFindsWhole(files, n, committed, k);
      PosFilesOfWritten(committed[k], f.pos);
    }
  }

  /** Removing files outside every committed archive leaves the medium holding the same ones. */
  lemma RemovalKeepsHolding(files: Files, n: nat, committed: Ledger, gone: set<int>)
    requires Holding(files, n, committed)
    requires forall p :: p in gone ==> !InCommitted(committed, p)
    ensures Holding(files - gone, n, committed)
  {
    forall key | key in committed ensures Whole(files - gone, key, committed[key]) {
      var w := committed[key];
      assert w.Uses(w.commit);
      forall i | 0 <= i < |w.parts| ensures PartOn(files - gone, w.parts[i], key, i) {
        assert w.Uses(w.parts[i]) && PartOn(files, w.parts[i], key, i);
      }
      assert w.index.Some? ==> w.Uses(w.index.value) && IndexOn(files, w.index.value, key);
      forall p, i | 0 <= i < |w.parts| && PartOn(files - gone, p, key, i) ensures p <= w.parts[i] {
        assert PartOn(files, p, key, i);
      }
      forall p | IndexOn(files - gone, p, key) ensures w.index.Some? && p <= w.index.value {
        assert IndexOn(files, p, key);
      }
    }
    forall p, key | FooterOn(files - gone, p, key) ensures key in committed && p == committed[key].commit {
      assert FooterOn(files, p, key);
    }
  }

  /** Sweeping any part of the list, in any order and stopping anywhere, changes nothing a
      scan assembles. */
  lemma SweepKeepsAssembled(files: Files, n: nat, committed: Ledger, known: set<int>, swept: set<int>, key: ArchiveKey)
    requires Holding(files, n, committed) && FooterClosed(committed, known)
    requires forall p :: p in swept ==> exists f :: f in OrphansOf(Listing(files, n), known) && f.pos == p
    ensures Holding(files - swept, n, committed)
    ensures var before, after := ScanFiles(Listing(files, n), "", 0), ScanFiles(Listing(files - swept, n), "", 0);
      && (key in before.commits <==> key in after.commits)
      && (key in before.commits ==> Placed(after, key) == Placed(before, key) && Content(after, key) == Content(before, key))
  {
    SweepSafeIff(files, n, committed, known);
    RemovalKeepsHolding(files, n, committed, swept);
    ScanFindsWhole(files, n, committed, key);
    ScanFindsWhole(files - swept, n, committed, key);
  }
}
