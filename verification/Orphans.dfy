/** Finding the files no committed archive references. */
module Orphans {
  import opened Records
  import opened Scan

  /** The files of one archive in the order a reclaim removes them: the footer first. */
  function PosFiles(pos: ArchivePos): (r: seq<int>)
  {
    [pos.commit.pos]
    + (if pos.index != NO_FILE then [pos.index.pos] else [])
    + seq(|pos.parts|, i requires 0 <= i < |pos.parts| => pos.parts[i].pos)
  }

  method ArchivePosFiles(a: ArchivePos) returns (pos: seq<int>)
    ensures pos == PosFiles(a)
  {
    pos := [a.commit.pos];
    if a.index != NO_FILE {
      pos := pos + [a.index.pos];
    }
    var head := pos;
    for i := 0 to |a.parts|
      invariant pos == head + PosFiles(a)[|head|..|head| + i]
    {
      pos := pos + [a.parts[i].pos];
    }
  }

  /** The files outside the known positions. */
  function Surprises(files: seq<FileInfo>, known: set<int>): seq<FileInfo>
  {
    if files == [] then []
    else
      var n := |files| - 1;
      Surprises(files[..n], known) + if files[n].pos in known then [] else [files[n]]
  }

  /** The positions some archive assembled from the maps uses. */
  ghost predicate Referenced(acc: Maps, pos: int)
  {
    exists key :: key in acc.commits && pos in PosFiles(Placed(acc, key).Pos())
  }

  ghost predicate IsOrphan(acc: Maps, f: FileInfo)
  {
    f.file.kind != VolumeLabel && !Referenced(acc, f.pos)
  }

  /** Keeps, in order, the files satisfying IsOrphan. */
  ghost function OrphansIn(acc: Maps, files: seq<FileInfo>): seq<FileInfo>
  {
    if files == [] then []
    else
      var n := |files| - 1;
      OrphansIn(acc, files[..n]) + if IsOrphan(acc, files[n]) then [files[n]] else []
  }

  /** What the sweep may delete, given the positions the catalog already accounts for. */
  ghost function OrphansOf(files: seq<FileInfo>, known: set<int>): seq<FileInfo>
  {
    var seen := Surprises(files, known);
    OrphansIn(ScanFiles(seen, "", 0), seen)
  }

  method SurpriseFiles(files: seq<FileInfo>, known: set<int>) returns (out: seq<FileInfo>)
    ensures out == Surprises(files, known)
  {
    out := [];
    for i := 0 to |files|
      invariant out == Surprises(files[..i], known)
    {
      assert files[..i + 1][..i] == files[..i];
      if files[i].pos !in known {
        out := out + [files[i]];
      }
    }
    assert files[..|files|] == files;
  }

  method OrphanFiles(files: seq<FileInfo>, known: set<int>) returns (orphans: seq<FileInfo>)
    ensures orphans == OrphansOf(files, known)
  {
    var seen := SurpriseFiles(files, known);
    var scanned := ScanVolume(seen, None);
    var acc := scanned.maps;
    var assembled, _ := Assemble("", acc);
    var referenced := ReferencedPositions(acc, assembled);
    orphans := [];
    for i := 0 to |seen|
      invariant orphans == OrphansIn(acc, seen[..i])
    {
      assert seen[..i + 1][..i] == seen[..i];
      var f := seen[i];
      if !(f.file.kind == VolumeLabel || f.pos in referenced) {
        orphans := orphans + [f];
      }
    }
    assert seen[..|seen|] == seen;
  }

  /** The positions used by the first n placements of a run's copy. */
  ghost predicate UsedBy(archives: seq<PlacedArchive>, n: nat, p: int)
    requires n <= |archives|
  {
    exists b :: 0 <= b < n && p in PosFiles(archives[b].Pos())
  }

  ghost predicate UsedByRuns(assembled: seq<RunPlacement>, n: nat, p: int)
    requires n <= |assembled|
  {
    exists a :: 0 <= a < n && UsedBy(assembled[a].p.archives, |assembled[a].p.archives|, p)
  }

  method CopyPositions(archives: seq<PlacedArchive>) returns (used: set<int>)
    ensures forall p :: p in used <==> UsedBy(archives, |archives|, p)
  {
    used := {};
    for j := 0 to |archives|
      invariant forall p :: p in used <==> UsedBy(archives, j, p)
    {
      var pos := ArchivePosFiles(archives[j].Pos());
      used := used + set k | 0 <= k < |pos| :: pos[k];
    }
  }

  method ReferencedPositions(acc: Maps, assembled: seq<RunPlacement>) returns (referenced: set<int>)
    requires exists keys :: Enumerates(keys, acc.commits.Keys) && assembled == GroupAll("", acc, keys).Output()
    ensures forall p :: p in referenced <==> Referenced(acc, p)
  {
    referenced := {};
    for i := 0 to |assembled|
      invariant forall p :: p in referenced <==> UsedByRuns(assembled, i, p)
    {
      var used := CopyPositions(assembled[i].p.archives);
      referenced := referenced + used;
    }
    forall p ensures p in referenced <==> Referenced(acc, p) {
      UsedMeansReferenced(acc, assembled, p);
    }
  }

  lemma UsedIsReferenced(acc: Maps, assembled: seq<RunPlacement>, keys: seq<ArchiveKey>, p: int)
    requires Enumerates(keys, acc.commits.Keys) && assembled == GroupAll("", acc, keys).Output()
    ensures UsedByRuns(assembled, |assembled|, p) ==> Referenced(acc, p)
  {
    if UsedByRuns(assembled, |assembled|, p) {
      var a :| 0 <= a < |assembled| && UsedBy(assembled[a].p.archives, |assembled[a].p.archives|, p);
      var b :| 0 <= b < |assembled[a].p.archives| && p in PosFiles(assembled[a].p.archives[b].Pos());
      var pa := assembled[a].p.archives[b];
      AssembleListsCommitted("", acc, keys, assembled[a].run.id, pa);
      assert Lists(assembled, assembled[a].run.id, pa);
    }
  }

  lemma ReferencedIsUsed(acc: Maps, assembled: seq<RunPlacement>, keys: seq<ArchiveKey>, p: int)
    requires Enumerates(keys, acc.commits.Keys) && assembled == GroupAll("", acc, keys).Output()
    ensures Referenced(acc, p) ==> UsedByRuns(assembled, |assembled|, p)
  {
    if Referenced(acc, p) {
      var key :| key in acc.commits && p in PosFiles(Placed(acc, key).Pos());
      var pa := Placed(acc, key);
      AssembleListsCommitted("", acc, keys, key.run, pa);
      var a :| 0 <= a < |assembled| && assembled[a].run.id == key.run && pa in assembled[a].p.archives;
      var b :| 0 <= b < |assembled[a].p.archives| && assembled[a].p.archives[b] == pa;
      assert UsedBy(assembled[a].p.archives, |assembled[a].p.archives|, p);
    }
  }

  lemma UsedMeansReferenced(acc: Maps, assembled: seq<RunPlacement>, p: int)
    requires exists keys :: Enumerates(keys, acc.commits.Keys) && assembled == GroupAll("", acc, keys).Output()
    ensures UsedByRuns(assembled, |assembled|, p) <==> Referenced(acc, p)
  {
    var keys :| Enumerates(keys, acc.commits.Keys) && assembled == GroupAll("", acc, keys).Output();
    UsedIsReferenced(acc, assembled, keys, p);
    ReferencedIsUsed(acc, assembled, keys, p);
  }
}
