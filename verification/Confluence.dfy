/** Feeding a pool's tapes to additive rebuilds one at a time, in any order and with repeats,
    against one full pass over all of them. */
module Confluence {
  import opened Records
  import opened Entries
  import opened Scan
  import opened CatalogState
  import opened CatalogShape
  import opened CatalogView
  import opened RemovalView
  import opened FillHistory
  import opened FillLedger

  datatype Tape = Tape(lbl: Label, files: seq<FileInfo>)

  function TapeMaps(t: Tape): Maps { ScanFiles(t.files, t.lbl.name, t.lbl.epoch) }

  /** The medium accumulator after the tapes are walked in order. */
  function MergeAll(tapes: seq<Tape>): Maps
  {
    if tapes == [] then NO_MAPS
    else
      var n := |tapes| - 1;
      Merge(MergeAll(tapes[..n]), TapeMaps(tapes[n]))
  }

  function Labels(tapes: seq<Tape>): seq<Label>
  {
    seq(|tapes|, i requires 0 <= i < |tapes| => tapes[i].lbl)
  }

  lemma {:induction false} EnumerationExists(s: set<ArchiveKey>)
    ensures exists keys :: Enumerates(keys, s)
    decreases |s|
  {
    if s == {} {
      assert Enumerates([], s);
    } else {
      var m := Least(s);
      EnumerationExists(s - {m});
      var rest :| Enumerates(rest, s - {m});
      var keys := [m] + rest;
      forall i | 0 < i < |keys| ensures KeyLess(m, keys[i]) { assert keys[i] == rest[i - 1] && rest[i - 1] in rest; }
      assert Enumerates(keys, s);
    }
  }

  lemma {:induction false} Least(s: set<ArchiveKey>) returns (m: ArchiveKey)
    requires s != {}
    ensures m in s && forall k :: k in s && k != m ==> KeyLess(m, k)
    decreases |s|
  {
    m :| m in s;
    if s != {m} {
      var r := Least(s - {m});
      KeyLessTotal(m, r);
      if KeyLess(m, r) {
        forall k | k in s && k != m ensures KeyLess(m, k) { if k != r { KeyLessTransitive(m, r, k); } }
      } else {
        m := r;
      }
    }
  }

  /** One pass over the given tapes of a medium. */
  ghost function ScanIndex(medium: string, tapes: seq<Tape>): MediumIndex
  {
    var acc := MergeAll(tapes);
    EnumerationExists(acc.commits.Keys);
    var keys :| Enumerates(keys, acc.commits.Keys);
    MediumIndex(GroupAll(medium, acc, keys).Output(), Labels(tapes), StrayLabels(acc, acc.parts.Keys))
  }

  method WalkReadable(medium: string, tapes: seq<Tape>) returns (maps: Maps, labels: seq<Label>)
    ensures maps == MergeAll(Ours(medium, tapes)) && labels == Labels(Ours(medium, tapes))
  {
    var acc := new Accumulator();
    labels := [];
    for i := 0 to |tapes|
      invariant acc.maps == MergeAll(Ours(medium, tapes[..i]))
      invariant labels == Labels(Ours(medium, tapes[..i]))
      invariant fresh(acc)
    {
      assert tapes[..i + 1][..i] == tapes[..i];
      ghost var mine := Ours(medium, tapes[..i]);
      var res := ScanVolume(tapes[i].files, Some(tapes[i].lbl));
      if !(tapes[i].lbl.pool != "" && tapes[i].lbl.pool != medium) {
        assert (mine + [tapes[i]])[..|mine|] == mine;
        assert Labels(mine + [tapes[i]]) == Labels(mine) + [tapes[i].lbl];
        assert Ours(medium, tapes[..i + 1]) == mine + [tapes[i]];
        acc.Add(res);
        labels := labels + [tapes[i].lbl];
      } else {
        assert Ours(medium, tapes[..i + 1]) == mine;
      }
    }
    assert tapes[..|tapes|] == tapes;
    maps := acc.maps;
  }

  /** Reads every readable volume of a medium; cartridges of another pool are not its to
      absorb: neither their labels nor their archives are found. */
  method ScanMedium(medium: string, tapes: seq<Tape>) returns (idx: MediumIndex)
    ensures idx == ScanIndex(medium, Ours(medium, tapes))
    ensures exists at :: Walked(at, medium, tapes) && LabelsAt(idx.labels, tapes, at)
    ensures forall key ::
      Finds(idx.placements, key) <==>
      exists i :: 0 <= i < |tapes| && (tapes[i].lbl.pool == "" || tapes[i].lbl.pool == medium) && HoldsFooter(tapes[i], key)
  {
    hide ReportsFooterless;
    hide Finds;
    hide HoldsFooter;
    hide Walked;
    hide LabelsAt;
    hide ScanIndex;
    hide StrayLabels;
    var maps, labels := WalkReadable(medium, tapes);
    var out, strays := Assemble(medium, maps);
    ghost var ours := Ours(medium, tapes);
    ghost var keys :| Enumerates(keys, maps.commits.Keys) && out == GroupAll(medium, maps, keys).Output();
    IndexOfPass(medium, ours, keys);
    idx := MediumIndex(out, labels, strays);
    OursLabels(medium, tapes);
    forall key ensures Finds(idx.placements, key) <==> FooterAmong(medium, tapes, key) { FoundByFooter(medium, tapes, key); }
  }

  lemma IndexOfPass(medium: string, tapes: seq<Tape>, keys: seq<ArchiveKey>)
    requires Enumerates(keys, MergeAll(tapes).commits.Keys)
    ensures ScanIndex(medium, tapes) ==
      MediumIndex(GroupAll(medium, MergeAll(tapes), keys).Output(), Labels(tapes), StrayLabels(MergeAll(tapes), MergeAll(tapes).parts.Keys))
  {
    var acc := MergeAll(tapes);
    EnumerationExists(acc.commits.Keys);
    var a :| Enumerates(a, acc.commits.Keys) && ScanIndex(medium, tapes).placements == GroupAll(medium, acc, a).Output();
    EnumerationUnique(a, keys, acc.commits.Keys);
  }

  lemma OursLabels(medium: string, tapes: seq<Tape>)
    ensures exists at :: Walked(at, medium, tapes) && LabelsAt(Labels(Ours(medium, tapes)), tapes, at)
  {
    var at := OursWalked(medium, tapes);
    assert LabelsAt(Labels(Ours(medium, tapes)), tapes, at);
  }

  function Ours(medium: string, tapes: seq<Tape>): seq<Tape>
  {
    if tapes == [] then []
    else
      var n := |tapes| - 1;
      Ours(medium, tapes[..n]) + if tapes[n].lbl.pool != "" && tapes[n].lbl.pool != medium then [] else [tapes[n]]
  }

  /** A readable footer of the archive is among the tape's files. */
  ghost predicate HoldsFooter(t: Tape, key: ArchiveKey)
  {
    exists f :: f in t.files && f.file.kind == CommitFooter && f.file.key == key && f.file.footer.Some?
  }

  /** The scan found an archive of this key. */
  ghost predicate Finds(placements: seq<RunPlacement>, key: ArchiveKey)
  {
    exists pa :: Lists(placements, key.run, pa) && pa.dle == key.dle && pa.level == key.level
  }

  /** The indices, ascending, of the tapes that name no pool or the medium's own. */
  ghost predicate Walked(at: seq<int>, medium: string, tapes: seq<Tape>)
  {
    && (forall k, l :: 0 <= k < l < |at| ==> at[k] < at[l])
    && (forall i :: i in at <==> 0 <= i < |tapes| && (tapes[i].lbl.pool == "" || tapes[i].lbl.pool == medium))
  }

  ghost predicate LabelsAt(labels: seq<Label>, tapes: seq<Tape>, at: seq<int>)
  {
    |labels| == |at| && forall k :: 0 <= k < |at| ==> 0 <= at[k] < |tapes| && labels[k] == tapes[at[k]].lbl
  }

  ghost predicate FooterAmong(medium: string, tapes: seq<Tape>, key: ArchiveKey)
  {
    exists i :: 0 <= i < |tapes| && (tapes[i].lbl.pool == "" || tapes[i].lbl.pool == medium) && HoldsFooter(tapes[i], key)
  }

  lemma {:induction false} OursWalked(medium: string, tapes: seq<Tape>) returns (at: seq<int>)
    ensures Walked(at, medium, tapes) && |Ours(medium, tapes)| == |at|
    ensures forall k :: 0 <= k < |at| ==> 0 <= at[k] < |tapes| && Ours(medium, tapes)[k] == tapes[at[k]]
  {
    at := [];
    if tapes != [] {
      var n := |tapes| - 1;
      var before := OursWalked(medium, tapes[..n]);
      forall i ensures i in before <==> 0 <= i < n && (tapes[i].lbl.pool == "" || tapes[i].lbl.pool == medium) {
        assert 0 <= i < n ==> tapes[..n][i] == tapes[i];
      }
      at := if tapes[n].lbl.pool == "" || tapes[n].lbl.pool == medium then before + [n] else before;
    }
  }

  lemma {:induction false} CommitsByFooter(files: seq<FileInfo>, volume: string, epoch: int, key: ArchiveKey)
    ensures key in ScanFiles(files, volume, epoch).commits <==>
      exists f :: f in files && f.file.kind == CommitFooter && f.file.key == key && f.file.footer.Some?
  {
    if files != [] {
      var n := |files| - 1;
      CommitsByFooter(files[..n], volume, epoch, key);
      assert files == files[..n] + [files[n]];
      assert files[n] in files;
    }
  }

  lemma {:induction false} MergedKeys(tapes: seq<Tape>, key: ArchiveKey)
    ensures key in MergeAll(tapes).commits <==> exists t :: t in tapes && HoldsFooter(t, key)
  {
    if tapes != [] {
      var n := |tapes| - 1;
      MergedKeys(tapes[..n], key);
      CommitsByFooter(tapes[n].files, tapes[n].lbl.name, tapes[n].lbl.epoch, key);
      assert tapes == tapes[..n] + [tapes[n]];
      assert tapes[n] in tapes;
    }
  }

  /** What one pass finds: the archives with a footer on a tape that was walked. */
  lemma FoundByFooter(medium: string, tapes: seq<Tape>, key: ArchiveKey)
    ensures Finds(ScanIndex(medium, Ours(medium, tapes)).placements, key) <==> FooterAmong(medium, tapes, key)
  {
    var ours := Ours(medium, tapes);
    var acc := MergeAll(ours);
    EnumerationExists(acc.commits.Keys);
    var keys :| Enumerates(keys, acc.commits.Keys) && ScanIndex(medium, ours).placements == GroupAll(medium, acc, keys).Output();
    var out := ScanIndex(medium, ours).placements;
    assert Finds(out, key) <==> key in acc.commits by {
      forall pa ensures Lists(out, key.run, pa) <==>
          ArchiveKey(key.run, pa.dle, pa.level) in acc.commits && pa == Placed(acc, ArchiveKey(key.run, pa.dle, pa.level)) {
        AssembleListsCommitted(medium, acc, keys, key.run, pa);
      }
      if key in acc.commits { assert Lists(out, key.run, Placed(acc, key)); }
    }
    MergedKeys(ours, key);
    var at := OursWalked(medium, tapes);
    if t :| t in ours && HoldsFooter(t, key) {
      var k :| 0 <= k < |ours| && ours[k] == t;
      assert at[k] in at && tapes[at[k]] == t;
    }
    if i :| 0 <= i < |tapes| && (tapes[i].lbl.pool == "" || tapes[i].lbl.pool == medium) && HoldsFooter(tapes[i], key) {
      assert i in at;
      var k :| 0 <= k < |at| && at[k] == i;
      assert ours[k] == tapes[i];
    }
  }

  function SetOf(tapes: seq<Tape>): set<Tape> { set t | t in tapes }

  // ---------------------------------------------------------------- what a sound pool is

  function FooterOf(t: Tape, key: ArchiveKey): Archive
    requires key in TapeMaps(t).commits
  {
    TapeMaps(t).commits[key].arch
  }

  /** Where the archive lies by its own reel alone: parts and index where that reel shows them,
      and where the footer says for those on other reels. */
  function PosOf(t: Tape, key: ArchiveKey): ArchivePos
    requires key in TapeMaps(t).commits
  {
    Placed(TapeMaps(t), key).Pos()
  }

  function RecordFor(t: Tape, key: ArchiveKey): PlacedArchive
    requires key in TapeMaps(t).commits
  {
    Place(FooterOf(t, key), PosOf(t, key))
  }

  predicate OnTape(t: Tape, key: ArchiveKey) { key in TapeMaps(t).commits }

  /** A footer is whole and speaks of its own key; a reel holds no footer older than its
      label. */
  ghost predicate FooterSound(t: Tape, key: ArchiveKey)
    requires OnTape(t, key)
  {
    var a := FooterOf(t, key);
    a.Key() == key && a.parts == |a.partMap| && a.parts >= 1 && !Stale(RecordFor(t, key), t.lbl)
  }

  /** Where reel u shows a part or the index of the archive committed on t, it shows it where
      t by itself places it. */
  ghost predicate SightsAgree(t: Tape, u: Tape, key: ArchiveKey)
    requires OnTape(t, key)
  {
    && (forall i :: 0 <= i < |FooterOf(t, key).partMap| && PartKey(key, i) in TapeMaps(u).parts ==>
          Some(TapeMaps(u).parts[PartKey(key, i)]) == PartLoc(TapeMaps(t), key, i))
    && (key in TapeMaps(u).indexes ==> TapeMaps(u).indexes[key] == PlacedIndex(TapeMaps(t), key))
  }

  /** What a pool is taken to be: one reel per label, and one reel holding an archive's footer,
      which speaks of that archive. Reels may hold leftovers of any archive. */
  ghost predicate SoundPool(pool: set<Tape>)
  {
    && (forall t, u :: t in pool && u in pool && t.lbl.name == u.lbl.name ==> t == u)
    && (forall t, key :: t in pool && OnTape(t, key) ==> FooterSound(t, key))
    && (forall t, u, key :: t in pool && u in pool && OnTape(t, key) && OnTape(u, key) ==> t == u)
  }

  /** No reel holds a leftover part or index of an archive that was committed elsewhere. */
  ghost predicate ForeignSightsAgree(pool: set<Tape>)
  {
    forall t, u, key :: t in pool && u in pool && OnTape(t, key) ==> SightsAgree(t, u, key)
  }

  ghost predicate AgreeingPool(pool: set<Tape>) { SoundPool(pool) && ForeignSightsAgree(pool) }

  /** No footer of the pool names a reel of the pool at an epoch it no longer carries. */
  ghost predicate CurrentRefs(pool: set<Tape>)
  {
    forall t, u, key :: t in pool && u in pool && OnTape(t, key) ==> !Stale(RecordFor(t, key), u.lbl)
  }

  ghost predicate From(tapes: seq<Tape>, pool: set<Tape>) { forall t :: t in tapes ==> t in pool }

  // ---------------------------------------------------------------- merging tapes of a sound pool

  lemma {:induction false} MergedCommits(tapes: seq<Tape>, pool: set<Tape>, key: ArchiveKey)
    requires SoundPool(pool) && From(tapes, pool)
    ensures key in MergeAll(tapes).commits <==> exists t :: t in tapes && OnTape(t, key)
    ensures forall t :: t in tapes && OnTape(t, key) ==> MergeAll(tapes).commits[key] == TapeMaps(t).commits[key]
  {
    if tapes != [] {
      var n := |tapes| - 1;
      assert tapes == tapes[..n] + [tapes[n]];
      MergedCommits(tapes[..n], pool, key);
      if OnTape(tapes[n], key) { assert tapes[n] in tapes; }
    }
  }

  lemma {:induction false} MergedParts(tapes: seq<Tape>, pk: PartKey)
    ensures pk in MergeAll(tapes).parts ==> exists u :: u in tapes && pk in TapeMaps(u).parts && MergeAll(tapes).parts[pk] == TapeMaps(u).parts[pk]
  {
    if tapes != [] {
      var n := |tapes| - 1;
      assert tapes == tapes[..n] + [tapes[n]];
      MergedParts(tapes[..n], pk);
      if pk in TapeMaps(tapes[n]).parts { assert tapes[n] in tapes; }
    }
  }

  lemma {:induction false} MergedIndexes(tapes: seq<Tape>, key: ArchiveKey)
    ensures key in MergeAll(tapes).indexes ==> exists u :: u in tapes && key in TapeMaps(u).indexes && MergeAll(tapes).indexes[key] == TapeMaps(u).indexes[key]
  {
    if tapes != [] {
      var n := |tapes| - 1;
      assert tapes == tapes[..n] + [tapes[n]];
      MergedIndexes(tapes[..n], key);
      if key in TapeMaps(tapes[n]).indexes { assert tapes[n] in tapes; }
    }
  }

  lemma {:induction false} MergedHas(tapes: seq<Tape>, t: Tape)
    requires t in tapes
    ensures TapeMaps(t).parts.Keys <= MergeAll(tapes).parts.Keys && TapeMaps(t).indexes.Keys <= MergeAll(tapes).indexes.Keys
  {
    var n := |tapes| - 1;
    assert tapes == tapes[..n] + [tapes[n]];
    if t != tapes[n] { MergedHas(tapes[..n], t); }
  }

  lemma PartLocByReel(tapes: seq<Tape>, pool: set<Tape>, t: Tape, key: ArchiveKey, i: nat)
    requires SoundPool(pool) && From(tapes, pool) && t in tapes && OnTape(t, key)
    requires forall u :: u in tapes ==> SightsAgree(t, u, key)
    requires i < |FooterOf(t, key).partMap|
    ensures key in MergeAll(tapes).commits && PartLoc(MergeAll(tapes), key, i) == PartLoc(TapeMaps(t), key, i)
  {
    MergedCommits(tapes, pool, key);
    MergedHas(tapes, t);
    MergedParts(tapes, PartKey(key, i));
    var acc := MergeAll(tapes);
    if PartKey(key, i) in acc.parts {
      var u :| u in tapes && PartKey(key, i) in TapeMaps(u).parts && acc.parts[PartKey(key, i)] == TapeMaps(u).parts[PartKey(key, i)];
      assert SightsAgree(t, u, key);
    }
  }

  lemma {:induction false} SameLocsSameParts(a: Maps, b: Maps, key: ArchiveKey, m: nat)
    requires key in a.commits && key in b.commits
    requires forall i :: 0 <= i < m ==> PartLoc(a, key, i) == PartLoc(b, key, i)
    ensures PlacedParts(a, key, m) == PlacedParts(b, key, m)
  {
    if m > 0 { SameLocsSameParts(a, b, key, m - 1); }
  }

  lemma IndexByReel(tapes: seq<Tape>, pool: set<Tape>, t: Tape, key: ArchiveKey)
    requires SoundPool(pool) && From(tapes, pool) && t in tapes && OnTape(t, key)
    requires forall u :: u in tapes ==> SightsAgree(t, u, key)
    ensures key in MergeAll(tapes).commits && PlacedIndex(MergeAll(tapes), key) == PlacedIndex(TapeMaps(t), key)
  {
    MergedCommits(tapes, pool, key);
    MergedHas(tapes, t);
    MergedIndexes(tapes, key);
    var acc := MergeAll(tapes);
    if key in acc.indexes {
      var u :| u in tapes && key in TapeMaps(u).indexes && acc.indexes[key] == TapeMaps(u).indexes[key];
      assert SightsAgree(t, u, key);
    }
  }

  /** Walked with reels that agree with it, an archive is placed as its own reel and footer
      say. */
  lemma PlacedByFooter(tapes: seq<Tape>, pool: set<Tape>, t: Tape, key: ArchiveKey)
    requires SoundPool(pool) && From(tapes, pool) && t in tapes && OnTape(t, key)
    requires forall u :: u in tapes ==> SightsAgree(t, u, key)
    ensures key in MergeAll(tapes).commits
    ensures Content(MergeAll(tapes), key) == FooterOf(t, key)
    ensures Placed(MergeAll(tapes), key).Pos() == PosOf(t, key)
  {
    var acc, a := MergeAll(tapes), FooterOf(t, key);
    MergedCommits(tapes, pool, key);
    assert FooterSound(t, key);
    forall i | 0 <= i < |a.partMap| ensures PartLoc(acc, key, i) == PartLoc(TapeMaps(t), key, i) { PartLocByReel(tapes, pool, t, key, i); }
    SameLocsSameParts(acc, TapeMaps(t), key, |a.partMap|);
    IndexByReel(tapes, pool, t, key);
  }

  lemma {:induction false} PlacedPartsAt(acc: Maps, key: ArchiveKey, n: nat, i: nat)
    requires key in acc.commits && i < n <= |acc.commits[key].arch.partMap|
    ensures |PlacedParts(acc, key, n)| == n && Some(PlacedParts(acc, key, n)[i]) == PartLoc(acc, key, i)
  {
    if n > 1 { PlacedPartsAt(acc, key, n - 1, if i < n - 1 then i else 0); }
  }

  /** The reel walked last has the last word: a leftover on it displaces what the archive's own
      reel and footer say. */
  lemma LeftoverWins(tapes: seq<Tape>, pool: set<Tape>, t: Tape, u: Tape, key: ArchiveKey)
    requires SoundPool(pool) && From(tapes + [u], pool) && t in tapes && OnTape(t, key) && !SightsAgree(t, u, key)
    ensures key in MergeAll(tapes + [u]).commits && Placed(MergeAll(tapes + [u]), key).Pos() != PosOf(t, key)
  {
    var acc, own, a := MergeAll(tapes + [u]), TapeMaps(t), FooterOf(t, key);
    assert (tapes + [u])[..|tapes|] == tapes;
    MergedCommits(tapes + [u], pool, key);
    assert t in tapes + [u] && FooterSound(t, key);
    if key !in TapeMaps(u).indexes || TapeMaps(u).indexes[key] == PlacedIndex(own, key) {
      var i :| 0 <= i < |a.partMap| && PartKey(key, i) in TapeMaps(u).parts && Some(TapeMaps(u).parts[PartKey(key, i)]) != PartLoc(own, key, i);
      PlacedPartsAt(acc, key, |a.partMap|, i);
      PlacedPartsAt(own, key, |a.partMap|, i);
      assert Placed(acc, key).parts[i] != Placed(own, key).parts[i];
    }
  }

  /** However these reels are walked together, the archive is placed as t by itself places it. */
  ghost predicate AlwaysByFooter(fed: set<Tape>, t: Tape, key: ArchiveKey)
    requires OnTape(t, key)
  {
    forall tapes :: SetOf(tapes) == fed ==>
      key in MergeAll(tapes).commits && Placed(MergeAll(tapes), key).Pos() == PosOf(t, key)
  }

  /** An archive is placed as its own reel and its footer's part map say, in whatever order the
      reels are walked, exactly when none of them holds a leftover of it elsewhere. */
  lemma PlacedByFooterIff(fed: set<Tape>, pool: set<Tape>, t: Tape, key: ArchiveKey)
    requires SoundPool(pool) && fed <= pool && t in fed && OnTape(t, key)
    ensures AlwaysByFooter(fed, t, key) <==> forall u :: u in fed ==> SightsAgree(t, u, key)
  {
    hide SightsAgree;
    hide SoundPool;
    hide Placed;
    hide MergeAll;
    hide PosOf;
    if forall u :: u in fed ==> SightsAgree(t, u, key) {
      forall tapes | SetOf(tapes) == fed
        ensures key in MergeAll(tapes).commits && Placed(MergeAll(tapes), key).Pos() == PosOf(t, key)
      {
        forall u | u in tapes ensures u in fed { assert u in SetOf(tapes); }
        assert t in SetOf(tapes);
        PlacedByFooter(tapes, pool, t, key);
      }
    } else {
      var u :| u in fed && !SightsAgree(t, u, key);
      var tapes := SomeOrder(fed);
      CoversAgain(tapes, fed, u);
      assert t in SetOf(tapes);
      forall v | v in tapes + [u] ensures v in fed { assert v in SetOf(tapes + [u]); }
      LeftoverWins(tapes, pool, t, u, key);
    }
  }

  // ---------------------------------------------------------------- what absorbing a pass records

  lemma {:induction false} ContentListFinds(acc: Maps, keys: seq<ArchiveKey>, run: string, dle: string, level: int)
    requires forall k :: k in keys ==> k in acc.commits && k.run == run && Content(acc, k).dle == k.dle && Content(acc, k).level == k.level
    ensures var list := ContentList(acc, keys); var i := ArchiveAt(list, dle, level);
      && (i < |list| <==> ArchiveKey(run, dle, level) in keys)
      && (i < |list| ==> list[i] == Content(acc, ArchiveKey(run, dle, level)))
  {
    if keys != [] {
      var n := |keys| - 1;
      assert keys == keys[..n] + [keys[n]];
      ContentListFinds(acc, keys[..n], run, dle, level);
      ContentAfterPut(ContentList(acc, keys[..n]), Content(acc, keys[n]), dle, level);
    }
  }

  lemma {:induction false} ContentListShape(acc: Maps, keys: seq<ArchiveKey>, run: string)
    requires forall k :: k in keys ==> k in acc.commits && k.run == run
    ensures ContentShape(Run(run, ContentList(acc, keys)))
  {
    if keys != [] {
      var n := |keys| - 1;
      assert keys == keys[..n] + [keys[n]];
      ContentListShape(acc, keys[..n], run);
      PutArchiveShape(Run(run, ContentList(acc, keys[..n])), Content(acc, keys[n]));
    }
  }

  lemma PlacedListFinds(acc: Maps, keys: seq<ArchiveKey>, run: string, dle: string, level: int)
    requires forall k :: k in keys ==> k in acc.commits && k.run == run
    ensures var list := PlacedList(acc, keys); var i := PlacedAt(list, dle, level);
      && (i < |list| <==> ArchiveKey(run, dle, level) in keys)
      && (i < |list| ==> list[i] == Placed(acc, ArchiveKey(run, dle, level)))
  {
    var list := PlacedList(acc, keys);
    var i := PlacedAt(list, dle, level);
    if i < |list| { assert keys[i] in keys && keys[i] == ArchiveKey(run, dle, level); }
    if ArchiveKey(run, dle, level) in keys {
      var j :| 0 <= j < |keys| && keys[j] == ArchiveKey(run, dle, level);
      assert list[j].dle == dle && list[j].level == level;
    }
  }

  ghost predicate KeysSpeakTrue(acc: Maps)
  {
    forall k :: k in acc.commits ==> Content(acc, k).dle == k.dle && Content(acc, k).level == k.level
  }

  lemma GroupScanShaped(g: Grouped, medium: string, acc: Maps, keys: seq<ArchiveKey>)
    requires g.Valid() && GroupedBy(g, medium, acc, keys)
    ensures ScanShaped(g.Output(), medium)
    ensures forall i :: 0 <= i < |g.Output()| ==> g.Output()[i].run.id == g.order[i]
  {
    var out := g.Output();
    forall i | 0 <= i < |out| ensures out[i].run.id == g.order[i] && ContentShape(out[i].run) && out[i].p.medium == medium {
      var r := g.order[i];
      assert RunGrouped(g, medium, acc, keys, r);
      KeysOfMembers(keys, r);
      ContentListShape(acc, KeysOf(keys, r), r);
    }
  }

  lemma {:induction false} FoundAt(out: seq<RunPlacement>, i: nat, dle: string, level: int)
    requires i < |out| && forall a, b :: 0 <= a < b < |out| ==> out[a].run.id != out[b].run.id
    ensures FoundIn(out, out[i].run.id, dle, level) == Found(out[i], dle, level)
  {
    if i > 0 {
      assert forall a :: 0 <= a < |out[1..]| ==> out[1..][a] == out[a + 1];
      FoundAt(out[1..], i - 1, dle, level);
    }
  }

  lemma GroupFinds(g: Grouped, medium: string, acc: Maps, keys: seq<ArchiveKey>, run: string, dle: string, level: int)
    requires g.Valid() && GroupedBy(g, medium, acc, keys) && KeysSpeakTrue(acc) && Enumerates(keys, acc.commits.Keys)
    ensures FoundIn(g.Output(), run, dle, level) ==
      var key := ArchiveKey(run, dle, level);
      if key in acc.commits then Some(Call(Content(acc, key), Placed(acc, key).Pos())) else None
  {
    var out := g.Output();
    var key := ArchiveKey(run, dle, level);
    GroupScanShaped(g, medium, acc, keys);
    assert RunGrouped(g, medium, acc, keys, run);
    KeysOfMembers(keys, run);
    var ks := KeysOf(keys, run);
    assert key in acc.commits <==> key in ks;
    if run in g.runs {
      var i :| 0 <= i < |g.order| && g.order[i] == run;
      FoundAt(out, i, dle, level);
      ContentListFinds(acc, ks, run, dle, level);
      PlacedListFinds(acc, ks, run, dle, level);
    } else {
      FoundElsewhere(out, run, dle, level);
    }
  }

  /** Whatever a scan meets, what it assembles is one well-formed group per run. */
  lemma ScanIsShaped(medium: string, tapes: seq<Tape>)
    ensures ScanShaped(ScanIndex(medium, tapes).placements, medium)
  {
    var acc := MergeAll(tapes);
    EnumerationExists(acc.commits.Keys);
    forall keys | Enumerates(keys, acc.commits.Keys) ensures ScanShaped(GroupAll(medium, acc, keys).Output(), medium) {
      GroupAllExact(medium, acc, keys);
      GroupScanShaped(GroupAll(medium, acc, keys), medium, acc, keys);
    }
  }

  /** The calls absorbing a scan makes: one per committed archive, placed as assembled. */
  lemma ScanFinds(medium: string, tapes: seq<Tape>, key: ArchiveKey)
    requires KeysSpeakTrue(MergeAll(tapes))
    ensures var acc := MergeAll(tapes);
      FoundIn(ScanIndex(medium, tapes).placements, key.run, key.dle, key.level) ==
        if key in acc.commits then Some(Call(Content(acc, key), Placed(acc, key).Pos())) else None
  {
    var acc := MergeAll(tapes);
    EnumerationExists(acc.commits.Keys);
    forall keys | Enumerates(keys, acc.commits.Keys)
      ensures FoundIn(GroupAll(medium, acc, keys).Output(), key.run, key.dle, key.level) ==
        if key in acc.commits then Some(Call(Content(acc, key), Placed(acc, key).Pos())) else None
    {
      GroupAllExact(medium, acc, keys);
      GroupFinds(GroupAll(medium, acc, keys), medium, acc, keys, key.run, key.dle, key.level);
    }
  }

  lemma PoolSpeaksTrue(tapes: seq<Tape>, pool: set<Tape>)
    requires SoundPool(pool) && From(tapes, pool)
    ensures KeysSpeakTrue(MergeAll(tapes))
  {
    var acc := MergeAll(tapes);
    forall k | k in acc.commits ensures Content(acc, k).dle == k.dle && Content(acc, k).level == k.level {
      MergedCommits(tapes, pool, k);
      var t :| t in tapes && OnTape(t, k);
      assert FooterSound(t, k);
    }
  }

  /** The calls a pass over tapes of an agreeing pool makes: one per committed archive on them,
      with the footer's own record. */
  lemma PassFinds(medium: string, tapes: seq<Tape>, pool: set<Tape>, run: string, dle: string, level: int)
    requires AgreeingPool(pool) && From(tapes, pool)
    ensures var out := ScanIndex(medium, tapes).placements; var key := ArchiveKey(run, dle, level);
      && ScanShaped(out, medium)
      && (FoundIn(out, run, dle, level).Some? <==> exists t :: t in tapes && OnTape(t, key))
      && (forall t :: t in tapes && OnTape(t, key) ==> FoundIn(out, run, dle, level) == Some(Call(FooterOf(t, key), PosOf(t, key))))
  {
    var key := ArchiveKey(run, dle, level);
    PoolSpeaksTrue(tapes, pool);
    ScanIsShaped(medium, tapes);
    ScanFinds(medium, tapes, key);
    MergedCommits(tapes, pool, key);
    forall t | t in tapes && OnTape(t, key)
      ensures FoundIn(ScanIndex(medium, tapes).placements, run, dle, level) == Some(Call(FooterOf(t, key), PosOf(t, key)))
    {
      forall u | u in tapes ensures SightsAgree(t, u, key) {}
      PlacedByFooter(tapes, pool, t, key);
    }
  }

  // ---------------------------------------------------------------- a catalog fed some tapes

  ghost predicate OnSome(tapes: set<Tape>, key: ArchiveKey) { exists t :: t in tapes && OnTape(t, key) }

  /** The copies read as the footers of the fed tapes say, and as nothing else. */
  ghost predicate CopiesFed(c: Cat, medium: string, fed: set<Tape>)
  {
    && (forall t, key :: t in fed && OnTape(t, key) ==> PlacedIn(c, key.run, medium, key.dle, key.level) == Some(RecordFor(t, key)))
    && (forall run, m, dle, level :: PlacedIn(c, run, m, dle, level).Some? ==> m == medium && OnSome(fed, ArchiveKey(run, dle, level)))
  }

  ghost predicate ContentFed(c: Cat, fed: set<Tape>)
  {
    && (forall t, key :: t in fed && OnTape(t, key) ==> ContentIn(c, key.run, key.dle, key.level) == Some(Stripped(FooterOf(t, key))))
    && (forall run, dle, level :: ContentIn(c, run, dle, level).Some? ==> OnSome(fed, ArchiveKey(run, dle, level)))
  }

  ghost predicate RegistryFed(c: Cat, fed: set<Tape>)
  {
    && (forall name :: name in c.volumes ==> exists t :: t in fed && t.lbl.name == name)
    && (forall t :: t in fed ==> t.lbl.name in c.volumes && c.volumes[t.lbl.name].lbl == t.lbl && c.volumes[t.lbl.name].barcode == "")
  }

  ghost predicate Fed(price: Pricing, medium: string, c: Cat, fed: set<Tape>)
  {
    WellShaped(c) && AllExact(price, c) && CopiesFed(c, medium, fed) && ContentFed(c, fed) && RegistryFed(c, fed)
  }

  /** What a catalog reads as is settled by which tapes it was fed. */
  lemma FedDetermines(price: Pricing, medium: string, a: Cat, b: Cat, fed: set<Tape>)
    requires Fed(price, medium, a, fed) && Fed(price, medium, b, fed)
    ensures SameUpToOrder(a, b)
  {
    forall run, m, dle, level ensures PlacedIn(a, run, m, dle, level) == PlacedIn(b, run, m, dle, level) {
      var key := ArchiveKey(run, dle, level);
      if m == medium && OnSome(fed, key) {
        var t :| t in fed && OnTape(t, key);
        assert PlacedIn(a, key.run, medium, key.dle, key.level) == Some(RecordFor(t, key));
      }
    }
    forall run, dle, level ensures ContentIn(a, run, dle, level) == ContentIn(b, run, dle, level) {
      var key := ArchiveKey(run, dle, level);
      if OnSome(fed, key) {
        var t :| t in fed && OnTape(t, key);
        assert ContentIn(a, key.run, key.dle, key.level) == Some(Stripped(FooterOf(t, key)));
      }
    }
    forall name ensures name in a.volumes <==> name in b.volumes {}
    forall name | name in a.volumes ensures a.volumes[name] == b.volumes[name] {
      var t :| t in fed && t.lbl.name == name;
      FillDependsOnReading(price, a, b, name);
      assert Exact(price, a, name) && Exact(price, b, name);
    }
  }

  // ---------------------------------------------------------------- nothing stale to drop

  lemma {:induction false} FreshAll(archives: seq<PlacedArchive>, lbl: Label)
    requires forall k :: 0 <= k < |archives| ==> !Stale(archives[k], lbl)
    ensures Fresh(archives, lbl) == archives && StaleOnes(archives, lbl) == []
  {
    if archives != [] { FreshAll(archives[1..], lbl); }
  }

  ghost predicate CopiesFresh(placements: seq<Placement>, lbl: Label)
  {
    forall j, k :: 0 <= j < |placements| && 0 <= k < |placements[j].archives| ==> !Stale(placements[j].archives[k], lbl)
  }

  lemma {:induction false} FreshAllPlacements(price: Pricing, volumes: map<string, VolumeRecord>, run: Run, placements: seq<Placement>, lbl: Label)
    requires CopiesFresh(placements, lbl) && forall j :: 0 <= j < |placements| ==> placements[j].archives != []
    ensures FreshPlacements(placements, lbl) == placements
    ensures GiveBackPlacements(price, volumes, run, placements, lbl) == volumes
    decreases |placements|
  {
    if placements != [] {
      FreshAll(placements[0].archives, lbl);
      assert forall j :: 0 <= j < |placements[1..]| ==> placements[1..][j] == placements[j + 1];
      FreshAllPlacements(price, volumes, run, placements[1..], lbl);
    }
  }

  lemma {:induction false} FreshAllEntries(price: Pricing, volumes: map<string, VolumeRecord>, entries: seq<Entry>, lbl: Label)
    requires forall i :: 0 <= i < |entries| ==> EntryShape(entries[i]) && CopiesFresh(entries[i].placements, lbl)
    ensures FreshEntries(entries, lbl) == entries
    ensures GiveBackEntries(price, volumes, entries, lbl) == volumes
    decreases |entries|
  {
    if entries != [] {
      var e := entries[0];
      assert EntryShape(e);
      forall j | 0 <= j < |e.placements| ensures e.placements[j].archives != [] { assert CopyShape(e.run, e.placements[j]); }
      FreshAllPlacements(price, volumes, e.run, e.placements, lbl);
      assert forall i :: 0 <= i < |entries[1..]| ==> entries[1..][i] == entries[i + 1];
      FreshAllEntries(price, volumes, entries[1..], lbl);
    }
  }

  lemma NothingToDrop(price: Pricing, c: Cat, lbl: Label)
    requires WellShaped(c) && NothingStale(c, lbl)
    ensures DropStaleOn(price, c, lbl) == c
  {
    forall i | 0 <= i < |c.entries| ensures EntryShape(c.entries[i]) && CopiesFresh(c.entries[i].placements, lbl) {
      forall j, k | 0 <= j < |c.entries[i].placements| && 0 <= k < |c.entries[i].placements[j].archives|
        ensures !Stale(c.entries[i].placements[j].archives[k], lbl)
      {
        RecordIsRead(c, i, j, k);
      }
    }
    FreshAllEntries(price, c.volumes, c.entries, lbl);
  }

  lemma {:induction false} NothingToDropAll(price: Pricing, c: Cat, labels: seq<Label>)
    requires WellShaped(c) && forall i :: 0 <= i < |labels| ==> NothingStale(c, labels[i])
    ensures DropStaleAll(price, c, labels) == c
    decreases |labels|
  {
    if labels != [] {
      assert NothingStale(c, labels[0]);
      NothingToDrop(price, c, labels[0]);
      assert forall i :: 0 <= i < |labels[1..]| ==> labels[1..][i] == labels[i + 1];
      NothingToDropAll(price, c, labels[1..]);
    }
  }

  // ---------------------------------------------------------------- registering the labels

  ghost predicate AllExact(price: Pricing, c: Cat) { forall l :: Exact(price, c, l) }

  lemma RegisterKeepsExact(price: Pricing, c: Cat, t: Tape, pool: set<Tape>, fed: set<Tape>)
    requires AgreeingPool(pool) && t in pool && fed <= pool && RegistryFed(c, fed) && AllExact(price, c)
    ensures AllExact(price, UpsertVolume(price, c, t.lbl))
  {
    var lbl := t.lbl;
    if lbl.name in c.volumes {
      var u :| u in fed && u.lbl.name == lbl.name;
      assert u == t;
    }
    forall l ensures Exact(price, UpsertVolume(price, c, lbl), l) {
      assert Exact(price, c, l);
      if l == lbl.name { UpsertExactIff(price, c, lbl); } else { UpsertKeepsOthers(price, c, lbl, l); }
    }
  }

  lemma SetOfCons(tapes: seq<Tape>)
    requires tapes != []
    ensures SetOf(tapes) == {tapes[0]} + SetOf(tapes[1..])
  {
    assert tapes == [tapes[0]] + tapes[1..];
  }

  lemma LabelsTail(tapes: seq<Tape>)
    requires tapes != []
    ensures Labels(tapes)[0] == tapes[0].lbl && Labels(tapes)[1..] == Labels(tapes[1..])
  {
  }

  /** The reels in fed are registered, each fill is exact, and the entries are those of c. */
  ghost predicate Registered(price: Pricing, c: Cat, c': Cat, fed: set<Tape>)
  {
    c'.entries == c.entries && RegistryFed(c', fed) && AllExact(price, c')
  }

  lemma LabelRegisters(price: Pricing, c: Cat, c': Cat, t: Tape, pool: set<Tape>, fed: set<Tape>)
    requires AgreeingPool(pool) && t in pool && fed <= pool && Registered(price, c, c', fed)
    ensures Registered(price, c, UpsertVolume(price, c', t.lbl), fed + {t})
  {
    RegisterKeepsExact(price, c', t, pool, fed);
    RegistryGains(price, c', t, pool, fed);
  }

  lemma {:induction false} LabelsRegister(price: Pricing, c: Cat, c': Cat, tapes: seq<Tape>, pool: set<Tape>, fed: set<Tape>)
    requires AgreeingPool(pool) && From(tapes, pool) && fed <= pool && Registered(price, c, c', fed)
    ensures Registered(price, c, UpsertAll(price, c', Labels(tapes)), fed + SetOf(tapes))
    decreases |tapes|
  {
    if tapes != [] {
      var t, rest := tapes[0], tapes[1..];
      SetOfCons(tapes);
      LabelRegisters(price, c, c', t, pool, fed);
      LabelsRegister(price, c, UpsertVolume(price, c', t.lbl), rest, pool, fed + {t});
      LabelsTail(tapes);
      assert fed + {t} + SetOf(rest) == fed + SetOf(tapes);
    } else {
      assert fed + SetOf(tapes) == fed;
    }
  }

  lemma RegistryGains(price: Pricing, c: Cat, t: Tape, pool: set<Tape>, fed: set<Tape>)
    requires AgreeingPool(pool) && t in pool && fed <= pool && RegistryFed(c, fed)
    ensures RegistryFed(UpsertVolume(price, c, t.lbl), fed + {t})
  {
    var c' := UpsertVolume(price, c, t.lbl);
    if t.lbl.name in c.volumes {
      var u :| u in fed && u.lbl.name == t.lbl.name;
      assert u == t;
    }
    forall u | u in fed + {t} ensures u.lbl.name in c'.volumes && c'.volumes[u.lbl.name].lbl == u.lbl && c'.volumes[u.lbl.name].barcode == "" {
      if u != t { assert u.lbl.name != t.lbl.name; }
    }
    forall name | name in c'.volumes ensures exists u :: u in fed + {t} && u.lbl.name == name {
      if name == t.lbl.name {
        assert t in fed + {t};
      } else {
        var u :| u in fed && u.lbl.name == name;
        assert u in fed + {t};
      }
    }
  }

  // ---------------------------------------------------------------- one pass

  lemma FedNothingStale(price: Pricing, medium: string, c: Cat, pool: set<Tape>, fed: set<Tape>, tapes: seq<Tape>)
    requires CurrentRefs(pool) && From(tapes, pool) && fed <= pool && CopiesFed(c, medium, fed)
    ensures forall i :: 0 <= i < |Labels(tapes)| ==> NothingStale(c, Labels(tapes)[i])
  {
    forall i | 0 <= i < |Labels(tapes)| ensures NothingStale(c, Labels(tapes)[i]) {
      assert tapes[i] in tapes;
      forall run, m, dle, level | PlacedIn(c, run, m, dle, level).Some? ensures !Stale(PlacedIn(c, run, m, dle, level).value, tapes[i].lbl) {
        var key := ArchiveKey(run, dle, level);
        assert OnSome(fed, key);
        var t :| t in fed && OnTape(t, key);
        assert PlacedIn(c, key.run, medium, key.dle, key.level) == Some(RecordFor(t, key));
      }
    }
  }

  lemma PassAgreeable(medium: string, c: Cat, pool: set<Tape>, fed: set<Tape>, tapes: seq<Tape>)
    requires AgreeingPool(pool) && From(tapes, pool) && fed <= pool && ContentFed(c, fed)
    ensures ScanShaped(ScanIndex(medium, tapes).placements, medium) && Agreeable(c, ScanIndex(medium, tapes).placements)
  {
    var out := ScanIndex(medium, tapes).placements;
    PassFinds(medium, tapes, pool, "", "", 0);
    forall run, dle, level | FoundIn(out, run, dle, level).Some? && ContentIn(c, run, dle, level).Some?
      ensures SamePrice(ContentIn(c, run, dle, level).value, FoundIn(out, run, dle, level).value.arch)
    {
      var key := ArchiveKey(run, dle, level);
      PassFinds(medium, tapes, pool, run, dle, level);
      var t :| t in tapes && OnTape(t, key);
      assert OnSome(fed, key);
      var u :| u in fed && OnTape(u, key);
      assert ContentIn(c, key.run, key.dle, key.level) == Some(Stripped(FooterOf(u, key)));
    }
  }

  lemma PassRecords(price: Pricing, medium: string, c: Cat, pool: set<Tape>, fed: set<Tape>, tapes: seq<Tape>, t: Tape, key: ArchiveKey)
    requires AgreeingPool(pool) && From(tapes, pool) && fed <= pool && CopiesFed(c, medium, fed) && ContentFed(c, fed)
    requires t in fed + SetOf(tapes) && OnTape(t, key)
    ensures var c' := AbsorbRuns(price, c, ScanIndex(medium, tapes).placements);
      PlacedIn(c', key.run, medium, key.dle, key.level) == Some(RecordFor(t, key)) &&
      ContentIn(c', key.run, key.dle, key.level) == Some(Stripped(FooterOf(t, key)))
  {
    var out := ScanIndex(medium, tapes).placements;
    PassFinds(medium, tapes, pool, key.run, key.dle, key.level);
    AbsorbRunsView(price, c, out, medium, key.run, medium, key.dle, key.level);
    assert ArchiveKey(key.run, key.dle, key.level) == key;
    forall u | u in pool && OnTape(u, key) ensures u == t {}
    if t !in tapes {
      assert PlacedIn(c, key.run, medium, key.dle, key.level) == Some(RecordFor(t, key));
      assert ContentIn(c, key.run, key.dle, key.level) == Some(Stripped(FooterOf(t, key)));
    }
  }

  lemma PassRecordsNoMore(price: Pricing, medium: string, c: Cat, pool: set<Tape>, fed: set<Tape>, tapes: seq<Tape>, run: string, m: string, dle: string, level: int)
    requires AgreeingPool(pool) && From(tapes, pool) && fed <= pool && CopiesFed(c, medium, fed) && ContentFed(c, fed)
    ensures var c' := AbsorbRuns(price, c, ScanIndex(medium, tapes).placements); var all := fed + SetOf(tapes);
      (PlacedIn(c', run, m, dle, level).Some? ==> m == medium && OnSome(all, ArchiveKey(run, dle, level))) &&
      (ContentIn(c', run, dle, level).Some? ==> OnSome(all, ArchiveKey(run, dle, level)))
  {
    var out, all := ScanIndex(medium, tapes).placements, fed + SetOf(tapes);
    var key := ArchiveKey(run, dle, level);
    PassFinds(medium, tapes, pool, run, dle, level);
    AbsorbRunsView(price, c, out, medium, run, m, dle, level);
    if OnSome(fed, key) { var u :| u in fed && OnTape(u, key); assert u in all; }
    if FoundIn(out, run, dle, level).Some? { var u :| u in tapes && OnTape(u, key); assert u in all; }
  }

  /** What absorbing the pass makes of the copies and the content. */
  lemma PassViews(price: Pricing, medium: string, c: Cat, pool: set<Tape>, fed: set<Tape>, tapes: seq<Tape>)
    requires AgreeingPool(pool) && From(tapes, pool) && fed <= pool && CopiesFed(c, medium, fed) && ContentFed(c, fed)
    ensures var c' := AbsorbRuns(price, c, ScanIndex(medium, tapes).placements);
      CopiesFed(c', medium, fed + SetOf(tapes)) && ContentFed(c', fed + SetOf(tapes))
  {
    forall t, key | t in fed + SetOf(tapes) && OnTape(t, key) { PassRecords(price, medium, c, pool, fed, tapes, t, key); }
    forall run, m, dle, level { PassRecordsNoMore(price, medium, c, pool, fed, tapes, run, m, dle, level); }
  }

  lemma SameEntriesSameViews(a: Cat, b: Cat)
    requires a.entries == b.entries
    ensures forall run, m, dle, level :: PlacedIn(a, run, m, dle, level) == PlacedIn(b, run, m, dle, level)
    ensures forall run, dle, level :: ContentIn(a, run, dle, level) == ContentIn(b, run, dle, level)
  {
  }

  /** A pass over any tapes of the pool adds exactly them to what the catalog was fed. */
  lemma PassFeeds(price: Pricing, medium: string, c: Cat, pool: set<Tape>, fed: set<Tape>, tapes: seq<Tape>)
    requires AgreeingPool(pool) && CurrentRefs(pool) && From(tapes, pool) && fed <= pool
    requires Fed(price, medium, c, fed)
    ensures Fed(price, medium, Rescan(price, c, ScanIndex(medium, tapes)), fed + SetOf(tapes))
  {
    var idx := ScanIndex(medium, tapes);
    FedNothingStale(price, medium, c, pool, fed, tapes);
    NothingToDropAll(price, c, Labels(tapes));
    AbsorbPassFeeds(price, medium, c, pool, fed, tapes);
  }

  lemma AbsorbPassFeeds(price: Pricing, medium: string, c: Cat, pool: set<Tape>, fed: set<Tape>, tapes: seq<Tape>)
    requires AgreeingPool(pool) && From(tapes, pool) && fed <= pool
    requires Fed(price, medium, c, fed)
    ensures Fed(price, medium, Absorb(price, c, ScanIndex(medium, tapes)), fed + SetOf(tapes))
  {
    var idx := ScanIndex(medium, tapes);
    var c1 := UpsertAll(price, c, idx.labels);
    LabelsRegister(price, c, c, tapes, pool, fed);
    SameEntriesSameViews(c, c1);
    assert WellShaped(c1);
    assert CopiesFed(c1, medium, fed) && ContentFed(c1, fed);
    PassAgreeable(medium, c1, pool, fed, tapes);
    AbsorbRunsShape(price, c1, idx.placements);
    forall l ensures Exact(price, AbsorbRuns(price, c1, idx.placements), l) {
      assert Exact(price, c1, l);
      AbsorbRunsExact(price, c1, idx.placements, medium, l);
    }
    PassViews(price, medium, c1, pool, fed, tapes);
    AbsorbKeepsRegistry(price, c1, idx.placements);
  }

  // ---------------------------------------------------------------- every order

  const NOTHING_YET := Cat([], map[])

  lemma EmptyIsFed(price: Pricing, medium: string)
    ensures Fed(price, medium, NOTHING_YET, {})
  {
  }

  /** Additive rebuilds, one loaded tape after another. */
  ghost function FeedAll(price: Pricing, medium: string, c: Cat, order: seq<Tape>): Cat
    decreases |order|
  {
    if order == [] then c
    else FeedAll(price, medium, Rescan(price, c, ScanIndex(medium, [order[0]])), order[1..])
  }

  /** A full rebuild over the tapes at once. */
  ghost function FullPass(price: Pricing, medium: string, tapes: seq<Tape>): Cat
  {
    Rescan(price, NOTHING_YET, ScanIndex(medium, tapes))
  }

  lemma OneFeeds(price: Pricing, medium: string, c: Cat, pool: set<Tape>, fed: set<Tape>, t: Tape)
    requires AgreeingPool(pool) && CurrentRefs(pool) && t in pool && fed <= pool && Fed(price, medium, c, fed)
    ensures Fed(price, medium, Rescan(price, c, ScanIndex(medium, [t])), fed + {t})
  {
    assert SetOf([t]) == {t};
    PassFeeds(price, medium, c, pool, fed, [t]);
  }

  lemma {:induction false} FeedingFeeds(price: Pricing, medium: string, c: Cat, pool: set<Tape>, fed: set<Tape>, order: seq<Tape>, goal: set<Tape>)
    requires AgreeingPool(pool) && CurrentRefs(pool) && From(order, pool) && fed <= pool && goal == fed + SetOf(order)
    requires Fed(price, medium, c, fed)
    ensures Fed(price, medium, FeedAll(price, medium, c, order), goal)
    decreases |order|
  {
    if order != [] {
      var t, rest := order[0], order[1..];
      OneFeeds(price, medium, c, pool, fed, t);
      SetOfCons(order);
      FeedingFeeds(price, medium, Rescan(price, c, ScanIndex(medium, [t])), pool, fed + {t}, rest, goal);
    } else {
      assert goal == fed;
    }
  }

  ghost predicate Covers(order: seq<Tape>, pool: set<Tape>) { SetOf(order) == pool }

  /** However the tapes are fed, the additive rebuilds end where the full pass ends. */
  ghost predicate Confluent(price: Pricing, medium: string, pool: set<Tape>)
  {
    forall order, full :: Covers(order, pool) && Covers(full, pool) ==>
      SameUpToOrder(FeedAll(price, medium, NOTHING_YET, order), FullPass(price, medium, full))
  }

  lemma CurrentIsConfluent(price: Pricing, medium: string, pool: set<Tape>)
    requires AgreeingPool(pool) && CurrentRefs(pool)
    ensures Confluent(price, medium, pool)
  {
    forall order, full | Covers(order, pool) && Covers(full, pool)
      ensures SameUpToOrder(FeedAll(price, medium, NOTHING_YET, order), FullPass(price, medium, full))
    {
      EmptyIsFed(price, medium);
      FeedingFeeds(price, medium, NOTHING_YET, pool, {}, order, pool);
      PassFeeds(price, medium, NOTHING_YET, pool, {}, full);
      assert {} + SetOf(order) == pool && {} + SetOf(full) == pool;
      FedDetermines(price, medium, FeedAll(price, medium, NOTHING_YET, order), FullPass(price, medium, full), pool);
    }
  }

  // ---------------------------------------------------------------- a stale reference breaks it

  lemma {:induction false} DropNothingFromEmpty(price: Pricing, labels: seq<Label>)
    ensures DropStaleAll(price, NOTHING_YET, labels) == NOTHING_YET
    decreases |labels|
  {
    if labels != [] { DropNothingFromEmpty(price, labels[1..]); }
  }

  /** The full pass records every footer of the pool, stale references and all. */
  lemma FullPassRecords(price: Pricing, medium: string, pool: set<Tape>, full: seq<Tape>, t: Tape, key: ArchiveKey)
    requires AgreeingPool(pool) && Covers(full, pool) && t in pool && OnTape(t, key)
    ensures PlacedIn(FullPass(price, medium, full), key.run, medium, key.dle, key.level) == Some(RecordFor(t, key))
  {
    DropNothingFromEmpty(price, Labels(full));
    EmptyIsFed(price, medium);
    AbsorbPassFeeds(price, medium, NOTHING_YET, pool, {}, full);
    assert t in {} + SetOf(full);
  }

  lemma OneLabelDropped(price: Pricing, c: Cat, u: Tape)
    ensures DropStaleAll(price, c, Labels([u])) == DropStaleOn(price, c, u.lbl)
  {
    assert Labels([u]) == [u.lbl] && [u.lbl][1..] == [];
  }

  /** An archive a rescanned reel holds no footer of is recorded as before, unless the record
      was stale against the reel. */
  lemma ElsewhereUnstale(price: Pricing, medium: string, c: Cat, pool: set<Tape>, u: Tape, key: ArchiveKey)
    requires WellShaped(c) && AgreeingPool(pool) && u in pool && !OnTape(u, key)
    ensures PlacedIn(Rescan(price, c, ScanIndex(medium, [u])), key.run, medium, key.dle, key.level) ==
            Unstale(PlacedIn(c, key.run, medium, key.dle, key.level), u.lbl)
  {
    var idx := ScanIndex(medium, [u]);
    OneLabelDropped(price, c, u);
    var d := DropStaleOn(price, c, u.lbl);
    DropStaleView(price, c, u.lbl, key.run, medium, key.dle, key.level);
    UpsertAllEntries(price, d, idx.labels);
    var c1 := UpsertAll(price, d, idx.labels);
    SameEntriesSameViews(d, c1);
    PassFinds(medium, [u], pool, key.run, key.dle, key.level);
    assert ArchiveKey(key.run, key.dle, key.level) == key;
    AbsorbRunsView(price, c1, idx.placements, medium, key.run, medium, key.dle, key.level);
  }

  /** Feeding a tape last leaves no record stale against it, except what its own footers
      bring back. */
  lemma LastTapeClears(price: Pricing, medium: string, c: Cat, pool: set<Tape>, u: Tape, t: Tape, key: ArchiveKey)
    requires WellShaped(c) && AgreeingPool(pool) && u in pool && t in pool && OnTape(t, key) && Stale(RecordFor(t, key), u.lbl)
    ensures PlacedIn(Rescan(price, c, ScanIndex(medium, [u])), key.run, medium, key.dle, key.level) != Some(RecordFor(t, key))
  {
    assert FooterSound(t, key);
    assert t != u;
    ElsewhereUnstale(price, medium, c, pool, u, key);
  }

  lemma {:induction false} FeedAllShape(price: Pricing, medium: string, c: Cat, order: seq<Tape>)
    requires WellShaped(c)
    ensures WellShaped(FeedAll(price, medium, c, order))
    decreases |order|
  {
    if order != [] {
      RescanKeepsShape(price, c, ScanIndex(medium, [order[0]]));
      FeedAllShape(price, medium, Rescan(price, c, ScanIndex(medium, [order[0]])), order[1..]);
    }
  }

  lemma {:induction false} FeedLast(price: Pricing, medium: string, c: Cat, order: seq<Tape>, u: Tape)
    ensures FeedAll(price, medium, c, order + [u]) == Rescan(price, FeedAll(price, medium, c, order), ScanIndex(medium, [u]))
    decreases |order|
  {
    if order == [] {
      assert order + [u] == [u] && [u][1..] == [];
    } else {
      assert (order + [u])[0] == order[0] && (order + [u])[1..] == order[1..] + [u];
      FeedLast(price, medium, Rescan(price, c, ScanIndex(medium, [order[0]])), order[1..], u);
    }
  }

  lemma {:induction false} SomeOrder(pool: set<Tape>) returns (order: seq<Tape>)
    ensures Covers(order, pool)
    decreases |pool|
  {
    if pool == {} {
      order := [];
    } else {
      var t :| t in pool;
      var rest := SomeOrder(pool - {t});
      order := rest + [t];
      assert SetOf(order) == SetOf(rest) + {t};
    }
  }

  lemma StaleSeparates(price: Pricing, medium: string, pool: set<Tape>, full: seq<Tape>, t: Tape, u: Tape, key: ArchiveKey)
    requires AgreeingPool(pool) && Covers(full, pool) && t in pool && u in pool && OnTape(t, key) && Stale(RecordFor(t, key), u.lbl)
    ensures PlacedIn(FeedAll(price, medium, NOTHING_YET, full + [u]), key.run, medium, key.dle, key.level) !=
            PlacedIn(FullPass(price, medium, full), key.run, medium, key.dle, key.level)
  {
    var before := FeedAll(price, medium, NOTHING_YET, full);
    FullPassRecords(price, medium, pool, full, t, key);
    FeedLast(price, medium, NOTHING_YET, full, u);
    FeedAllShape(price, medium, NOTHING_YET, full);
    LastTapeClears(price, medium, before, pool, u, t, key);
  }

  lemma StaleDiverges(price: Pricing, medium: string, pool: set<Tape>, t: Tape, u: Tape, key: ArchiveKey)
    requires AgreeingPool(pool) && t in pool && u in pool && OnTape(t, key) && Stale(RecordFor(t, key), u.lbl)
    ensures !Confluent(price, medium, pool)
  {
    var full := SomeOrder(pool);
    StaleSeparates(price, medium, pool, full, t, u, key);
    CoversAgain(full, pool, u);
    DifferAt(price, medium, pool, full + [u], full, key);
  }

  lemma CoversAgain(order: seq<Tape>, pool: set<Tape>, u: Tape)
    requires Covers(order, pool) && u in pool
    ensures Covers(order + [u], pool)
  {
    assert SetOf(order + [u]) == SetOf(order) + {u};
  }

  lemma DifferAt(price: Pricing, medium: string, pool: set<Tape>, order: seq<Tape>, full: seq<Tape>, key: ArchiveKey)
    requires Covers(order, pool) && Covers(full, pool)
    requires PlacedIn(FeedAll(price, medium, NOTHING_YET, order), key.run, medium, key.dle, key.level) !=
             PlacedIn(FullPass(price, medium, full), key.run, medium, key.dle, key.level)
    ensures !Confluent(price, medium, pool)
  {
  }

  // ---------------------------------------------------------------- a leftover elsewhere breaks it

  /** The last tape fed settles how its own archives are recorded. */
  lemma FedLastIsByFooter(price: Pricing, medium: string, c: Cat, pool: set<Tape>, t: Tape, key: ArchiveKey)
    requires SoundPool(pool) && t in pool && OnTape(t, key)
    ensures PlacedIn(Rescan(price, c, ScanIndex(medium, [t])), key.run, medium, key.dle, key.level) == Some(RecordFor(t, key))
  {
    var idx := ScanIndex(medium, [t]);
    PassFinds(medium, [t], {t}, key.run, key.dle, key.level);
    assert t in [t];
    var c1 := UpsertAll(price, DropStaleAll(price, c, idx.labels), idx.labels);
    AbsorbRunsView(price, c1, idx.placements, medium, key.run, medium, key.dle, key.level);
  }

  /** A full pass that ends in the reel with the leftover records the leftover. */
  lemma FullPassByLeftover(price: Pricing, medium: string, pool: set<Tape>, tapes: seq<Tape>, t: Tape, u: Tape, key: ArchiveKey)
    requires SoundPool(pool) && From(tapes + [u], pool) && t in tapes && OnTape(t, key) && !SightsAgree(t, u, key)
    ensures PlacedIn(FullPass(price, medium, tapes + [u]), key.run, medium, key.dle, key.level) != Some(RecordFor(t, key))
  {
    var idx := ScanIndex(medium, tapes + [u]);
    PoolSpeaksTrue(tapes + [u], pool);
    ScanIsShaped(medium, tapes + [u]);
    ScanFinds(medium, tapes + [u], key);
    LeftoverWins(tapes, pool, t, u, key);
    var c1 := UpsertAll(price, DropStaleAll(price, NOTHING_YET, idx.labels), idx.labels);
    AbsorbRunsView(price, c1, idx.placements, medium, key.run, medium, key.dle, key.level);
    var pos := Placed(MergeAll(tapes + [u]), key).Pos();
    assert Place(Content(MergeAll(tapes + [u]), key), pos).Pos() == pos && RecordFor(t, key).Pos() == PosOf(t, key);
  }

  lemma LeftoverDiverges(price: Pricing, medium: string, pool: set<Tape>, t: Tape, u: Tape, key: ArchiveKey)
    requires SoundPool(pool) && t in pool && u in pool && OnTape(t, key) && !SightsAgree(t, u, key)
    ensures !Confluent(price, medium, pool)
  {
    var tapes := SomeOrder(pool);
    CoversAgain(tapes, pool, t);
    CoversAgain(tapes, pool, u);
    assert t in SetOf(tapes);
    forall v | v in tapes + [u] ensures v in pool { assert v in SetOf(tapes + [u]); }
    FeedLast(price, medium, NOTHING_YET, tapes, t);
    FedLastIsByFooter(price, medium, FeedAll(price, medium, NOTHING_YET, tapes), pool, t, key);
    FullPassByLeftover(price, medium, pool, tapes, t, u, key);
    DifferAt(price, medium, pool, tapes + [t], tapes + [u], key);
  }

  /** Over a sound pool, feeding the tapes one at a time agrees with the full pass for every
      order and every repetition exactly when no footer names another reel of the pool at an
      epoch that reel no longer carries, and no reel holds a leftover part or index of an
      archive whose footer places it elsewhere. */
  lemma ConfluentIff(price: Pricing, medium: string, pool: set<Tape>)
    requires SoundPool(pool)
    ensures Confluent(price, medium, pool) <==> CurrentRefs(pool) && ForeignSightsAgree(pool)
  {
    if !ForeignSightsAgree(pool) {
      var t, u, key :| t in pool && u in pool && OnTape(t, key) && !SightsAgree(t, u, key);
      LeftoverDiverges(price, medium, pool, t, u, key);
    } else if CurrentRefs(pool) {
      CurrentIsConfluent(price, medium, pool);
    } else {
      var t, u, key :| t in pool && u in pool && OnTape(t, key) && Stale(RecordFor(t, key), u.lbl);
      StaleDiverges(price, medium, pool, t, u, key);
    }
  }

  /** Every pass over any of the pool's tapes adds exactly those tapes to what the catalog was
      fed, whatever it was fed before. */
  ghost predicate EveryPassFeeds(price: Pricing, medium: string, pool: set<Tape>)
  {
    forall c, fed, tapes :: fed <= pool && From(tapes, pool) && Fed(price, medium, c, fed) ==>
      Fed(price, medium, Rescan(price, c, ScanIndex(medium, tapes)), fed + SetOf(tapes))
  }

  lemma OnePassFeeds(price: Pricing, medium: string, c: Cat, pool: set<Tape>, fed: set<Tape>, t: Tape)
    requires EveryPassFeeds(price, medium, pool) && t in pool && fed <= pool && Fed(price, medium, c, fed)
    ensures Fed(price, medium, Rescan(price, c, ScanIndex(medium, [t])), fed + {t})
  {
    assert SetOf([t]) == {t} && From([t], pool);
  }

  lemma {:induction false} FeedingByPasses(price: Pricing, medium: string, c: Cat, pool: set<Tape>, fed: set<Tape>, order: seq<Tape>, goal: set<Tape>)
    requires EveryPassFeeds(price, medium, pool) && From(order, pool) && fed <= pool && goal == fed + SetOf(order)
    requires Fed(price, medium, c, fed)
    ensures Fed(price, medium, FeedAll(price, medium, c, order), goal)
    decreases |order|
  {
    if order != [] {
      var t, rest := order[0], order[1..];
      OnePassFeeds(price, medium, c, pool, fed, t);
      SetOfCons(order);
      FeedingByPasses(price, medium, Rescan(price, c, ScanIndex(medium, [t])), pool, fed + {t}, rest, goal);
    } else {
      assert goal == fed;
    }
  }

  lemma PassesConfluent(price: Pricing, medium: string, pool: set<Tape>)
    requires EveryPassFeeds(price, medium, pool)
    ensures Confluent(price, medium, pool)
  {
    forall order, full | Covers(order, pool) && Covers(full, pool)
      ensures SameUpToOrder(FeedAll(price, medium, NOTHING_YET, order), FullPass(price, medium, full))
    {
      EmptyIsFed(price, medium);
      forall t | t in order ensures t in pool { assert t in SetOf(order); }
      forall t | t in full ensures t in pool { assert t in SetOf(full); }
      FeedingByPasses(price, medium, NOTHING_YET, pool, {}, order, pool);
      assert {} + SetOf(order) == pool && {} + SetOf(full) == pool;
      FedDetermines(price, medium, FeedAll(price, medium, NOTHING_YET, order), FullPass(price, medium, full), pool);
    }
  }

  /** What a pass leaves depends only on which tapes were fed exactly under the condition that
      makes rebuilding confluent. */
  lemma PassFeedsIff(price: Pricing, medium: string, pool: set<Tape>)
    requires SoundPool(pool)
    ensures EveryPassFeeds(price, medium, pool) <==> CurrentRefs(pool) && ForeignSightsAgree(pool)
  {
    if CurrentRefs(pool) && ForeignSightsAgree(pool) {
      forall c, fed, tapes | fed <= pool && From(tapes, pool) && Fed(price, medium, c, fed)
        ensures Fed(price, medium, Rescan(price, c, ScanIndex(medium, tapes)), fed + SetOf(tapes))
      {
        PassFeeds(price, medium, c, pool, fed, tapes);
      }
    }
    if EveryPassFeeds(price, medium, pool) {
      PassesConfluent(price, medium, pool);
      ConfluentIff(price, medium, pool);
    }
  }

  // ---------------------------------------------------------------- a failed attempt on another reel

  function LostKey(): ArchiveKey { ArchiveKey("run-1", "a", 0) }

  function RetriedFooter(): Archive
  {
    NO_ARCHIVE.(run := "run-1", dle := "a", level := 0, parts := 1, partMap := [FilePos("B", 1, 0)])
  }

  /** A failed attempt left part 0 on reel A; the retry committed wholly on reel B. */
  function FailedAttempt(): Tape { Tape(Label("A", "", 1), [FileInfo(0, File(ArchivePart, LostKey(), 0, None))]) }

  function Retry(): Tape
  {
    Tape(Label("B", "", 1), [FileInfo(0, File(ArchivePart, LostKey(), 0, None)),
                             FileInfo(1, File(CommitFooter, LostKey(), 0, Some(RetriedFooter())))])
  }

  lemma FailedAttemptMaps()
    ensures TapeMaps(FailedAttempt()) == Maps(map[PartKey(LostKey(), 0) := FilePos("A", 1, 0)], map[], map[])
  {
    assert FailedAttempt().files[..0] == [];
    assert ScanFiles([], "A", 1) == NO_MAPS;
  }

  lemma RetryMaps()
    ensures TapeMaps(Retry()) == Maps(map[PartKey(LostKey(), 0) := FilePos("B", 1, 0)],
                                      map[LostKey() := ScannedCommit(RetriedFooter(), FilePos("B", 1, 1))], map[])
  {
    var files := Retry().files;
    assert files[..1][..0] == [];
    assert ScanFiles([], "B", 1) == NO_MAPS;
    assert ScanFiles(files[..1], "B", 1).parts == map[PartKey(LostKey(), 0) := FilePos("B", 1, 0)];
  }

  lemma TwoReelPool(a: Tape, b: Tape, key: ArchiveKey)
    requires a.lbl.name != b.lbl.name && TapeMaps(a).commits == map[] && TapeMaps(b).commits.Keys == {key}
    requires FooterSound(b, key) && !Stale(RecordFor(b, key), a.lbl)
    ensures SoundPool({a, b}) && CurrentRefs({a, b})
  {
    var pool := {a, b};
    forall t, k | t in pool && OnTape(t, k) ensures t == b && k == key {}
    forall t, u | t in pool && u in pool && t.lbl.name == u.lbl.name ensures t == u {}
  }

  lemma RetryIsSound()
    ensures OnTape(Retry(), LostKey()) && FooterSound(Retry(), LostKey())
    ensures !Stale(RecordFor(Retry(), LostKey()), FailedAttempt().lbl)
  {
    RetryMaps();
  }

  lemma LeftoverSighted()
    ensures OnTape(Retry(), LostKey()) && !SightsAgree(Retry(), FailedAttempt(), LostKey())
  {
    RetryMaps();
    FailedAttemptMaps();
    assert PartKey(LostKey(), 0) in TapeMaps(FailedAttempt()).parts;
    assert PartLoc(TapeMaps(Retry()), LostKey(), 0) == Some(FilePos("B", 1, 0));
  }

  /** A sound pool without a stale reference whose full passes and feeds disagree: the leftover
      of a failed attempt on one reel of an archive whose retry lies wholly on another. */
  lemma LeftoverPoolDiverges(price: Pricing, medium: string)
    ensures var pool := {FailedAttempt(), Retry()};
      SoundPool(pool) && CurrentRefs(pool) && !Confluent(price, medium, pool)
  {
    var a, b, key := FailedAttempt(), Retry(), LostKey();
    FailedAttemptMaps();
    RetryMaps();
    RetryIsSound();
    LeftoverSighted();
    TwoReelPool(a, b, key);
    LeftoverDiverges(price, medium, {a, b}, b, a, key);
  }
}
