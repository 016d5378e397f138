/** The catalog's importer: reading volumes into location maps, and assembling committed
    archives out of those maps. */
module Scan {
  import opened Records
  import opened Entries
  import opened Order

  datatype Kind = ArchivePart | CommitFooter | MemberIndex | VolumeLabel

  /** One file: what its header says, and for a footer the record in its payload
      (None when the payload cannot be read or parsed). */
  datatype File = File(kind: Kind, key: ArchiveKey, part: int, footer: Option<Archive>)

  datatype FileInfo = FileInfo(pos: int, file: File)

  datatype PartKey = PartKey(key: ArchiveKey, part: int)

  datatype ScannedCommit = ScannedCommit(arch: Archive, loc: FilePos)

  datatype Maps = Maps(
    parts: map<PartKey, FilePos>,
    commits: map<ArchiveKey, ScannedCommit>,
    indexes: map<ArchiveKey, FilePos>)

  const NO_MAPS := Maps(map[], map[], map[])

  datatype ScanResult = ScanResult(maps: Maps, lbl: Option<Label>)

  // ---------------------------------------------------------------- one volume

  function NoteFile(m: Maps, f: FileInfo, volume: string, epoch: int): Maps
  {
    var loc := FilePos(volume, epoch, f.pos);
    match f.file.kind
    case ArchivePart => m.(parts := m.parts[PartKey(f.file.key, f.file.part) := loc])
    case CommitFooter =>
      (match f.file.footer
       case None => m
       case Some(a) => m.(commits := m.commits[f.file.key := ScannedCommit(a, loc)]))
    case MemberIndex => m.(indexes := m.indexes[f.file.key := loc])
    case VolumeLabel => m
  }

  /** What a listing leaves in the maps: later files win over earlier ones. */
  function ScanFiles(files: seq<FileInfo>, volume: string, epoch: int): Maps
  {
    if files == [] then NO_MAPS
    else
      var n := |files| - 1;
      NoteFile(ScanFiles(files[..n], volume, epoch), files[n], volume, epoch)
  }

  function LabelName(lbl: Option<Label>): string { if lbl.Some? then lbl.value.name else "" }
  function LabelEpoch(lbl: Option<Label>): int { if lbl.Some? then lbl.value.epoch else 0 }

  method ScanVolume(files: seq<FileInfo>, lbl: Option<Label>) returns (res: ScanResult)
    ensures res == ScanResult(ScanFiles(files, LabelName(lbl), LabelEpoch(lbl)), lbl)
  {
    var volume, epoch := "", 0;
    if lbl.Some? {
      volume, epoch := lbl.value.name, lbl.value.epoch;
    }
    var m := NO_MAPS;
    for i := 0 to |files|
      invariant m == ScanFiles(files[..i], volume, epoch)
    {
      var f := files[i];
      var loc := FilePos(volume, epoch, f.pos);
      assert files[..i + 1][..i] == files[..i];
      match f.file.kind
      case ArchivePart => m := m.(parts := m.parts[PartKey(f.file.key, f.file.part) := loc]);
      case CommitFooter =>
        if f.file.footer.Some? {
          m := m.(commits := m.commits[f.file.key := ScannedCommit(f.file.footer.value, loc)]);
        }
      case MemberIndex => m := m.(indexes := m.indexes[f.file.key := loc]);
      case VolumeLabel =>
    }
    assert files[..|files|] == files;
    res := ScanResult(m, lbl);
  }

  // ---------------------------------------------------------------- accumulating a medium

  function Merge(a: Maps, b: Maps): Maps
  {
    Maps(a.parts + b.parts, a.commits + b.commits, a.indexes + b.indexes)
  }

  /** All of `more` but the keys still to do is in. */
  ghost predicate Laid<K, V>(base: map<K, V>, more: map<K, V>, todo: set<K>, r: map<K, V>) { r == base + (more - todo) }

  lemma LaidNone<K, V>(base: map<K, V>, more: map<K, V>)
    ensures Laid(base, more, more.Keys, base)
  {
    assert more - more.Keys == map[];
  }

  lemma LaidAll<K, V>(base: map<K, V>, more: map<K, V>, todo: set<K>, r: map<K, V>)
    requires todo == {} && Laid(base, more, todo, r)
    ensures r == base + more
  {
    assert more - todo == more;
  }

  lemma LaidOne<K, V>(base: map<K, V>, more: map<K, V>, todo: set<K>, r: map<K, V>, k: K)
    requires k in todo && todo <= more.Keys && Laid(base, more, todo, r)
    ensures Laid(base, more, todo - {k}, r[k := more[k]])
  {
    var a, b := r[k := more[k]], base + (more - (todo - {k}));
    forall x ensures x in a <==> x in b { assert x in more - todo <==> x in more && x !in todo; }
    forall x | x in a ensures a[x] == b[x] { assert x in more - (todo - {k}) <==> x in more && (x == k || x !in todo); }
  }

  /** Sets every binding of `more` in `base`, one key at a time and in no particular order. */
  method Overlay<K(==), V>(base: map<K, V>, more: map<K, V>) returns (r: map<K, V>)
    ensures r == base + more
  {
    hide Laid;
    LaidNone(base, more);
    r := base;
    var todo := more.Keys;
    while todo != {}
      invariant todo <= more.Keys && Laid(base, more, todo, r)
      decreases |todo|
    {
      var k :| k in todo;
      LaidOne(base, more, todo, r, k);
      r, todo := r[k := more[k]], todo - {k};
    }
    LaidAll(base, more, todo, r);
  }

  /** The whole-medium accumulator. */
  class Accumulator {
    var maps: Maps

    constructor ()
      ensures maps == NO_MAPS
    {
      maps := NO_MAPS;
    }

    /** Folds one volume in; what the volume shows replaces what was there. */
    method Add(res: ScanResult)
      modifies this
      ensures maps == Merge(old(maps), res.maps)
    {
      var parts := Overlay(maps.parts, res.maps.parts);
      var commits := Overlay(maps.commits, res.maps.commits);
      var indexes := Overlay(maps.indexes, res.maps.indexes);
      maps := Maps(parts, commits, indexes);
    }
  }

  // ---------------------------------------------------------------- assembling

  /** A footer that records no part count stands for a single whole part. */
  function PartCount(a: Archive): nat { if a.parts < 1 then 1 else a.parts }

  /** Where part `part` of a committed archive is taken to lie: where the scan saw it, else
      where the footer's part map says, else nowhere. */
  function PartLoc(acc: Maps, key: ArchiveKey, part: nat): Option<FilePos>
    requires key in acc.commits
  {
    var map_ := acc.commits[key].arch.partMap;
    if PartKey(key, part) in acc.parts then Some(acc.parts[PartKey(key, part)])
    else if part < |map_| then Some(map_[part])
    else None
  }

  function PlacedParts(acc: Maps, key: ArchiveKey, n: nat): seq<FilePos>
    requires key in acc.commits
  {
    if n == 0 then []
    else
      PlacedParts(acc, key, n - 1) +
      (match PartLoc(acc, key, n - 1) case Some(loc) => [loc] case None => [])
  }

  function PlacedIndex(acc: Maps, key: ArchiveKey): FilePos
    requires key in acc.commits
  {
    if key in acc.indexes then acc.indexes[key] else acc.commits[key].arch.indexPos
  }

  function Placed(acc: Maps, key: ArchiveKey): PlacedArchive
    requires key in acc.commits
  {
    var sc := acc.commits[key];
    PlacedArchive(key.dle, key.level, PlacedParts(acc, key, PartCount(sc.arch)), [], sc.loc, PlacedIndex(acc, key))
  }

  /** The header's run tag is authoritative for grouping. */
  function Content(acc: Maps, key: ArchiveKey): Archive
    requires key in acc.commits
  {
    acc.commits[key].arch.(run := key.run)
  }

  /** A part the assembly of some committed archive uses up. */
  predicate Consumed(acc: Maps, pk: PartKey)
  {
    pk.key in acc.commits && 0 <= pk.part < PartCount(acc.commits[pk.key].arch)
  }

  datatype RunPlacement = RunPlacement(run: Run, p: Placement)

  predicate KeyLess(a: ArchiveKey, b: ArchiveKey)
  {
    if a.run != b.run then StrLess(a.run, b.run)
    else if a.dle != b.dle then StrLess(a.dle, b.dle)
    else a.level < b.level
  }

  lemma KeyLessTransitive(a: ArchiveKey, b: ArchiveKey, c: ArchiveKey)
    requires KeyLess(a, b) && KeyLess(b, c)
    ensures KeyLess(a, c)
  {
    if a.run != b.run && b.run != c.run {
      StrLessTransitive(a.run, b.run, c.run);
      StrLessIrreflexive(a.run);
      if a.run == c.run { StrLessTransitive(b.run, a.run, b.run); StrLessIrreflexive(b.run); }
    } else if a.run == b.run == c.run && a.dle != b.dle && b.dle != c.dle {
      StrLessTransitive(a.dle, b.dle, c.dle);
      StrLessIrreflexive(a.dle);
    }
  }

  lemma KeyLessTotal(a: ArchiveKey, b: ArchiveKey)
    ensures a == b || KeyLess(a, b) || KeyLess(b, a)
    ensures !KeyLess(a, a)
  {
    StrLessTotal(a.run, b.run);
    StrLessTotal(a.dle, b.dle);
  }

  lemma KeyLessOrders()
    ensures StrictWeakOrder(KeyLess)
  {
    forall a, b, c | KeyLess(a, b) && KeyLess(b, c) ensures KeyLess(a, c) { KeyLessTransitive(a, b, c); }
    forall a ensures !KeyLess(a, a) { KeyLessTotal(a, a); }
    forall a, b, c | !KeyLess(a, b) && !KeyLess(b, c) ensures !KeyLess(a, c) {
      KeyLessTotal(a, b);
      KeyLessTotal(b, c);
      if KeyLess(a, c) {
        if a != b { KeyLessTransitive(b, a, c); }
      }
    }
  }

  ghost predicate InOrder(keys: seq<ArchiveKey>)
  {
    forall i, j :: 0 <= i < j < |keys| ==> KeyLess(keys[i], keys[j])
  }

  /** keys lists s in ascending order, each key once. */
  ghost predicate Enumerates(keys: seq<ArchiveKey>, s: set<ArchiveKey>)
  {
    InOrder(keys) && forall k :: k in keys <==> k in s
  }

  lemma KeyLessAsymmetric(a: ArchiveKey, b: ArchiveKey)
    ensures !(KeyLess(a, b) && KeyLess(b, a))
  {
    KeyLessTotal(a, a);
    if KeyLess(a, b) && KeyLess(b, a) { KeyLessTransitive(a, b, a); }
  }

  lemma EnumeratesNone(keys: seq<ArchiveKey>, s: set<ArchiveKey>)
    requires Enumerates(keys, s)
    ensures keys == [] <==> s == {}
  {
    if keys != [] { assert keys[0] in s; }
    if s != {} { var k :| k in s; assert k in keys; }
  }

  lemma EnumeratesTail(keys: seq<ArchiveKey>, s: set<ArchiveKey>)
    requires Enumerates(keys, s) && keys != []
    ensures Enumerates(keys[1..], s - {keys[0]})
  {
    KeyLessTotal(keys[0], keys[0]);
    forall k ensures k in keys[1..] <==> k in s - {keys[0]} {
      assert k in keys[1..] ==> k in keys && KeyLess(keys[0], k);
      assert k in keys && k != keys[0] ==> k in keys[1..];
    }
  }

  /** There is only one such list, so what a scan assembles does not depend on map order. */
  lemma {:induction false} EnumerationUnique(a: seq<ArchiveKey>, b: seq<ArchiveKey>, s: set<ArchiveKey>)
    requires Enumerates(a, s) && Enumerates(b, s)
    ensures a == b
    decreases |a|
  {
    EnumeratesNone(a, s);
    EnumeratesNone(b, s);
    if a != [] {
      assert a[0] in b && b[0] in a;
      KeyLessAsymmetric(a[0], b[0]);
      assert a[0] == b[0];
      EnumeratesTail(a, s);
      EnumeratesTail(b, s);
      EnumerationUnique(a[1..], b[1..], s - {a[0]});
    }
  }

  /** Run placements in first-seen order of their run. */
  datatype Grouped = Grouped(order: seq<string>, runs: map<string, RunPlacement>)
  {
    predicate Valid() { forall i :: 0 <= i < |order| ==> order[i] in runs }

    function Output(): seq<RunPlacement>
      requires Valid()
    {
      seq(|order|, i requires 0 <= i < |order| => runs[order[i]])
    }
  }

  function Group(g: Grouped, medium: string, acc: Maps, key: ArchiveKey): Grouped
    requires key in acc.commits
  {
    var seen := key.run in g.runs;
    var sa := if seen then g.runs[key.run] else RunPlacement(Run(key.run, []), Placement(medium, []));
    Grouped(
      if seen then g.order else g.order + [key.run],
      g.runs[key.run := RunPlacement(
        Run(sa.run.id, PutArchive(sa.run.archives, Content(acc, key))),
        Placement(sa.p.medium, sa.p.archives + [Placed(acc, key)]))])
  }

  function GroupAll(medium: string, acc: Maps, keys: seq<ArchiveKey>): (g: Grouped)
    requires forall k :: k in keys ==> k in acc.commits
    ensures g.Valid()
  {
    if keys == [] then Grouped([], map[])
    else
      var n := |keys| - 1;
      assert forall k :: k in keys[..n] ==> k in keys;
      Group(GroupAll(medium, acc, keys[..n]), medium, acc, keys[n])
  }

  /** A sighted part no committed archive uses, on a labeled volume. */
  predicate Stray(acc: Maps, pk: PartKey)
    requires pk in acc.parts
  {
    !Consumed(acc, pk) && acc.parts[pk].volume != ""
  }

  /** The labels holding footerless parts, by run. */
  function StrayLabels(acc: Maps, seen: set<PartKey>): map<string, set<string>>
    requires seen <= acc.parts.Keys
  {
    var runs := set pk | pk in seen && Stray(acc, pk) :: pk.key.run;
    map run | run in runs ::
      set pk | pk in seen && Stray(acc, pk) && pk.key.run == run :: acc.parts[pk].volume
  }

  /** No footer covers the part: its archive has none, or one that counts fewer parts (and a
      footer without a count covers part 0 alone). */
  predicate Footerless(acc: Maps, pk: PartKey)
  {
    pk.key !in acc.commits || pk.part < 0 || (pk.part > 0 && pk.part >= acc.commits[pk.key].arch.parts)
  }

  /** The runs reported are those with a footerless part on a labeled volume, each with exactly
      the labels of the volumes that hold one. */
  ghost predicate ReportsFooterless(acc: Maps, strays: map<string, set<string>>)
  {
    && (forall run, volume :: (run in strays && volume in strays[run]) <==> FooterlessOn(acc, run, volume))
    && (forall run :: run in strays ==> strays[run] != {})
  }

  ghost predicate FooterlessOn(acc: Maps, run: string, volume: string)
  {
    volume != "" && exists pk :: pk in acc.parts && pk.key.run == run && acc.parts[pk].volume == volume && Footerless(acc, pk)
  }

  lemma StraysByPart(acc: Maps)
    ensures ReportsFooterless(acc, StrayLabels(acc, acc.parts.Keys))
  {
    var strays := StrayLabels(acc, acc.parts.Keys);
    forall run, volume ensures (run in strays && volume in strays[run]) <==> FooterlessOn(acc, run, volume) {
      StrayByPart(acc, run, volume);
    }
    forall run | run in strays ensures strays[run] != {} {
      var pk :| pk in acc.parts && Stray(acc, pk) && pk.key.run == run;
      assert acc.parts[pk].volume in strays[run];
    }
  }

  lemma StrayByPart(acc: Maps, run: string, volume: string)
    ensures var strays := StrayLabels(acc, acc.parts.Keys);
      (run in strays && volume in strays[run]) <==> FooterlessOn(acc, run, volume)
  {
    var strays := StrayLabels(acc, acc.parts.Keys);
    if run in strays && volume in strays[run] {
      var pk :| pk in acc.parts && Stray(acc, pk) && pk.key.run == run && acc.parts[pk].volume == volume;
      assert Footerless(acc, pk);
    }
    if FooterlessOn(acc, run, volume) {
      var pk :| pk in acc.parts && pk.key.run == run && acc.parts[pk].volume == volume && Footerless(acc, pk);
      assert Stray(acc, pk);
    }
  }

  lemma DistinctMore<T>(found: seq<T>, x: T)
    requires Distinct(found) && x !in found
    ensures Distinct(found + [x])
  {
  }

  method SortedKeys(commits: map<ArchiveKey, ScannedCommit>) returns (keys: seq<ArchiveKey>)
    ensures Enumerates(keys, commits.Keys)
  {
    var todo := commits.Keys;
    var found: seq<ArchiveKey> := [];
    while todo != {}
      invariant todo <= commits.Keys
      invariant forall k :: k in found <==> k in commits.Keys - todo
      invariant Distinct(found)
      decreases |todo|
    {
      var k :| k in todo;
      DistinctMore(found, k);
      found, todo := found + [k], todo - {k};
    }
    keys := Sort(found, KeyLess);
    KeyLessOrders();
    SortSorts(found, KeyLess);
    SortKeepsElements(found, KeyLess);
    SortKeepsDistinct(found, KeyLess);
    forall i, j | 0 <= i < j < |keys| ensures KeyLess(keys[i], keys[j]) {
      assert !KeyLess(keys[j], keys[i]);
      assert keys[i] != keys[j];
      KeyLessTotal(keys[i], keys[j]);
    }
  }

  /** Gathers one committed archive's parts and index, noting which sighted parts it used. */
  method PlaceOne(acc: Maps, key: ArchiveKey) returns (ap: PlacedArchive, used: set<PartKey>)
    requires key in acc.commits
    ensures ap == Placed(acc, key)
    ensures forall pk :: pk in used <==> pk in acc.parts && pk.key == key && Consumed(acc, pk)
  {
    var sc := acc.commits[key];
    var n := if sc.arch.parts < 1 then 1 else sc.arch.parts;
    ap := PlacedArchive(key.dle, key.level, [], [], sc.loc, NO_FILE);
    used := {};
    for part := 0 to n
      invariant ap == PlacedArchive(key.dle, key.level, PlacedParts(acc, key, part), [], sc.loc, NO_FILE)
      invariant forall pk :: pk in used <==> pk in acc.parts && pk.key == key && 0 <= pk.part < part
    {
      var pk := PartKey(key, part);
      if pk in acc.parts {
        used := used + {pk};
        ap := ap.(parts := ap.parts + [acc.parts[pk]]);
      } else if part < |sc.arch.partMap| {
        ap := ap.(parts := ap.parts + [sc.arch.partMap[part]]);
      }
    }
    if key in acc.indexes {
      ap := ap.(index := acc.indexes[key]);
    } else if sc.arch.indexPos != NO_FILE {
      ap := ap.(index := sc.arch.indexPos);
    }
  }

  lemma NothingGrouped(medium: string, acc: Maps, keys: seq<ArchiveKey>)
    ensures GroupAll(medium, acc, keys[..0]) == Grouped([], map[])
  {
  }

  lemma GroupedNext(medium: string, acc: Maps, keys: seq<ArchiveKey>, i: nat)
    requires i < |keys| && forall k :: k in keys ==> k in acc.commits
    ensures GroupAll(medium, acc, keys[..i + 1]) == Group(GroupAll(medium, acc, keys[..i]), medium, acc, keys[i])
  {
    assert keys[..i + 1][..i] == keys[..i];
  }

  method Assemble(medium: string, acc: Maps)
    returns (out: seq<RunPlacement>, strays: map<string, set<string>>)
    ensures exists keys :: Enumerates(keys, acc.commits.Keys) && out == GroupAll(medium, acc, keys).Output()
    ensures strays == StrayLabels(acc, acc.parts.Keys)
    ensures ReportsFooterless(acc, strays)
  {
    assert forall pk :: Consumed(acc, pk) ==> pk.key in acc.commits;
    hide ReportsFooterless;
    hide Consumed;
    hide Group;
    hide GroupAll;
    var keys := SortedKeys(acc.commits);
    var runs: map<string, RunPlacement> := map[];
    var order: seq<string> := [];
    var consumed: set<PartKey> := {};
    NothingGrouped(medium, acc, keys);
    for i := 0 to |keys|
      invariant Grouped(order, runs) == GroupAll(medium, acc, keys[..i])
      invariant forall pk :: pk in consumed <==>
        pk in acc.parts && pk.key in keys[..i] && Consumed(acc, pk)
    {
      var used;
      assert keys[i] in keys && keys[..i + 1] == keys[..i] + [keys[i]];
      GroupedNext(medium, acc, keys, i);
      order, runs, used := GroupOne(medium, acc, keys[i], order, runs);
      consumed := consumed + used;
    }
    assert keys[..|keys|] == keys;
    out := Grouped(order, runs).Output();
    strays := CollectStrays(acc, consumed);
    StraysByPart(acc);
  }

  method GroupOne(medium: string, acc: Maps, key: ArchiveKey, order: seq<string>, runs: map<string, RunPlacement>)
    returns (order': seq<string>, runs': map<string, RunPlacement>, used: set<PartKey>)
    requires key in acc.commits
    ensures Grouped(order', runs') == Group(Grouped(order, runs), medium, acc, key)
    ensures forall pk :: pk in used <==> pk in acc.parts && pk.key == key && Consumed(acc, pk)
  {
    order', runs' := order, runs;
    if key.run !in runs' {
      runs' := runs'[key.run := RunPlacement(Run(key.run, []), Placement(medium, []))];
      order' := order' + [key.run];
    }
    var ap;
    ap, used := PlaceOne(acc, key);
    var arch := acc.commits[key].arch.(run := key.run);
    var sa := runs'[key.run];
    runs' := runs'[key.run := RunPlacement(
      Run(sa.run.id, PutArchive(sa.run.archives, arch)),
      Placement(sa.p.medium, sa.p.archives + [ap]))];
  }

  method CollectStrays(acc: Maps, consumed: set<PartKey>) returns (strays: map<string, set<string>>)
    requires forall pk :: pk in consumed <==> pk in acc.parts && Consumed(acc, pk)
    ensures strays == StrayLabels(acc, acc.parts.Keys)
  {
    strays := map[];
    var todo := acc.parts.Keys;
    while todo != {}
      invariant todo <= acc.parts.Keys
      invariant strays == StrayLabels(acc, acc.parts.Keys - todo)
      decreases |todo|
    {
      var pk :| pk in todo;
      var done := acc.parts.Keys - todo;
      var loc := acc.parts[pk];
      if !(pk in consumed || loc.volume == "") {
        var labels := if pk.key.run in strays then strays[pk.key.run] else {};
        strays := strays[pk.key.run := labels + {loc.volume}];
      }
      StrayStep(acc, done, pk);
      todo := todo - {pk};
      assert acc.parts.Keys - todo == done + {pk};
    }
    assert acc.parts.Keys - todo == acc.parts.Keys;
  }

  lemma StrayStep(acc: Maps, done: set<PartKey>, pk: PartKey)
    requires done <= acc.parts.Keys && pk in acc.parts && pk !in done
    ensures !Stray(acc, pk) ==> StrayLabels(acc, done + {pk}) == StrayLabels(acc, done)
    ensures Stray(acc, pk) ==>
      var before := StrayLabels(acc, done);
      StrayLabels(acc, done + {pk}) ==
      before[pk.key.run := (if pk.key.run in before then before[pk.key.run] else {}) + {acc.parts[pk].volume}]
  {
    var before, after := StrayLabels(acc, done), StrayLabels(acc, done + {pk});
    var want := if !Stray(acc, pk) then before
      else before[pk.key.run := (if pk.key.run in before then before[pk.key.run] else {}) + {acc.parts[pk].volume}];
    forall run ensures run in after <==> run in want {
      if run in want && run != pk.key.run {
        var q :| q in done && Stray(acc, q) && q.key.run == run;
        assert q in done + {pk};
      }
    }
    forall run | run in after ensures after[run] == want[run] {
      forall q | q in done && Stray(acc, q) && q.key.run == run ensures q in done + {pk} {}
    }
  }

  // ---------------------------------------------------------------- what assembling means

  function KeysOf(keys: seq<ArchiveKey>, run: string): seq<ArchiveKey>
  {
    if keys == [] then []
    else
      var n := |keys| - 1;
      KeysOf(keys[..n], run) + if keys[n].run == run then [keys[n]] else []
  }

  function PlacedList(acc: Maps, keys: seq<ArchiveKey>): seq<PlacedArchive>
    requires forall k :: k in keys ==> k in acc.commits
  {
    seq(|keys|, i requires 0 <= i < |keys| => Placed(acc, keys[i]))
  }

  function ContentList(acc: Maps, keys: seq<ArchiveKey>): seq<Archive>
    requires forall k :: k in keys ==> k in acc.commits
  {
    if keys == [] then []
    else
      var n := |keys| - 1;
      assert forall k :: k in keys[..n] ==> k in keys;
      PutArchive(ContentList(acc, keys[..n]), Content(acc, keys[n]))
  }

  lemma {:induction false} KeysOfMembers(keys: seq<ArchiveKey>, run: string)
    ensures forall k :: k in KeysOf(keys, run) <==> k in keys && k.run == run
  {
    if keys != [] {
      var n := |keys| - 1;
      KeysOfMembers(keys[..n], run);
      assert keys == keys[..n] + [keys[n]];
    }
  }

  ghost predicate GroupedRun(rp: RunPlacement, medium: string, acc: Maps, keys: seq<ArchiveKey>, r: string)
    requires forall k :: k in keys ==> k in acc.commits
  {
    && rp.run.id == r && rp.p.medium == medium
    && rp.run.archives == ContentList(acc, keys)
    && rp.p.archives == PlacedList(acc, keys)
  }

  /** g has one group per run among the keys, holding that run's archives in key order. */
  ghost predicate GroupedBy(g: Grouped, medium: string, acc: Maps, keys: seq<ArchiveKey>)
  {
    Distinct(g.order) && forall r :: RunGrouped(g, medium, acc, keys, r)
  }

  ghost predicate KnownOf(acc: Maps, keys: seq<ArchiveKey>, r: string)
  {
    forall k :: k in KeysOf(keys, r) ==> k in acc.commits
  }

  lemma KeysOfAppend(keys: seq<ArchiveKey>, key: ArchiveKey, r: string)
    ensures KeysOf(keys + [key], r) == KeysOf(keys, r) + if r == key.run then [key] else []
  {
    assert (keys + [key])[..|keys|] == keys;
  }

  lemma RunStep(rp: RunPlacement, medium: string, acc: Maps, ks: seq<ArchiveKey>, key: ArchiveKey)
    requires forall k :: k in ks ==> k in acc.commits
    requires key in acc.commits
    requires GroupedRun(rp, medium, acc, ks, key.run)
    ensures forall k :: k in ks + [key] ==> k in acc.commits
    ensures GroupedRun(
      RunPlacement(Run(key.run, PutArchive(rp.run.archives, Content(acc, key))),
                   Placement(medium, rp.p.archives + [Placed(acc, key)])),
      medium, acc, ks + [key], key.run)
  {
    assert (ks + [key])[..|ks|] == ks;
    assert PlacedList(acc, ks + [key]) == PlacedList(acc, ks) + [Placed(acc, key)];
  }

  ghost predicate RunGrouped(g: Grouped, medium: string, acc: Maps, keys: seq<ArchiveKey>, r: string)
  {
    && (r in g.order <==> r in g.runs)
    && (r in g.runs <==> KeysOf(keys, r) != [])
    && (r in g.runs ==> KnownOf(acc, keys, r) && GroupedRun(g.runs[r], medium, acc, KeysOf(keys, r), r))
  }

  lemma GroupStepRun(g: Grouped, medium: string, acc: Maps, keys: seq<ArchiveKey>, key: ArchiveKey, r: string)
    requires key in acc.commits
    requires RunGrouped(g, medium, acc, keys, r)
    ensures RunGrouped(Group(g, medium, acc, key), medium, acc, keys + [key], r)
  {
    KeysOfAppend(keys, key, r);
    if r == key.run {
      var ks := KeysOf(keys, r);
      var sa := if r in g.runs then g.runs[r] else RunPlacement(Run(r, []), Placement(medium, []));
      assert GroupedRun(sa, medium, acc, ks, r);
      RunStep(sa, medium, acc, ks, key);
    } else {
      assert KeysOf(keys + [key], r) == KeysOf(keys, r);
    }
  }

  /** Every key goes to its run's group, in order, and each run is grouped once. */
  lemma {:induction false} GroupAllExact(medium: string, acc: Maps, keys: seq<ArchiveKey>)
    requires forall k :: k in keys ==> k in acc.commits
    ensures GroupedBy(GroupAll(medium, acc, keys), medium, acc, keys)
  {
    if keys != [] {
      var n := |keys| - 1;
      assert forall k :: k in keys[..n] ==> k in keys;
      GroupAllExact(medium, acc, keys[..n]);
      assert keys[..n] + [keys[n]] == keys;
      var g := GroupAll(medium, acc, keys[..n]);
      forall r ensures RunGrouped(Group(g, medium, acc, keys[n]), medium, acc, keys, r) {
        assert RunGrouped(g, medium, acc, keys[..n], r);
        GroupStepRun(g, medium, acc, keys[..n], keys[n], r);
      }
      assert RunGrouped(g, medium, acc, keys[..n], keys[n].run);
    }
  }

  /** The assembled output lists pa under run. */
  ghost predicate Lists(out: seq<RunPlacement>, run: string, pa: PlacedArchive)
  {
    exists i :: 0 <= i < |out| && out[i].run.id == run && pa in out[i].p.archives
  }

  lemma ListsByGroup(g: Grouped, medium: string, acc: Maps, keys: seq<ArchiveKey>, run: string, pa: PlacedArchive)
    requires forall k :: k in keys ==> k in acc.commits
    requires g.Valid() && GroupedBy(g, medium, acc, keys)
    ensures Lists(g.Output(), run, pa) <==> run in g.runs && pa in g.runs[run].p.archives
  {
    var out := g.Output();
    assert RunGrouped(g, medium, acc, keys, run);
    forall i | 0 <= i < |out| ensures out[i].run.id == g.order[i] {
      assert RunGrouped(g, medium, acc, keys, g.order[i]);
    }
    if run in g.runs && pa in g.runs[run].p.archives {
      var i :| 0 <= i < |g.order| && g.order[i] == run;
      assert out[i] == g.runs[run];
    }
  }

  lemma GroupListsCommitted(g: Grouped, medium: string, acc: Maps, keys: seq<ArchiveKey>, run: string, pa: PlacedArchive)
    requires Enumerates(keys, acc.commits.Keys) && g.Valid()
    requires GroupedBy(g, medium, acc, keys)
    ensures Lists(g.Output(), run, pa) <==>
      ArchiveKey(run, pa.dle, pa.level) in acc.commits && pa == Placed(acc, ArchiveKey(run, pa.dle, pa.level))
  {
    var key := ArchiveKey(run, pa.dle, pa.level);
    ListsByGroup(g, medium, acc, keys, run, pa);
    KeysOfMembers(keys, run);
    var ks := KeysOf(keys, run);
    assert RunGrouped(g, medium, acc, keys, run);
    if run in g.runs {
      assert GroupedRun(g.runs[run], medium, acc, ks, run);
      if pa in g.runs[run].p.archives {
        var j :| 0 <= j < |ks| && pa == PlacedList(acc, ks)[j];
        assert ks[j] == key;
      }
    }
    if key in acc.commits && pa == Placed(acc, key) {
      assert key in keys && key in ks;
      var j :| 0 <= j < |ks| && ks[j] == key;
      assert PlacedList(acc, ks)[j] == pa;
    }
  }

  /** Assembling lists exactly the archives that have a footer, each as the maps place it. */
  lemma AssembleListsCommitted(medium: string, acc: Maps, keys: seq<ArchiveKey>, run: string, pa: PlacedArchive)
    requires Enumerates(keys, acc.commits.Keys)
    ensures var key := ArchiveKey(run, pa.dle, pa.level);
      Lists(GroupAll(medium, acc, keys).Output(), run, pa) <==>
      key in acc.commits && pa == Placed(acc, key)
  {
    GroupAllExact(medium, acc, keys);
    GroupListsCommitted(GroupAll(medium, acc, keys), medium, acc, keys, run, pa);
  }
}
