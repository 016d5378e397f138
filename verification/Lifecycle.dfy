/** One address-identified medium over time, one file operation at a step: writers appending
    parts, an index and a footer; reclaims removing files footer first; the orphan sweep;
    crashes; lost and rebuilt catalogs; reopening the store. Archives interleave freely. */
module Lifecycle {
  import opened Records
  import opened Entries
  import opened Scan
  import opened Orphans
  import opened Store
  import opened SweepSafety

  /** An archive being written: what it has appended so far, and once its footer has landed
      the result it still has to record in the catalog. */
  datatype Writer = Writer(parts: seq<int>, index: Option<int>, sealed: Option<Written>)

  /** `torn` holds the positions of half-written files an interrupted append left behind. They
      are not files a scan reads, but reopening the store counts past them. `committed` is a
      history variable: what has been committed here and not un-committed since. Nothing the
      program does reads it. */
  datatype State = State(
    files: Files, torn: set<nat>, next: nat,
    writers: map<ArchiveKey, Writer>,
    reclaims: map<ArchiveKey, seq<int>>,
    sweep: seq<int>,
    catalog: map<ArchiveKey, PlacedArchive>,
    committed: Ledger)

  const EMPTY := State(map[], {}, 0, map[], map[], [], map[], map[])

  datatype Op =
    | Begin(key: ArchiveKey)
    | PutPart(key: ArchiveKey)
    | PutIndex(key: ArchiveKey)
    | PutFooter(key: ArchiveKey, meta: Archive)
    | Record(key: ArchiveKey)
    | Abort(key: ArchiveKey)
    | TornAppend
    | ReapTorn(pos: nat)
    | StartReclaim(key: ArchiveKey)
    | RemoveOne(key: ArchiveKey)
    | Forget(key: ArchiveKey)
    | StartSweep
    | SweepOne(refused: bool)
    | Crash
    | LoseCatalog
    | Rebuild(full: bool)
    | Reopen

  predicate SameDle(a: ArchiveKey, b: ArchiveKey) { a.run == b.run && a.dle == b.dle }

  predicate Quiet(s: State) { s.writers == map[] && s.reclaims == map[] && s.sweep == [] }

  /** The footer an attempt writes: its metadata over the layout it actually produced. */
  function Footer(meta: Archive, w: Writer): Archive
  {
    meta.(parts := |w.parts|, partMap := Locs(w.parts),
          indexPos := if w.index.Some? then Loc(w.index.value) else NO_FILE)
  }

  /** Every position the catalog accounts for on this medium. */
  function KnownPositions(catalog: map<ArchiveKey, PlacedArchive>): set<int>
  {
    set key, p | key in catalog && p in PosFiles(catalog[key].Pos()) :: p
  }

  function ScanNow(s: State): Maps { ScanFiles(Listing(s.files, s.next), "", 0) }

  /** What absorbing a scan of this medium records. */
  function Rebuilt(s: State): map<ArchiveKey, PlacedArchive>
  {
    var acc := ScanNow(s);
    map key | key in acc.commits :: Place(Content(acc, key), Placed(acc, key).Pos())
  }

  ghost function SweepList(s: State): seq<int>
  {
    var files := OrphansOf(Listing(s.files, s.next), KnownPositions(s.catalog));
    seq(|files|, i requires 0 <= i < |files| => files[i].pos)
  }

  /** One past the highest position still on the store, half-written files included. */
  ghost predicate HighWater(s: State, n: nat)
  {
    && (forall p :: p in s.files ==> p < n) && (forall p :: p in s.torn ==> p < n)
    && (n > 0 ==> n - 1 in s.files || n - 1 in s.torn)
  }

  /** When a step may happen. A DLE has one level per run; an archive is re-authored only
      when no committed copy of it is here; the retry of an attempt that left an index
      behind writes one too. */
  ghost predicate Enabled(s: State, op: Op)
  {
    match op
    case Begin(key) =>
      && s.sweep == [] && key !in s.committed && key !in s.writers && key !in s.reclaims
      && (forall k :: (k in s.committed || k in s.writers || k in s.catalog) && SameDle(k, key) ==> k == key)
    case PutPart(key) =>
      s.sweep == [] && key in s.writers && s.writers[key].sealed.None? && s.writers[key].index.None?
    case PutIndex(key) =>
      s.sweep == [] && key in s.writers && s.writers[key].sealed.None? && s.writers[key].index.None? && s.writers[key].parts != []
    case PutFooter(key, meta) =>
      && s.sweep == [] && key in s.writers && s.writers[key].sealed.None? && s.writers[key].parts != []
      && meta.Key() == key
      && (s.writers[key].index.None? ==> forall p :: !IndexOn(s.files, p, key))
    case Record(key) => key in s.writers && s.writers[key].sealed.Some?
    case Abort(key) => key in s.writers
    case TornAppend => s.writers != map[]
    case ReapTorn(pos) => pos in s.torn
    case StartReclaim(key) => s.sweep == [] && key in s.catalog && key !in s.reclaims && key !in s.writers
    case RemoveOne(key) => key in s.reclaims && s.reclaims[key] != []
    case Forget(key) => key in s.reclaims && s.reclaims[key] == []
    case StartSweep => Quiet(s)
    case SweepOne(_) => s.sweep != []
    case Crash => true
    case LoseCatalog => Quiet(s)
    case Rebuild(_) => Quiet(s)
    case Reopen => Quiet(s) && exists n: nat :: HighWater(s, n)
  }

  /** Deleting the file at p; an archive whose footer goes is no longer committed. */
  function Remove(s: State, p: int): State
  {
    s.(files := s.files - {p},
       committed := map key | key in s.committed && s.committed[key].commit != p :: s.committed[key])
  }

  ghost function Apply(s: State, op: Op): State
    requires Enabled(s, op)
  {
    match op
    case Begin(key) => s.(writers := s.writers[key := Writer([], None, None)])
    case PutPart(key) =>
      var w := s.writers[key];
      s.(files := s.files[s.next := File(ArchivePart, key, |w.parts|, None)], next := s.next + 1,
         writers := s.writers[key := w.(parts := w.parts + [s.next])])
    case PutIndex(key) =>
      var w := s.writers[key];
      s.(files := s.files[s.next := File(MemberIndex, key, 0, None)], next := s.next + 1,
         writers := s.writers[key := w.(index := Some(s.next))])
    case PutFooter(key, meta) =>
      var w := s.writers[key];
      var result := Written(Footer(meta, w), w.parts, s.next, w.index);
      s.(files := s.files[s.next := File(CommitFooter, key, 0, Some(result.footer))], next := s.next + 1,
         writers := s.writers[key := w.(sealed := Some(result))], committed := s.committed[key := result])
    case Record(key) =>
      var result := s.writers[key].sealed.value;
      s.(writers := s.writers - {key}, catalog := s.catalog[key := Place(result.footer, result.Pos())])
    case Abort(key) => s.(writers := s.writers - {key})
    case TornAppend => s.(torn := s.torn + {s.next}, next := s.next + 1)
    case ReapTorn(pos) => s.(torn := s.torn - {pos})
    case StartReclaim(key) => s.(reclaims := s.reclaims[key := PosFiles(s.catalog[key].Pos())])
    case RemoveOne(key) =>
      Remove(s, s.reclaims[key][0]).(reclaims := s.reclaims[key := s.reclaims[key][1..]])
    case Forget(key) =>
      s.(reclaims := s.reclaims - {key}, catalog := map k | k in s.catalog && !SameDle(k, key) :: s.catalog[k])
    case StartSweep => s.(sweep := SweepList(s))
    case SweepOne(refused) => (if refused then s else Remove(s, s.sweep[0])).(sweep := s.sweep[1..])
    case Crash => s.(writers := map[], reclaims := map[], sweep := [])
    case LoseCatalog => s.(catalog := map[])
    case Rebuild(full) => s.(catalog := if full then Rebuilt(s) else s.catalog + Rebuilt(s))
    case Reopen => var n: nat :| HighWater(s, n); s.(next := n)
  }

  // ---------------------------------------------------------------- the invariant

  predicate Agrees(pa: PlacedArchive, w: Written) { pa == Place(w.footer, w.Pos()) }

  /** A catalog record names files of its own archive or nothing, and is either the record
      of what is committed or shares no file with it. */
  ghost predicate RecordOK(s: State, key: ArchiveKey)
    requires key in s.catalog
  {
    var pos := PosFiles(s.catalog[key].Pos());
    && (forall p :: p in pos ==> p < s.next && (p in s.files ==> s.files[p].key == key))
    && (key in s.committed ==> Agrees(s.catalog[key], s.committed[key]) || forall p :: p in pos ==> !s.committed[key].Uses(p))
  }

  /** What a writer has appended is on the medium, above any leftovers of its archive. */
  ghost predicate WriterOK(s: State, key: ArchiveKey)
    requires key in s.writers
  {
    var w := s.writers[key];
    && (forall i :: 0 <= i < |w.parts| ==> PartOn(s.files, w.parts[i], key, i))
    && (forall p, i :: 0 <= i < |w.parts| && PartOn(s.files, p, key, i) ==> p <= w.parts[i])
    && (w.index.Some? ==> (
          && IndexOn(s.files, w.index.value, key) && w.index.value > 0
          && forall p :: IndexOn(s.files, p, key) ==> p <= w.index.value))
    && (match w.sealed
        case Some(result) => key in s.committed && s.committed[key] == result
        case None => key !in s.committed && (key in s.catalog ==>
          forall p :: p in PosFiles(s.catalog[key].Pos()) ==> p !in w.parts && w.index != Some(p)))
  }

  ghost predicate ReclaimOK(s: State, key: ArchiveKey)
    requires key in s.reclaims
  {
    && key in s.catalog && key !in s.writers
    && (forall p :: p in s.reclaims[key] ==> p in PosFiles(s.catalog[key].Pos()))
    && (key in s.committed && Agrees(s.catalog[key], s.committed[key]) ==>
          s.reclaims[key] == PosFiles(s.catalog[key].Pos()))
  }

  ghost predicate SweepOK(s: State)
  {
    s.sweep != [] ==> (
      && s.writers == map[] && s.reclaims == map[]
      && forall p :: p in s.sweep ==> !InCommitted(s.committed, p))
  }

  predicate Present(s: State, key: ArchiveKey)
  {
    key in s.committed || key in s.writers || key in s.catalog
  }

  ghost predicate OneLevel(s: State)
  {
    forall a, b :: Present(s, a) && Present(s, b) && SameDle(a, b) ==> a == b
  }

  ghost predicate RecordsOK(s: State) { forall key :: key in s.catalog ==> RecordOK(s, key) }
  ghost predicate WritersOK(s: State) { forall key :: key in s.writers ==> WriterOK(s, key) }
  ghost predicate ReclaimsOK(s: State) { forall key :: key in s.reclaims ==> ReclaimOK(s, key) }

  ghost predicate Inv(s: State)
  {
    match s
    case State(files, _, next, _, _, _, _, committed) =>
      && Holding(files, next, committed)
      && RecordsOK(s) && WritersOK(s) && ReclaimsOK(s) && SweepOK(s) && OneLevel(s)
  }

  /** Reopening continues above the highest position still stored; that is clear of the
      catalog only while no record names a position above it. */
  ghost predicate Careful(s: State, op: Op)
  {
    op.Reopen? ==> forall n: nat :: HighWater(s, n) ==> forall p :: p in KnownPositions(s.catalog) ==> p < n
  }

  lemma AppendKeepsHolding(files: Files, n: nat, committed: Ledger, f: File)
    requires Holding(files, n, committed)
    requires f.key !in committed && f.kind != CommitFooter
    ensures Holding(files[n := f], n + 1, committed)
  {
    var files' := files[n := f];
    forall key | key in committed ensures Whole(files', key, committed[key]) {
      var w := committed[key];
      assert FooterOn(files, w.commit, key);
      forall i | 0 <= i < |w.parts| ensures PartOn(files', w.parts[i], key, i) {
        assert PartOn(files, w.parts[i], key, i);
      }
      forall p, i | 0 <= i < |w.parts| && PartOn(files', p, key, i) ensures p <= w.parts[i] {
        assert PartOn(files, p, key, i);
      }
      forall p | IndexOn(files', p, key) ensures w.index.Some? && p <= w.index.value {
        assert IndexOn(files, p, key);
      }
    }
    forall p, key | FooterOn(files', p, key) ensures key in committed && p == committed[key].commit {
      assert FooterOn(files, p, key);
    }
  }

  // ---------------------------------------------------------------- what a step leaves alone

  /** Nothing below s.next was replaced: files there are as they were, or gone. */
  ghost predicate OnlyGone(s: State, s': State)
  {
    forall p :: p < s.next && p in s'.files ==> p in s.files && s'.files[p] == s.files[p]
  }

  ghost predicate NoneRewritten(s: State, s': State)
  {
    forall key :: key in s'.committed && key in s.committed ==> s'.committed[key] == s.committed[key]
  }

  lemma RecordsFrame(s: State, s': State)
    requires RecordsOK(s) && OnlyGone(s, s') && NoneRewritten(s, s')
    requires s'.catalog == s.catalog && s.next <= s'.next
    requires forall key :: key in s'.committed && key in s.catalog ==> key in s.committed
    ensures RecordsOK(s')
  {
    forall k | k in s'.catalog ensures RecordOK(s', k) { assert RecordOK(s, k); }
  }

  lemma ReclaimsFrame(s: State, s': State)
    requires ReclaimsOK(s) && NoneRewritten(s, s')
    requires forall key :: key in s'.reclaims ==> key in s.reclaims && s'.reclaims[key] == s.reclaims[key]
    requires forall key :: key in s'.reclaims && key in s.catalog ==> key in s'.catalog && s'.catalog[key] == s.catalog[key]
    requires forall key :: key in s'.writers ==> key in s.writers || key !in s.reclaims
    requires forall key :: key in s'.committed && key in s.reclaims ==> key in s.committed
    ensures ReclaimsOK(s')
  {
    forall k | k in s'.reclaims ensures ReclaimOK(s', k) { assert ReclaimOK(s, k); }
  }

  lemma LevelsFrame(s: State, s': State)
    requires OneLevel(s)
    requires forall key :: Present(s', key) ==> Present(s, key)
    ensures OneLevel(s')
  {
  }

  /** A writer keeps its standing while its own files, its footer and its record stay put. */
  lemma WriterFrame(s: State, s': State, key: ArchiveKey)
    requires key in s.writers && WriterOK(s, key)
    requires key in s'.writers && s'.writers[key] == s.writers[key]
    requires forall p :: p in s'.files && s'.files[p].key == key && s'.files[p].kind != CommitFooter ==> p in s.files && s'.files[p] == s.files[p]
    requires forall p :: p in s.files && s.files[p].key == key ==> p in s'.files && s'.files[p] == s.files[p]
    requires key in s'.committed <==> key in s.committed
    requires key in s.committed ==> s'.committed[key] == s.committed[key]
    requires key in s'.catalog ==> key in s.catalog && s'.catalog[key] == s.catalog[key]
    ensures WriterOK(s', key)
  {
    var w := s.writers[key];
    forall i | 0 <= i < |w.parts| ensures PartOn(s'.files, w.parts[i], key, i) { assert PartOn(s.files, w.parts[i], key, i); }
    forall p, i | 0 <= i < |w.parts| && PartOn(s'.files, p, key, i) ensures p <= w.parts[i] { assert PartOn(s.files, p, key, i); }
    if w.index.Some? {
      assert IndexOn(s.files, w.index.value, key);
      forall p | IndexOn(s'.files, p, key) ensures p <= w.index.value { assert IndexOn(s.files, p, key); }
    }
  }

  lemma BeginWriters(s: State, key: ArchiveKey)
    requires Inv(s) && Enabled(s, Begin(key))
    ensures WritersOK(Apply(s, Begin(key)))
  {
    var s' := Apply(s, Begin(key));
    forall k | k in s'.writers ensures WriterOK(s', k) {
      if k != key { assert WriterOK(s, k); WriterFrame(s, s', k); }
    }
  }

  lemma BeginKeeps(s: State, key: ArchiveKey)
    requires Inv(s) && Enabled(s, Begin(key))
    ensures Inv(Apply(s, Begin(key)))
  {
    hide Holding;
    hide RecordsOK;
    hide ReclaimsOK;
    hide WritersOK;
    var s' := Apply(s, Begin(key));
    RecordsFrame(s, s');
    ReclaimsFrame(s, s');
    BeginWriters(s, key);
    forall a, b | Present(s', a) && Present(s', b) && SameDle(a, b) ensures a == b {
      assert a != key ==> Present(s, a);
      assert b != key ==> Present(s, b);
    }
  }

  /** Appending a file for one archive leaves the other writers as they were. */
  lemma OtherWriters(s: State, s': State, key: ArchiveKey, f: File)
    requires WritersOK(s) && key in s.writers && f.key == key
    requires forall p :: p in s.files ==> 0 <= p < s.next
    requires s'.files == s.files[s.next := f] && s'.catalog == s.catalog
    requires s'.writers.Keys == s.writers.Keys
    requires forall k :: k in s.writers && k != key ==> s'.writers[k] == s.writers[k]
    requires forall k :: k != key ==> (k in s'.committed <==> k in s.committed)
    requires forall k :: k != key && k in s.committed ==> s'.committed[k] == s.committed[k]
    requires WriterOK(s', key)
    ensures WritersOK(s')
  {
    forall k | k in s'.writers && k != key ensures WriterOK(s', k) {
      assert WriterOK(s, k);
      WriterFrame(s, s', k);
    }
  }

  /** One more file of an archive in progress, and nothing else. */
  ghost predicate Appended(s: State, s': State, key: ArchiveKey, f: File)
  {
    && s' == s.(files := s.files[s.next := f], next := s.next + 1, writers := s'.writers)
    && s'.writers.Keys == s.writers.Keys && forall k :: k in s.writers && k != key ==> s'.writers[k] == s.writers[k]
  }

  /** Appending a part or an index for an archive in progress. */
  lemma AppendKeeps(s: State, s': State, key: ArchiveKey, f: File)
    requires Inv(s) && s.sweep == []
    requires key in s.writers && key !in s.committed && f.key == key && f.kind != CommitFooter
    requires Appended(s, s', key, f) && WriterOK(s', key)
    ensures Inv(s')
  {
    AppendKeepsHolding(s.files, s.next, s.committed, f);
    OtherWriters(s, s', key, f);
    RecordsFrame(s, s');
    ReclaimsFrame(s, s');
    LevelsFrame(s, s');
  }

  lemma PutPartAppends(s: State, key: ArchiveKey)
    requires Enabled(s, PutPart(key))
    ensures Appended(s, Apply(s, PutPart(key)), key, File(ArchivePart, key, |s.writers[key].parts|, None))
  {
  }

  lemma PutIndexAppends(s: State, key: ArchiveKey)
    requires Enabled(s, PutIndex(key))
    ensures Appended(s, Apply(s, PutIndex(key)), key, File(MemberIndex, key, 0, None))
  {
  }

  lemma PartWriter(s: State, key: ArchiveKey)
    requires key in s.writers && WriterOK(s, key) && Enabled(s, PutPart(key))
    requires forall p :: p in s.files ==> 0 <= p < s.next
    requires key in s.catalog ==> RecordOK(s, key)
    ensures WriterOK(Apply(s, PutPart(key)), key)
  {
    var s' := Apply(s, PutPart(key));
    var w, w' := s.writers[key], s'.writers[key];
    forall i | 0 <= i < |w'.parts| ensures PartOn(s'.files, w'.parts[i], key, i) {
      if i < |w.parts| { assert PartOn(s.files, w.parts[i], key, i); }
    }
    forall p, i | 0 <= i < |w'.parts| && PartOn(s'.files, p, key, i) ensures p <= w'.parts[i] {
      assert p != s.next ==> PartOn(s.files, p, key, i);
    }
  }

  lemma PutPartKeeps(s: State, key: ArchiveKey)
    requires Inv(s) && Enabled(s, PutPart(key))
    ensures Inv(Apply(s, PutPart(key)))
  {
    assert WriterOK(s, key) && (key in s.catalog ==> RecordOK(s, key));
    PartWriter(s, key);
    PutPartAppends(s, key);
    AppendKeeps(s, Apply(s, PutPart(key)), key, File(ArchivePart, key, |s.writers[key].parts|, None));
  }

  lemma IndexWriter(s: State, key: ArchiveKey)
    requires key in s.writers && WriterOK(s, key) && Enabled(s, PutIndex(key))
    requires forall p :: p in s.files ==> 0 <= p < s.next
    requires key in s.catalog ==> RecordOK(s, key)
    ensures WriterOK(Apply(s, PutIndex(key)), key)
  {
    var s' := Apply(s, PutIndex(key));
    var w := s.writers[key];
    forall i | 0 <= i < |w.parts| ensures PartOn(s'.files, w.parts[i], key, i) { assert PartOn(s.files, w.parts[i], key, i); }
    forall p, i | 0 <= i < |w.parts| && PartOn(s'.files, p, key, i) ensures p <= w.parts[i] { assert PartOn(s.files, p, key, i); }
    forall p | IndexOn(s'.files, p, key) ensures p <= s.next { assert p != s.next ==> IndexOn(s.files, p, key); }
    assert PartOn(s.files, w.parts[0], key, 0);
  }

  lemma PutIndexKeeps(s: State, key: ArchiveKey)
    requires Inv(s) && Enabled(s, PutIndex(key))
    ensures Inv(Apply(s, PutIndex(key)))
  {
    assert WriterOK(s, key) && (key in s.catalog ==> RecordOK(s, key));
    IndexWriter(s, key);
    PutIndexAppends(s, key);
    AppendKeeps(s, Apply(s, PutIndex(key)), key, File(MemberIndex, key, 0, None));
  }

  lemma FooterMakesWhole(s: State, key: ArchiveKey, meta: Archive)
    requires key in s.writers && WriterOK(s, key) && Enabled(s, PutFooter(key, meta))
    requires forall p :: p in s.files ==> 0 <= p < s.next
    ensures var s' := Apply(s, PutFooter(key, meta)); Whole(s'.files, key, s'.committed[key])
  {
    var s' := Apply(s, PutFooter(key, meta));
    var w, r := s.writers[key], s'.committed[key];
    forall i | 0 <= i < |r.parts| ensures PartOn(s'.files, r.parts[i], key, i) { assert PartOn(s.files, w.parts[i], key, i); }
    forall p, i | 0 <= i < |r.parts| && PartOn(s'.files, p, key, i) ensures p <= r.parts[i] { assert PartOn(s.files, p, key, i); }
    forall p | IndexOn(s'.files, p, key) ensures r.index.Some? && p <= r.index.value { assert IndexOn(s.files, p, key); }
    assert r.index.Some? ==> IndexOn(s.files, r.index.value, key);
    assert FooterOn(s'.files, r.commit, key);
  }

  lemma FooterKeepsHolding(files: Files, n: nat, committed: Ledger, key: ArchiveKey, w: Written)
    requires Holding(files, n, committed) && key !in committed && w.commit == n
    requires Whole(files[n := File(CommitFooter, key, 0, Some(w.footer))], key, w)
    ensures Holding(files[n := File(CommitFooter, key, 0, Some(w.footer))], n + 1, committed[key := w])
  {
    var files' := files[n := File(CommitFooter, key, 0, Some(w.footer))];
    forall k | k in committed && k != key ensures Whole(files', k, committed[k]) {
      var v := committed[k];
      assert FooterOn(files, v.commit, k);
      forall i | 0 <= i < |v.parts| ensures PartOn(files', v.parts[i], k, i) { assert PartOn(files, v.parts[i], k, i); }
      forall p, i | 0 <= i < |v.parts| && PartOn(files', p, k, i) ensures p <= v.parts[i] { assert PartOn(files, p, k, i); }
      forall p | IndexOn(files', p, k) ensures v.index.Some? && p <= v.index.value { assert IndexOn(files, p, k); }
    }
    forall p, k | FooterOn(files', p, k) ensures k in committed[key := w] && p == committed[key := w][k].commit {
      if p != n { assert FooterOn(files, p, k); }
    }
  }

  lemma FooterWriter(s: State, key: ArchiveKey, meta: Archive)
    requires key in s.writers && WriterOK(s, key) && Enabled(s, PutFooter(key, meta))
    requires forall p :: p in s.files ==> 0 <= p < s.next
    ensures WriterOK(Apply(s, PutFooter(key, meta)), key)
  {
    var s' := Apply(s, PutFooter(key, meta));
    var w := s.writers[key];
    forall i | 0 <= i < |w.parts| ensures PartOn(s'.files, w.parts[i], key, i) { assert PartOn(s.files, w.parts[i], key, i); }
    forall p, i | 0 <= i < |w.parts| && PartOn(s'.files, p, key, i) ensures p <= w.parts[i] { assert PartOn(s.files, p, key, i); }
    if w.index.Some? {
      assert IndexOn(s.files, w.index.value, key);
      forall p | IndexOn(s'.files, p, key) ensures p <= w.index.value { assert IndexOn(s.files, p, key); }
    }
  }

  lemma FooterRecords(s: State, key: ArchiveKey, meta: Archive)
    requires RecordsOK(s) && Enabled(s, PutFooter(key, meta)) && WriterOK(s, key)
    requires forall p :: p in s.files ==> 0 <= p < s.next
    ensures RecordsOK(Apply(s, PutFooter(key, meta)))
  {
    var s' := Apply(s, PutFooter(key, meta));
    forall k | k in s'.catalog ensures RecordOK(s', k) { assert RecordOK(s, k); }
  }

  lemma FooterHolding(s: State, key: ArchiveKey, meta: Archive)
    requires Holding(s.files, s.next, s.committed)
    requires key in s.writers && WriterOK(s, key) && Enabled(s, PutFooter(key, meta))
    ensures var s' := Apply(s, PutFooter(key, meta)); Holding(s'.files, s'.next, s'.committed)
  {
    var s' := Apply(s, PutFooter(key, meta));
    FooterMakesWhole(s, key, meta);
    FooterKeepsHolding(s.files, s.next, s.committed, key, s'.committed[key]);
  }

  lemma FooterWriters(s: State, key: ArchiveKey, meta: Archive)
    requires Holding(s.files, s.next, s.committed) && WritersOK(s)
    requires Enabled(s, PutFooter(key, meta))
    ensures WritersOK(Apply(s, PutFooter(key, meta)))
  {
    var s' := Apply(s, PutFooter(key, meta));
    assert WriterOK(s, key);
    FooterWriter(s, key, meta);
    FooterChanges(s, key, meta);
    OtherWriters(s, s', key, s'.files[s.next]);
  }

  /** What writing a footer changes, for the other archives: nothing. */
  lemma FooterChanges(s: State, key: ArchiveKey, meta: Archive)
    requires Enabled(s, PutFooter(key, meta))
    ensures var s' := Apply(s, PutFooter(key, meta));
      && s.next in s'.files && s'.files[s.next].key == key && s'.files == s.files[s.next := s'.files[s.next]] && s'.catalog == s.catalog
      && s'.writers.Keys == s.writers.Keys && (forall k :: k in s.writers && k != key ==> s'.writers[k] == s.writers[k])
      && (forall k :: k != key ==> (k in s'.committed <==> k in s.committed))
      && (forall k :: k != key && k in s.committed ==> s'.committed[k] == s.committed[k])
  {
  }

  lemma FooterReclaims(s: State, key: ArchiveKey, meta: Archive)
    requires ReclaimsOK(s) && OneLevel(s)
    requires Enabled(s, PutFooter(key, meta))
    ensures ReclaimsOK(Apply(s, PutFooter(key, meta))) && OneLevel(Apply(s, PutFooter(key, meta)))
  {
    var s' := Apply(s, PutFooter(key, meta));
    forall k | k in s'.reclaims ensures ReclaimOK(s', k) { assert ReclaimOK(s, k); }
    LevelsFrame(s, s');
  }

  lemma PutFooterKeeps(s: State, key: ArchiveKey, meta: Archive)
    requires Inv(s) && Enabled(s, PutFooter(key, meta))
    ensures Inv(Apply(s, PutFooter(key, meta)))
  {
    assert WriterOK(s, key);
    FooterHolding(s, key, meta);
    FooterWriters(s, key, meta);
    FooterRecords(s, key, meta);
    FooterReclaims(s, key, meta);
  }

  lemma RecordRecords(s: State, key: ArchiveKey)
    requires RecordsOK(s) && Holding(s.files, s.next, s.committed)
    requires key in s.writers && WriterOK(s, key) && Enabled(s, Record(key))
    ensures RecordsOK(Apply(s, Record(key)))
  {
    var s' := Apply(s, Record(key));
    var r := s.committed[key];
    forall p | p in PosFiles(s'.catalog[key].Pos()) ensures p < s.next && p in s.files && s.files[p].key == key {
      PosFilesOfWritten(r, p);
      UsedFile(s.files, s.next, s.committed, key, p);
    }
    forall k | k in s'.catalog && k != key ensures RecordOK(s', k) { assert RecordOK(s, k); }
  }

  lemma RecordWork(s: State, key: ArchiveKey)
    requires WritersOK(s) && ReclaimsOK(s) && OneLevel(s) && Enabled(s, Record(key))
    ensures var s' := Apply(s, Record(key)); WritersOK(s') && ReclaimsOK(s') && OneLevel(s')
  {
    var s' := Apply(s, Record(key));
    forall k | k in s'.writers ensures WriterOK(s', k) { assert WriterOK(s, k); WriterFrame(s, s', k); }
    forall k | k in s'.reclaims ensures ReclaimOK(s', k) { assert ReclaimOK(s, k); }
    LevelsFrame(s, s');
  }

  lemma RecordKeeps(s: State, key: ArchiveKey)
    requires Inv(s) && Enabled(s, Record(key))
    ensures Inv(Apply(s, Record(key)))
  {
    assert WriterOK(s, key);
    RecordRecords(s, key);
    RecordWork(s, key);
  }

  /** Abandoning work in hand, as an abort or a crash does. */
  lemma DroppingWorkKeeps(s: State, s': State)
    requires Inv(s)
    requires s' == s.(writers := s'.writers, reclaims := s'.reclaims, sweep := s'.sweep)
    requires forall k :: k in s'.writers ==> k in s.writers && s'.writers[k] == s.writers[k]
    requires forall k :: k in s'.reclaims ==> k in s.reclaims && s'.reclaims[k] == s.reclaims[k]
    requires s'.sweep == [] || (s'.sweep == s.sweep && s'.reclaims == s.reclaims && s'.writers == s.writers)
    ensures Inv(s')
  {
    RecordsFrame(s, s');
    forall k | k in s'.writers ensures WriterOK(s', k) { assert WriterOK(s, k); WriterFrame(s, s', k); }
    ReclaimsFrame(s, s');
    LevelsFrame(s, s');
  }

  /** Moving the next position up, and half-written files coming or going, touch nothing else. */
  lemma TornKeeps(s: State, s': State)
    requires Inv(s) && s' == s.(torn := s'.torn, next := s'.next) && s.next <= s'.next
    ensures Inv(s')
  {
    RecordsFrame(s, s');
    forall k | k in s'.writers ensures WriterOK(s', k) { assert WriterOK(s, k); WriterFrame(s, s', k); }
    ReclaimsFrame(s, s');
    LevelsFrame(s, s');
  }

  lemma StartReclaimKeeps(s: State, key: ArchiveKey)
    requires Inv(s) && Enabled(s, StartReclaim(key))
    ensures Inv(Apply(s, StartReclaim(key)))
  {
    var s' := Apply(s, StartReclaim(key));
    RecordsFrame(s, s');
    forall k | k in s'.writers ensures WriterOK(s', k) { assert WriterOK(s, k); WriterFrame(s, s', k); }
    forall k | k in s'.reclaims ensures ReclaimOK(s', k) { if k != key { assert ReclaimOK(s, k); } }
    LevelsFrame(s, s');
  }

  // ---------------------------------------------------------------- removals

  lemma RemoveLeavesRest(s: State, p: int)
    requires Holding(s.files, s.next, s.committed)
    requires forall key :: key in s.committed && s.committed[key].Uses(p) ==> s.committed[key].commit == p
    ensures var s' := Remove(s, p); Holding(s'.files, s'.next, s'.committed)
  {
    var s' := Remove(s, p);
    RemovalDropsOne(s.files, s.next, s.committed, s'.committed, p);
  }

  lemma RemovalDropsOne(files: Files, n: nat, committed: Ledger, rest: Ledger, p: int)
    requires Holding(files, n, committed)
    requires forall key :: key in committed && committed[key].Uses(p) ==> committed[key].commit == p
    requires rest == map key | key in committed && committed[key].commit != p :: committed[key]
    ensures Holding(files - {p}, n, rest)
  {
    var files' := files - {p};
    forall key | key in rest ensures Whole(files', key, rest[key]) {
      var w := rest[key];
      assert !w.Uses(p);
      assert w.Uses(w.commit) && FooterOn(files', w.commit, key);
      forall i | 0 <= i < |w.parts| ensures PartOn(files', w.parts[i], key, i) {
        assert w.Uses(w.parts[i]) && PartOn(files, w.parts[i], key, i);
      }
      assert w.index.Some? ==> IndexOn(files, w.index.value, key);
      forall q, i | 0 <= i < |w.parts| && PartOn(files', q, key, i) ensures q <= w.parts[i] { assert PartOn(files, q, key, i); }
      forall q | IndexOn(files', q, key) ensures w.index.Some? && q <= w.index.value { assert IndexOn(files, q, key); }
    }
    forall q, key | FooterOn(files', q, key) ensures key in rest && q == rest[key].commit { assert FooterOn(files, q, key); }
  }

  /** The next file a reclaim removes is no other archive's, and of its own archive it is the
      footer if that archive is still committed here under this record. */
  lemma ReclaimTarget(s: State, key: ArchiveKey, k: ArchiveKey)
    requires Holding(s.files, s.next, s.committed) && RecordsOK(s) && ReclaimsOK(s)
    requires key in s.reclaims && s.reclaims[key] != []
    requires k in s.committed && s.committed[k].Uses(s.reclaims[key][0])
    ensures k == key && s.committed[k].commit == s.reclaims[key][0] && Agrees(s.catalog[key], s.committed[key])
  {
    var p := s.reclaims[key][0];
    assert ReclaimOK(s, key) && RecordOK(s, key);
    UsedFile(s.files, s.next, s.committed, k, p);
    assert p in PosFiles(s.catalog[key].Pos());
  }

  lemma RemoveOneKeeps(s: State, key: ArchiveKey)
    requires Inv(s) && Enabled(s, RemoveOne(key))
    ensures Inv(Apply(s, RemoveOne(key)))
  {
    var s' := Apply(s, RemoveOne(key));
    var p := s.reclaims[key][0];
    forall k | k in s.committed && s.committed[k].Uses(p) ensures s.committed[k].commit == p { ReclaimTarget(s, key, k); }
    RemoveLeavesRest(s, p);
    RecordsFrame(s, s');
    LevelsFrame(s, s');
    RemoveOneWriters(s, key);
    RemoveOneReclaims(s, key);
  }

  /** The first file a reclaim removes un-commits no archive but its own. */
  lemma OnlyOwnFooterGoes(s: State, key: ArchiveKey, k: ArchiveKey)
    requires Holding(s.files, s.next, s.committed) && RecordsOK(s) && ReclaimsOK(s)
    requires Enabled(s, RemoveOne(key)) && k in s.committed && s.committed[k].commit == s.reclaims[key][0]
    ensures k == key && Agrees(s.catalog[key], s.committed[key])
  {
    assert s.committed[k].Uses(s.committed[k].commit);
    ReclaimTarget(s, key, k);
  }

  lemma RemoveOneWriters(s: State, key: ArchiveKey)
    requires Holding(s.files, s.next, s.committed) && RecordsOK(s) && ReclaimsOK(s) && WritersOK(s)
    requires Enabled(s, RemoveOne(key))
    ensures WritersOK(Apply(s, RemoveOne(key)))
  {
    var s' := Apply(s, RemoveOne(key));
    var p := s.reclaims[key][0];
    assert ReclaimOK(s, key) && RecordOK(s, key);
    assert p in PosFiles(s.catalog[key].Pos());
    forall k | k in s'.writers ensures WriterOK(s', k) {
      assert WriterOK(s, k);
      if k in s.committed && s.committed[k].commit == p { OnlyOwnFooterGoes(s, key, k); }
      WriterFrame(s, s', k);
    }
  }

  lemma RemoveOneReclaims(s: State, key: ArchiveKey)
    requires Holding(s.files, s.next, s.committed) && RecordsOK(s) && ReclaimsOK(s)
    requires Enabled(s, RemoveOne(key))
    ensures ReclaimsOK(Apply(s, RemoveOne(key)))
  {
    var s' := Apply(s, RemoveOne(key));
    forall k | k in s'.reclaims ensures ReclaimOK(s', k) {
      assert ReclaimOK(s, k);
      if k == key && key in s.committed && Agrees(s.catalog[key], s.committed[key]) {
        assert s.reclaims[key][0] == s.committed[key].commit;
      }
    }
  }

  lemma ForgetKeeps(s: State, key: ArchiveKey)
    requires Inv(s) && Enabled(s, Forget(key))
    ensures Inv(Apply(s, Forget(key)))
  {
    var s' := Apply(s, Forget(key));
    assert ReclaimOK(s, key);
    forall k | k in s'.catalog ensures RecordOK(s', k) { assert RecordOK(s, k); }
    forall k | k in s'.writers ensures WriterOK(s', k) { assert WriterOK(s, k); WriterFrame(s, s', k); }
    forall k | k in s'.reclaims ensures ReclaimOK(s', k) {
      assert ReclaimOK(s, k);
      assert Present(s, k) && Present(s, key);
    }
    LevelsFrame(s, s');
  }

  /** The catalog's known positions are footer-closed: stale records cannot hide half of a
      committed archive from the sweep. */
  lemma KnownIsFooterClosed(s: State)
    requires Holding(s.files, s.next, s.committed) && RecordsOK(s)
    ensures FooterClosed(s.committed, KnownPositions(s.catalog))
  {
    var known := KnownPositions(s.catalog);
    forall key, p | key in s.committed && s.committed[key].commit in known && s.committed[key].Uses(p) ensures p in known {
      var w := s.committed[key];
      var k :| k in s.catalog && w.commit in PosFiles(s.catalog[k].Pos());
      assert RecordOK(s, k) && FooterOn(s.files, w.commit, key);
      assert w.Uses(w.commit);
      PosFilesOfWritten(w, p);
    }
  }

  lemma StartSweepKeeps(s: State)
    requires Inv(s) && Enabled(s, StartSweep)
    ensures Inv(Apply(s, StartSweep))
  {
    var s' := Apply(s, StartSweep);
    var known := KnownPositions(s.catalog);
    KnownIsFooterClosed(s);
    SweepSafeIff(s.files, s.next, s.committed, known);
    var files := OrphansOf(Listing(s.files, s.next), known);
    forall p | p in s'.sweep ensures !InCommitted(s'.committed, p) {
      var i :| 0 <= i < |files| && files[i].pos == p;
      assert files[i] in files;
    }
    RecordsFrame(s, s');
    LevelsFrame(s, s');
  }

  /** What the sweep removes is in no committed archive. */
  lemma SweptIsFree(s: State)
    requires Holding(s.files, s.next, s.committed) && SweepOK(s) && s.sweep != []
    ensures var s' := Remove(s, s.sweep[0]); s'.committed == s.committed && Holding(s'.files, s'.next, s'.committed)
  {
    var p := s.sweep[0];
    assert !InCommitted(s.committed, p);
    forall key | key in s.committed ensures !s.committed[key].Uses(p) && s.committed[key].commit != p {
      assert s.committed[key].Uses(s.committed[key].commit);
    }
    RemoveLeavesRest(s, p);
    assert Remove(s, p).committed == s.committed;
  }

  lemma SweepOneKeeps(s: State, refused: bool)
    requires Inv(s) && Enabled(s, SweepOne(refused))
    ensures Inv(Apply(s, SweepOne(refused)))
  {
    var s' := Apply(s, SweepOne(refused));
    SweptIsFree(s);
    assert s'.committed == s.committed;
    RecordsFrame(s, s');
    LevelsFrame(s, s');
  }

  /** A scan records exactly what is committed, where it was written. */
  lemma RebuiltIsCommitted(s: State)
    requires Holding(s.files, s.next, s.committed)
    ensures Rebuilt(s).Keys == s.committed.Keys
    ensures forall key :: key in s.committed ==> Agrees(Rebuilt(s)[key], s.committed[key])
  {
    forall key ensures (key in Rebuilt(s) <==> key in s.committed) && (key in s.committed ==> Agrees(Rebuilt(s)[key], s.committed[key])) {
      ScanFindsWhole(s.files, s.next, s.committed, key);
      if key in s.committed { assert Whole(s.files, key, s.committed[key]); }
    }
  }

  lemma RebuiltRecord(s: State, s': State, k: ArchiveKey)
    requires Holding(s.files, s.next, s.committed) && k in s.committed && k in s'.catalog && Agrees(s'.catalog[k], s.committed[k])
    requires s'.files == s.files && s'.next == s.next && s'.committed == s.committed
    ensures RecordOK(s', k)
  {
    forall p | p in PosFiles(s'.catalog[k].Pos()) ensures p < s.next && p in s.files && s.files[p].key == k {
      PosFilesOfWritten(s.committed[k], p);
      UsedFile(s.files, s.next, s.committed, k, p);
    }
  }

  lemma RebuildKeeps(s: State, full: bool)
    requires Inv(s) && Enabled(s, Rebuild(full))
    ensures Inv(Apply(s, Rebuild(full)))
    ensures forall key :: key in s.committed ==> key in Apply(s, Rebuild(full)).catalog && Agrees(Apply(s, Rebuild(full)).catalog[key], s.committed[key])
  {
    var s' := Apply(s, Rebuild(full));
    RebuiltIsCommitted(s);
    forall k | k in s'.catalog ensures RecordOK(s', k) {
      if k in s.committed { RebuiltRecord(s, s', k); } else { assert RecordOK(s, k); }
    }
    LevelsFrame(s, s');
  }

  lemma ReopenKeeps(s: State)
    requires Inv(s) && Enabled(s, Reopen) && Careful(s, Reopen)
    ensures Inv(Apply(s, Reopen))
  {
    var s' := Apply(s, Reopen);
    forall k | k in s'.catalog ensures RecordOK(s', k) {
      assert RecordOK(s, k);
      forall p | p in PosFiles(s.catalog[k].Pos()) ensures p < s'.next { assert p in KnownPositions(s.catalog); }
    }
    LevelsFrame(s, s');
  }

  lemma AbortKeeps(s: State, key: ArchiveKey)
    requires Inv(s) && Enabled(s, Abort(key))
    ensures Inv(Apply(s, Abort(key)))
  {
    DroppingWorkKeeps(s, Apply(s, Abort(key)));
  }

  lemma CrashKeeps(s: State)
    requires Inv(s) && Enabled(s, Crash)
    ensures Inv(Apply(s, Crash))
  {
    DroppingWorkKeeps(s, Apply(s, Crash));
  }

  lemma TornAppendKeeps(s: State)
    requires Inv(s) && Enabled(s, TornAppend)
    ensures Inv(Apply(s, TornAppend))
  {
    TornKeeps(s, Apply(s, TornAppend));
  }

  lemma ReapKeeps(s: State, pos: nat)
    requires Inv(s) && Enabled(s, ReapTorn(pos))
    ensures Inv(Apply(s, ReapTorn(pos)))
  {
    TornKeeps(s, Apply(s, ReapTorn(pos)));
  }

  lemma LoseKeeps(s: State)
    requires Inv(s) && Enabled(s, LoseCatalog)
    ensures Inv(Apply(s, LoseCatalog))
  {
    LevelsFrame(s, Apply(s, LoseCatalog));
  }

  /** Every step keeps the invariant, whatever is in progress around it. */
  lemma StepKeeps(s: State, op: Op)
    requires Inv(s) && Enabled(s, op) && Careful(s, op)
    ensures Inv(Apply(s, op))
  {
    hide Apply;
    hide Enabled;
    hide Inv;
    match op
    case Begin(key) => BeginKeeps(s, key);
    case PutPart(key) => PutPartKeeps(s, key);
    case PutIndex(key) => PutIndexKeeps(s, key);
    case PutFooter(key, meta) => PutFooterKeeps(s, key, meta);
    case Record(key) => RecordKeeps(s, key);
    case Abort(key) => AbortKeeps(s, key);
    case TornAppend => TornAppendKeeps(s);
    case ReapTorn(pos) => ReapKeeps(s, pos);
    case StartReclaim(key) => StartReclaimKeeps(s, key);
    case RemoveOne(key) => RemoveOneKeeps(s, key);
    case Forget(key) => ForgetKeeps(s, key);
    case StartSweep => StartSweepKeeps(s);
    case SweepOne(refused) => SweepOneKeeps(s, refused);
    case Crash => CrashKeeps(s);
    case LoseCatalog => LoseKeeps(s);
    case Rebuild(full) => RebuildKeeps(s, full);
    case Reopen => ReopenKeeps(s);
  }
}
