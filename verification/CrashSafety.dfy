/** What holds over whole runs of the medium, and what breaks when positions are reused. */
module CrashSafety {
  import opened Records
  import opened Entries
  import opened Scan
  import opened Orphans
  import opened Store
  import opened SweepSafety
  import opened Lifecycle

  /** ops lead from s to t, each step being enabled where it is taken. */
  ghost predicate Leads(s: State, ops: seq<Op>, t: State)
    decreases |ops|
  {
    if ops == [] then s == t
    else Enabled(s, ops[0]) && Leads(Apply(s, ops[0]), ops[1..], t)
  }

  ghost predicate CarefulRun(s: State, ops: seq<Op>)
    decreases |ops|
  {
    ops == [] || (Enabled(s, ops[0]) && Careful(s, ops[0]) && CarefulRun(Apply(s, ops[0]), ops[1..]))
  }

  lemma {:induction false} RunKeeps(s: State, ops: seq<Op>, t: State)
    requires Inv(s) && Leads(s, ops, t) && CarefulRun(s, ops)
    ensures Inv(t)
    decreases |ops|
  {
    if ops != [] {
      StepKeeps(s, ops[0]);
      RunKeeps(Apply(s, ops[0]), ops[1..], t);
    }
  }

  lemma EmptyHolds()
    ensures Inv(EMPTY)
  {
  }

  /** The archive a scan assembles under key is complete: every part, the index when the
      footer names one, and the footer lie where the assembled record says. */
  ghost predicate AssembledWhole(files: Files, acc: Maps, key: ArchiveKey)
    requires key in acc.commits
  {
    var pa, footer := Placed(acc, key), acc.commits[key].arch;
    && footer.Key() == key && footer.parts >= 1
    && |pa.parts| == footer.parts && pa.parts == footer.partMap && pa.index == footer.indexPos
    && (forall i :: 0 <= i < |pa.parts| ==> pa.parts[i] == Loc(pa.parts[i].pos) && PartOn(files, pa.parts[i].pos, key, i))
    && (pa.index != NO_FILE ==> pa.index == Loc(pa.index.pos) && IndexOn(files, pa.index.pos, key))
    && FooterOn(files, pa.commit.pos, key) && files[pa.commit.pos].footer == Some(footer)
  }

  lemma WholeIsAssembledWhole(files: Files, n: nat, committed: Ledger, key: ArchiveKey)
    requires Holding(files, n, committed) && key in committed
    ensures var acc := ScanFiles(Listing(files, n), "", 0); key in acc.commits && AssembledWhole(files, acc, key)
  {
    ScanFindsWhole(files, n, committed, key);
    var w := committed[key];
    forall i | 0 <= i < |w.parts| ensures PartOn(files, Locs(w.parts)[i].pos, key, i) { assert PartOn(files, w.parts[i], key, i); }
  }

  /** Crash safety: whatever interleaving of writes, reclaims, sweeps and crashes led here,
      a scan assembles exactly the archives committed and not un-committed since, each of
      them whole and where its own attempt wrote it. */
  lemma CrashSafe(ops: seq<Op>, t: State, key: ArchiveKey)
    requires Leads(EMPTY, ops, t) && CarefulRun(EMPTY, ops)
    ensures key in ScanNow(t).commits <==> key in t.committed
    ensures key in ScanNow(t).commits ==>
      AssembledWhole(t.files, ScanNow(t), key) && Placed(ScanNow(t), key).Pos() == t.committed[key].Pos()
  {
    EmptyHolds();
    RunKeeps(EMPTY, ops, t);
    ScanFindsWhole(t.files, t.next, t.committed, key);
    if key in t.committed { WholeIsAssembledWhole(t.files, t.next, t.committed, key); }
  }

  /** Durability: once committed, an archive is assembled unchanged after every step but the
      ones that remove files in its own reclaim. */
  lemma OnlyOwnReclaimUncommits(s: State, op: Op, key: ArchiveKey)
    requires Inv(s) && Enabled(s, op) && Careful(s, op)
    requires key in ScanNow(s).commits && op != RemoveOne(key)
    ensures var s' := Apply(s, op);
      && key in ScanNow(s').commits
      && Placed(ScanNow(s'), key) == Placed(ScanNow(s), key) && Content(ScanNow(s'), key) == Content(ScanNow(s), key)
  {
    var s' := Apply(s, op);
    StepKeeps(s, op);
    ScanFindsWhole(s.files, s.next, s.committed, key);
    StaysCommitted(s, op, key);
    ScanFindsWhole(s'.files, s'.next, s'.committed, key);
  }

  /** The archive is committed after the step as it was before. */
  ghost predicate Stays(s: State, op: Op, key: ArchiveKey)
    requires Enabled(s, op) && key in s.committed
  {
    key in Apply(s, op).committed && Apply(s, op).committed[key] == s.committed[key]
  }

  lemma RemovalSpares(s: State, k: ArchiveKey, key: ArchiveKey)
    requires Inv(s) && Enabled(s, RemoveOne(k)) && key in s.committed && k != key
    ensures Stays(s, RemoveOne(k), key)
  {
    var w := s.committed[key];
    assert w.Uses(w.commit);
    if w.commit == s.reclaims[k][0] { ReclaimTarget(s, k, key); }
  }

  lemma SweepSpares(s: State, refused: bool, key: ArchiveKey)
    requires Inv(s) && Enabled(s, SweepOne(refused)) && key in s.committed
    ensures Stays(s, SweepOne(refused), key)
  {
    assert s.committed[key].Uses(s.committed[key].commit);
    assert !InCommitted(s.committed, s.sweep[0]);
  }

  lemma FooterSpares(s: State, k: ArchiveKey, meta: Archive, key: ArchiveKey)
    requires WritersOK(s) && Enabled(s, PutFooter(k, meta)) && key in s.committed
    ensures Stays(s, PutFooter(k, meta), key)
  {
    assert WriterOK(s, k);
  }

  lemma StaysCommitted(s: State, op: Op, key: ArchiveKey)
    requires Inv(s) && Enabled(s, op) && key in s.committed && op != RemoveOne(key)
    ensures key in Apply(s, op).committed && Apply(s, op).committed[key] == s.committed[key]
  {
    match op
    case RemoveOne(k) => RemovalSpares(s, k, key);
    case SweepOne(refused) => SweepSpares(s, refused, key);
    case PutFooter(k, meta) => FooterSpares(s, k, meta, key);
    case _ =>
  }

  /** An archive's own reclaim un-commits it with the first file it removes. */
  lemma FirstRemovalUncommits(s: State, key: ArchiveKey)
    requires Inv(s) && Enabled(s, RemoveOne(key)) && key in s.committed && Agrees(s.catalog[key], s.committed[key])
    ensures key !in ScanNow(Apply(s, RemoveOne(key))).commits
  {
    var s' := Apply(s, RemoveOne(key));
    RemoveOneKeeps(s, key);
    assert ReclaimOK(s, key);
    ScanFindsWhole(s'.files, s'.next, s'.committed, key);
  }

  // ---------------------------------------------------------------- live catalog and rebuild

  /** A step in which nothing goes wrong: no crash, no lost cache, no commit left unrecorded. */
  predicate Orderly(s: State, op: Op)
  {
    && !op.Crash? && !op.LoseCatalog?
    && (op.Abort? && op.key in s.writers ==> s.writers[op.key].sealed.None?)
  }

  /** The catalog and the medium tell the same story outside the archives in hand. */
  ghost predicate InStep(s: State)
  {
    match s
    case State(_, _, _, writers, reclaims, _, catalog, committed) =>
      && (forall key :: key in committed && key !in writers ==> key in catalog && Agrees(catalog[key], committed[key]))
      && (forall key :: key in writers && key in committed ==> writers[key].sealed.Some?)
      && (forall key :: key in catalog && key !in reclaims ==> key in committed && Agrees(catalog[key], committed[key]))
      && (forall key :: key in writers ==> key !in catalog)
  }

  /** The steps that only start something. */
  predicate Opens(op: Op) { op.Begin? || op.StartReclaim? || op.StartSweep? || op.TornAppend? || op.ReapTorn? }

  /** The steps of an archive being written. */
  predicate Advances(op: Op) { op.PutPart? || op.PutIndex? || op.PutFooter? || op.Record? || op.Abort? }

  lemma OrderlyStep(s: State, op: Op)
    requires Inv(s) && InStep(s) && Enabled(s, op) && Orderly(s, op)
    ensures Careful(s, op) && InStep(Apply(s, op))
  {
    hide Apply;
    hide Enabled;
    if Opens(op) {
      OpeningStaysInStep(s, op);
    } else if Advances(op) {
      WritingStaysInStep(s, op);
    } else {
      match op
      case Reopen =>
        ReopenIsCareful(s);
        ReopenStaysInStep(s);
      case Rebuild(full) => RebuildStaysInStep(s, full);
      case SweepOne(refused) => SweepStaysInStep(s, refused);
      case RemoveOne(key) => RemovalStaysInStep(s, key);
      case Forget(key) => ForgetStaysInStep(s, key);
    }
  }

  lemma OpeningStaysInStep(s: State, op: Op)
    requires InStep(s) && Enabled(s, op)
    requires Opens(op)
    ensures InStep(Apply(s, op))
  {
  }

  lemma FooterStaysInStep(s: State, key: ArchiveKey, meta: Archive)
    requires WritersOK(s) && InStep(s) && Enabled(s, PutFooter(key, meta))
    ensures InStep(Apply(s, PutFooter(key, meta)))
  {
    assert WriterOK(s, key);
  }

  lemma RecordStaysInStep(s: State, key: ArchiveKey)
    requires WritersOK(s) && InStep(s) && Enabled(s, Record(key))
    ensures InStep(Apply(s, Record(key)))
  {
    assert WriterOK(s, key);
  }

  lemma AbortStaysInStep(s: State, key: ArchiveKey)
    requires WritersOK(s) && InStep(s) && Enabled(s, Abort(key)) && s.writers[key].sealed.None?
    ensures InStep(Apply(s, Abort(key)))
  {
    assert WriterOK(s, key);
  }

  lemma AppendStaysInStep(s: State, op: Op)
    requires WritersOK(s) && InStep(s) && Enabled(s, op) && (op.PutPart? || op.PutIndex?)
    ensures InStep(Apply(s, op))
  {
    assert WriterOK(s, op.key);
  }

  lemma WritingStaysInStep(s: State, op: Op)
    requires WritersOK(s) && InStep(s) && Enabled(s, op) && Orderly(s, op) && Advances(op)
    ensures InStep(Apply(s, op))
  {
    hide Apply;
    match op
    case PutFooter(key, meta) => FooterStaysInStep(s, key, meta);
    case Record(key) => RecordStaysInStep(s, key);
    case Abort(key) => AbortStaysInStep(s, key);
    case PutPart(key) => AppendStaysInStep(s, op);
    case PutIndex(key) => AppendStaysInStep(s, op);
  }

  lemma RebuildStaysInStep(s: State, full: bool)
    requires Inv(s) && InStep(s) && Enabled(s, Rebuild(full))
    ensures InStep(Apply(s, Rebuild(full)))
  {
    RebuiltIsCommitted(s);
  }

  lemma SweepStaysInStep(s: State, refused: bool)
    requires SweepOK(s) && InStep(s) && Enabled(s, SweepOne(refused))
    ensures InStep(Apply(s, SweepOne(refused)))
  {
    forall key | key in s.committed ensures s.committed[key].commit != s.sweep[0] {
      assert s.committed[key].Uses(s.committed[key].commit);
      assert !InCommitted(s.committed, s.sweep[0]);
    }
  }

  lemma RemovalStaysInStep(s: State, key: ArchiveKey)
    requires Holding(s.files, s.next, s.committed) && RecordsOK(s) && ReclaimsOK(s)
    requires InStep(s) && Enabled(s, RemoveOne(key))
    ensures InStep(Apply(s, RemoveOne(key)))
  {
    assert ReclaimOK(s, key);
    forall k | k in s.committed && s.committed[k].commit == s.reclaims[key][0] ensures k == key {
      assert s.committed[k].Uses(s.committed[k].commit);
      ReclaimTarget(s, key, k);
    }
  }

  lemma ForgetStaysInStep(s: State, key: ArchiveKey)
    requires ReclaimsOK(s) && OneLevel(s) && InStep(s) && Enabled(s, Forget(key))
    ensures InStep(Apply(s, Forget(key)))
  {
    assert ReclaimOK(s, key);
    assert PosFiles(s.catalog[key].Pos()) != [];
    forall k | k in s.catalog && SameDle(k, key) ensures k == key { assert Present(s, k) && Present(s, key); }
  }

  lemma ReopenStaysInStep(s: State)
    requires InStep(s) && Enabled(s, Reopen)
    ensures InStep(Apply(s, Reopen))
  {
  }

  lemma ReopenIsCareful(s: State)
    requires Inv(s) && InStep(s) && Enabled(s, Reopen)
    ensures Careful(s, Reopen)
  {
    forall n: nat, p | HighWater(s, n) && p in KnownPositions(s.catalog) ensures p < n {
      var k :| k in s.catalog && p in PosFiles(s.catalog[k].Pos());
      assert Whole(s.files, k, s.committed[k]);
      PosFilesOfWritten(s.committed[k], p);
      UsedFile(s.files, s.next, s.committed, k, p);
    }
  }

  ghost predicate OrderlyRun(s: State, ops: seq<Op>)
    decreases |ops|
  {
    ops == [] || (Enabled(s, ops[0]) && Orderly(s, ops[0]) && OrderlyRun(Apply(s, ops[0]), ops[1..]))
  }

  lemma {:induction false} OrderlyRunKeeps(s: State, ops: seq<Op>, t: State)
    requires Inv(s) && InStep(s) && Leads(s, ops, t) && OrderlyRun(s, ops)
    ensures Inv(t) && InStep(t)
    decreases |ops|
  {
    if ops != [] {
      OrderlyStep(s, ops[0]);
      StepKeeps(s, ops[0]);
      OrderlyRunKeeps(Apply(s, ops[0]), ops[1..], t);
    }
  }

  lemma SameRecords(a: map<ArchiveKey, PlacedArchive>, b: map<ArchiveKey, PlacedArchive>, committed: Ledger)
    requires a.Keys == committed.Keys && b.Keys == committed.Keys
    requires forall k :: k in committed ==> Agrees(a[k], committed[k]) && Agrees(b[k], committed[k])
    ensures a == b
  {
  }

  lemma QuietCatalog(t: State)
    requires InStep(t) && Quiet(t)
    ensures t.catalog.Keys == t.committed.Keys && forall k :: k in t.committed ==> Agrees(t.catalog[k], t.committed[k])
  {
  }

  lemma RebuiltIsCatalog(t: State)
    requires Inv(t) && InStep(t) && Quiet(t)
    ensures Rebuilt(t) == t.catalog
  {
    RebuiltIsCommitted(t);
    QuietCatalog(t);
    SameRecords(Rebuilt(t), t.catalog, t.committed);
  }

  // ---------------------------------------------------------------- removal order and reuse

  /** The footer is on the medium and a file it names is not. */
  ghost predicate Torn(files: Files, w: Written)
  {
    w.commit in files && exists p :: w.Uses(p) && p !in files
  }

  function Taken(order: seq<int>, m: nat): set<int>
    requires m <= |order|
  {
    set i | 0 <= i < m :: order[i]
  }

  lemma WholeHas(files: Files, key: ArchiveKey, w: Written, p: int)
    requires Whole(files, key, w)
    ensures w.Uses(p) ==> p in files
  {
    if p in w.parts {
      var i :| 0 <= i < |w.parts| && w.parts[i] == p;
      assert PartOn(files, w.parts[i], key, i);
    }
  }

  /** Deleting an archive's files in some order never exposes a torn archive, wherever it is
      interrupted, exactly when the footer goes first. */
  lemma FooterFirstIff(files: Files, key: ArchiveKey, w: Written, order: seq<int>)
    requires Whole(files, key, w)
    requires forall p :: p in order <==> w.Uses(p)
    ensures (forall m :: 0 <= m <= |order| ==> !Torn(files - Taken(order, m), w)) <==> order != [] && order[0] == w.commit
  {
    assert w.Uses(w.commit) && w.Uses(w.parts[0]);
    assert w.commit in order;
    forall p | w.Uses(p) ensures p in files { WholeHas(files, key, w, p); }
    if order[0] != w.commit {
      assert Taken(order, 1) == {order[0]};
      assert w.Uses(order[0]);
      assert Torn(files - Taken(order, 1), w);
    } else {
      forall m | 0 <= m <= |order| ensures !Torn(files - Taken(order, m), w) {
        if m > 0 { assert order[0] in Taken(order, m); }
      }
    }
  }

  ghost predicate OthersStayWhole(files: Files, committed: Ledger, key: ArchiveKey, pos: seq<int>)
  {
    forall m, k :: 0 <= m <= |pos| && k in committed && k != key ==> Whole(files - Taken(pos, m), k, committed[k])
  }

  /** Reclaiming by recorded positions, without looking at the files there, spares every other
      archive at every interruption point exactly when no position is another archive's. */
  lemma ReclaimSparesIff(files: Files, n: nat, committed: Ledger, key: ArchiveKey, pos: seq<int>)
    requires Holding(files, n, committed)
    ensures OthersStayWhole(files, committed, key, pos) <==>
      forall p, k :: p in pos && k in committed && k != key ==> !committed[k].Uses(p)
  {
    if forall p, k :: p in pos && k in committed && k != key ==> !committed[k].Uses(p) {
      forall m, k | 0 <= m <= |pos| && k in committed && k != key ensures Whole(files - Taken(pos, m), k, committed[k]) {
        forall p | p in Taken(pos, m) ensures !committed[k].Uses(p) { assert p in pos; }
        StaysWhole(files, k, committed[k], Taken(pos, m));
      }
    }
    if OthersStayWhole(files, committed, key, pos) {
      forall p, k | p in pos && k in committed && k != key ensures !committed[k].Uses(p) {
        assert Whole(files - Taken(pos, |pos|), k, committed[k]);
        assert p in Taken(pos, |pos|);
        WholeHas(files - Taken(pos, |pos|), k, committed[k], p);
      }
    }
  }

  lemma StaysWhole(files: Files, key: ArchiveKey, w: Written, gone: set<int>)
    requires Whole(files, key, w) && forall p :: p in gone ==> !w.Uses(p)
    ensures Whole(files - gone, key, w)
  {
    assert w.Uses(w.commit);
    forall i | 0 <= i < |w.parts| ensures PartOn(files - gone, w.parts[i], key, i) {
      assert w.Uses(w.parts[i]) && PartOn(files, w.parts[i], key, i);
    }
    assert w.index.Some? ==> w.Uses(w.index.value) && IndexOn(files, w.index.value, key);
    forall p, i | 0 <= i < |w.parts| && PartOn(files - gone, p, key, i) ensures p <= w.parts[i] { assert PartOn(files, p, key, i); }
    forall p | IndexOn(files - gone, p, key) ensures w.index.Some? && p <= w.index.value { assert IndexOn(files, p, key); }
  }

  /** Appending one more part of an archive leaves what a scan assembles alone exactly when
      that part is not one a committed copy already has: hence a copy is reclaimed before it
      is written again. */
  lemma PartAppendSafeIff(files: Files, n: nat, committed: Ledger, key: ArchiveKey, i: nat)
    requires Holding(files, n, committed)
    ensures var after := ScanFiles(Listing(files[n := File(ArchivePart, key, i, None)], n + 1), "", 0);
      (forall k :: k in committed ==> k in after.commits && Placed(after, k).Pos() == committed[k].Pos()) <==>
      !(key in committed && i < |committed[key].parts|)
  {
    var files' := files[n := File(ArchivePart, key, i, None)];
    var after := ScanFiles(Listing(files', n + 1), "", 0);
    if key in committed && i < |committed[key].parts| {
      var w := committed[key];
      ScanSeesLatest(files', n + 1);
      assert PartOn(files', n, key, i);
      assert FooterOn(files, w.commit, key) && FooterOn(files', w.commit, key);
      assert PartOn(files, w.parts[i], key, i);
      assert FooterOn(files, after.commits[key].loc.pos, key);
      assert PartLoc(after, key, i) == Some(Loc(n));
      PlacedPartsHas(after, key, PartCount(w.footer), i, Loc(n));
      forall j | 0 <= j < |w.parts| ensures w.parts[j] != n { assert PartOn(files, w.parts[j], key, j); }
      assert forall j :: 0 <= j < |w.parts| ==> Locs(w.parts)[j] != Loc(n);
    } else {
      HoldingWithPart(files, n, committed, key, i);
      forall k | k in committed ensures k in after.commits && Placed(after, k).Pos() == committed[k].Pos() {
        ScanFindsWhole(files', n + 1, committed, k);
      }
    }
  }

  lemma HoldingWithPart(files: Files, n: nat, committed: Ledger, key: ArchiveKey, i: nat)
    requires Holding(files, n, committed) && !(key in committed && i < |committed[key].parts|)
    ensures Holding(files[n := File(ArchivePart, key, i, None)], n + 1, committed)
  {
    var files' := files[n := File(ArchivePart, key, i, None)];
    forall k | k in committed ensures Whole(files', k, committed[k]) {
      var w := committed[k];
      assert FooterOn(files, w.commit, k);
      forall j | 0 <= j < |w.parts| ensures PartOn(files', w.parts[j], k, j) { assert PartOn(files, w.parts[j], k, j); }
      forall p, j | 0 <= j < |w.parts| && PartOn(files', p, k, j) ensures p <= w.parts[j] { assert p != n ==> PartOn(files, p, k, j); }
      forall p | IndexOn(files', p, k) ensures w.index.Some? && p <= w.index.value { assert IndexOn(files, p, k); }
    }
    forall p, k | FooterOn(files', p, k) ensures k in committed && p == committed[k].commit { assert FooterOn(files, p, k); }
  }

  // ---------------------------------------------------------------- a reused position

  lemma {:induction false} LeadsStep(s: State, ops: seq<Op>, t: State, op: Op)
    requires Leads(s, ops, t) && Enabled(t, op)
    ensures Leads(s, ops + [op], Apply(t, op))
    decreases |ops|
  {
    if ops != [] {
      assert (ops + [op])[0] == ops[0] && (ops + [op])[1..] == ops[1..] + [op];
      LeadsStep(Apply(s, ops[0]), ops[1..], t, op);
    } else {
      assert ([] + [op])[1..] == [];
    }
  }

  function FirstKey(): ArchiveKey { ArchiveKey("run-1", "a", 0) }
  function SecondKey(): ArchiveKey { ArchiveKey("run-2", "b", 0) }
  function Meta(key: ArchiveKey): Archive { NO_ARCHIVE.(run := key.run, dle := key.dle, level := key.level) }

  ghost predicate Reachable(s: State) { exists ops :: Leads(EMPTY, ops, s) }

  lemma ReachStep(s: State, op: Op) returns (t: State)
    requires Reachable(s) && Enabled(s, op)
    ensures Reachable(t) && t == Apply(s, op)
  {
    var ops :| Leads(EMPTY, ops, s);
    LeadsStep(EMPTY, ops, s, op);
    t := Apply(s, op);
  }

  lemma WritePart(s: State, key: ArchiveKey) returns (t: State)
    requires Reachable(s) && Enabled(s, Begin(key)) && s.writers == map[]
    ensures Reachable(t)
    ensures t == s.(files := s.files[s.next := File(ArchivePart, key, 0, None)], next := s.next + 1,
                    writers := map[key := Writer([s.next], None, None)])
  {
    var s1 := ReachStep(s, Begin(key));
    t := ReachStep(s1, PutPart(key));
    assert t.writers[key] == Writer([s.next], None, None);
    assert t.writers == map[key := Writer([s.next], None, None)];
  }

  lemma Finish(s: State, key: ArchiveKey, meta: Archive) returns (t: State)
    requires Reachable(s) && Enabled(s, PutFooter(key, meta)) && s.writers.Keys == {key}
    ensures Reachable(t)
    ensures var w := Written(Footer(meta, s.writers[key]), s.writers[key].parts, s.next, s.writers[key].index);
      t == s.(files := s.files[s.next := File(CommitFooter, key, 0, Some(w.footer))], next := s.next + 1,
              writers := map[], committed := s.committed[key := w],
              catalog := s.catalog[key := Place(w.footer, w.Pos())])
  {
    var s1 := ReachStep(s, PutFooter(key, meta));
    t := ReachStep(s1, Record(key));
    assert t.writers == map[];
  }

  /** Reclaims an archive of two files and crashes before its catalog record is dropped. */
  lemma ReclaimAndCrash(s: State, key: ArchiveKey) returns (t: State)
    requires Reachable(s) && s.sweep == [] && s.writers == map[] && s.reclaims == map[]
    requires key in s.catalog && |PosFiles(s.catalog[key].Pos())| == 2
    ensures Reachable(t)
    ensures var pos := PosFiles(s.catalog[key].Pos()); t == Remove(Remove(s, pos[0]), pos[1])
  {
    var s1 := ReachStep(s, StartReclaim(key));
    var s2 := ReachStep(s1, RemoveOne(key));
    var s3 := ReachStep(s2, RemoveOne(key));
    t := ReachStep(s3, Crash);
  }

  /** One archive of one part written and recorded. */
  lemma FirstWritten() returns (s: State)
    ensures Reachable(s) && s.files.Keys == {0, 1} && s.torn == {} && s.next == 2
    ensures s.writers == map[] && s.reclaims == map[] && s.sweep == [] && s.committed.Keys == {FirstKey()}
    ensures s.committed[FirstKey()].commit == 1
    ensures s.catalog.Keys == {FirstKey()} && PosFiles(s.catalog[FirstKey()].Pos()) == [1, 0]
  {
    var a := FirstKey();
    assert Leads(EMPTY, [], EMPTY);
    s := WritePart(EMPTY, a);
    s := Finish(s, a, Meta(a));
    assert PosFiles(s.catalog[a].Pos()) == [1, 0];
  }

  /** One archive written and reclaimed whole, the crash coming before its record is dropped:
      an empty store whose catalog still names positions 0 and 1. */
  lemma StaleRecord() returns (s: State)
    ensures Reachable(s) && s.files == map[] && s.next == 0
    ensures s.writers == map[] && s.reclaims == map[] && s.sweep == [] && s.committed == map[]
    ensures s.catalog.Keys == {FirstKey()} && PosFiles(s.catalog[FirstKey()].Pos()) == [1, 0]
  {
    s := FirstWritten();
    s := ReclaimAndCrash(s, FirstKey());
    assert s.files == map[] && s.committed == map[];
    assert HighWater(s, 0);
    s := ReachStep(s, Reopen);
  }

  /** The second archive written over the positions the stale record names. */
  lemma WrittenOverStale() returns (s: State)
    ensures Reachable(s) && s.next == 3 && s.writers == map[] && s.reclaims == map[] && s.sweep == []
    ensures s.files.Keys == {0, 1, 2} && s.files[0].kind == ArchivePart
    ensures FooterOn(s.files, 2, SecondKey()) && s.files[2].footer.value.indexPos == Loc(1)
    ensures FirstKey() in s.catalog && PosFiles(s.catalog[FirstKey()].Pos()) == [1, 0]
  {
    var b := SecondKey();
    var s0 := StaleRecord();
    var s1 := WritePart(s0, b);
    var s2 := ReachStep(s1, PutIndex(b));
    assert s2.writers.Keys == {b};
    s := Finish(s2, b, Meta(b));
  }

  /** Why reopening needs care: the reopened store hands the stale record's positions out
      again, and reclaiming that record removes the second archive's index under its footer. */
  lemma CarelessReopenTears()
    ensures exists t, key ::
      Reachable(t) && key in ScanNow(t).commits && !AssembledWhole(t.files, ScanNow(t), key)
  {
    var s := WrittenOverStale();
    var s1 := ReachStep(s, StartReclaim(FirstKey()));
    var s2 := ReachStep(s1, RemoveOne(FirstKey()));
    LostIndexIsTorn(s2, SecondKey());
  }

  lemma LostIndexIsTorn(t: State, key: ArchiveKey)
    requires FooterOn(t.files, 2, key) && t.next == 3 && t.files[2].footer.value.indexPos == Loc(1)
    requires t.files.Keys == {0, 2} && t.files[0].kind == ArchivePart
    ensures key in ScanNow(t).commits && !AssembledWhole(t.files, ScanNow(t), key)
  {
    ScanSeesLatest(t.files, t.next);
    var acc := ScanNow(t);
    assert FooterOn(t.files, acc.commits[key].loc.pos, key);
    assert forall p :: !IndexOn(t.files, p, key);
    assert key !in acc.indexes;
    assert PlacedIndex(acc, key) == Loc(1);
  }
}
