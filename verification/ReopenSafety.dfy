/** When reopening the store is safe: the exact condition on the moment of reopening, over
    everything that can happen afterwards. */
module ReopenSafety {
  import opened Records
  import opened Entries
  import opened Scan
  import opened Orphans
  import opened Store
  import opened Lifecycle
  import opened CrashSafety

  /** From s some run whose reopenings are careful leads to t. */
  ghost predicate CarefullyReaches(s: State, t: State)
  {
    exists ops :: Leads(s, ops, t) && CarefulRun(s, ops)
  }

  /** Every archive a scan assembles is whole. */
  ghost predicate AllWhole(t: State)
  {
    forall key :: key in ScanNow(t).commits ==> AssembledWhole(t.files, ScanNow(t), key)
  }

  /** Whatever happens from here on, later reopenings being careful, no scan meets a torn
      archive. */
  ghost predicate StaysSafe(s: State)
  {
    forall t :: CarefullyReaches(s, t) ==> AllWhole(t)
  }

  // ---------------------------------------------------------------- extending runs

  lemma {:induction false} CarefulStep(s: State, ops: seq<Op>, t: State, op: Op)
    requires Leads(s, ops, t) && CarefulRun(s, ops) && Enabled(t, op) && Careful(t, op)
    ensures CarefulRun(s, ops + [op])
    decreases |ops|
  {
    if ops != [] {
      assert (ops + [op])[0] == ops[0] && (ops + [op])[1..] == ops[1..] + [op];
      CarefulStep(Apply(s, ops[0]), ops[1..], t, op);
    } else {
      assert ([] + [op])[1..] == [];
    }
  }

  lemma Step(s: State, t: State, op: Op)
    requires CarefullyReaches(s, t) && Enabled(t, op) && Careful(t, op)
    ensures CarefullyReaches(s, Apply(t, op))
  {
    var ops :| Leads(s, ops, t) && CarefulRun(s, ops);
    LeadsStep(s, ops, t, op);
    CarefulStep(s, ops, t, op);
  }

  lemma Stay(s: State)
    ensures CarefullyReaches(s, s)
  {
    assert Leads(s, [], s) && CarefulRun(s, []);
  }

  // ---------------------------------------------------------------- careful is safe

  lemma InvIsWhole(t: State)
    requires Inv(t)
    ensures AllWhole(t)
  {
    forall key | key in ScanNow(t).commits ensures AssembledWhole(t.files, ScanNow(t), key) {
      ScanFindsWhole(t.files, t.next, t.committed, key);
      WholeIsAssembledWhole(t.files, t.next, t.committed, key);
    }
  }

  lemma CarefulIsSafe(s: State)
    requires Inv(s) && Enabled(s, Reopen) && Careful(s, Reopen)
    ensures StaysSafe(Apply(s, Reopen))
  {
    ReopenKeeps(s);
    forall t | CarefullyReaches(Apply(s, Reopen), t) ensures AllWhole(t) {
      var ops :| Leads(Apply(s, Reopen), ops, t) && CarefulRun(Apply(s, Reopen), ops);
      RunKeeps(Apply(s, Reopen), ops, t);
      InvIsWhole(t);
    }
  }

  // ---------------------------------------------------------------- an archive of a run not seen before

  lemma {:induction false} LongerThanAll(runs: set<string>) returns (n: nat)
    ensures forall r :: r in runs ==> |r| < n
    decreases |runs|
  {
    if runs == {} {
      n := 0;
    } else {
      var r :| r in runs;
      var m := LongerThanAll(runs - {r});
      n := if |r| < m then m else |r| + 1;
    }
  }

  /** Nothing on the medium or in the catalog is of this archive's run. */
  ghost predicate Unseen(s: State, b: ArchiveKey)
  {
    && (forall k :: k in s.committed || k in s.catalog ==> k.run != b.run)
    && forall p :: p in s.files ==> s.files[p].key.run != b.run
  }

  lemma SomeUnseen(s: State) returns (b: ArchiveKey)
    ensures Unseen(s, b)
  {
    var runs := (set k | k in s.committed :: k.run) + (set k | k in s.catalog :: k.run) + (set p | p in s.files :: s.files[p].key.run);
    var n := LongerThanAll(runs);
    b := ArchiveKey(seq(n, _ => 'r'), "", 0);
    forall k | k in s.committed || k in s.catalog ensures k.run != b.run { assert k.run in runs; }
    forall p | p in s.files ensures s.files[p].key.run != b.run { assert s.files[p].key.run in runs; }
  }

  // ---------------------------------------------------------------- writing it over stale positions

  function Positions(from: nat, m: nat): seq<int> { seq(m, i => from + i) }

  /** m parts of b have been written from where s stood, and nothing else has happened. */
  ghost predicate Wrote(s: State, t: State, b: ArchiveKey, m: nat)
  {
    && t.writers == map[b := Writer(Positions(s.next, m), None, None)] && t.reclaims == map[] && t.sweep == []
    && t.catalog == s.catalog && t.next == s.next + m
    && (forall p :: p in t.files && t.files[p].key == b ==> t.files[p].kind == ArchivePart)
  }

  lemma StartWriting(s: State, b: ArchiveKey)
    requires Quiet(s) && Unseen(s, b)
    ensures Enabled(s, Begin(b)) && Wrote(s, Apply(s, Begin(b)), b, 0)
  {
    var t := Apply(s, Begin(b));
    assert t.writers[b] == Writer(Positions(s.next, 0), None, None);
    assert t.writers == map[b := Writer(Positions(s.next, 0), None, None)];
  }

  lemma WriteOneMore(s: State, t: State, b: ArchiveKey, m: nat)
    requires Wrote(s, t, b, m)
    ensures Enabled(t, PutPart(b)) && Wrote(s, Apply(t, PutPart(b)), b, m + 1)
  {
    assert Positions(s.next, m) + [s.next + m] == Positions(s.next, m + 1);
  }

  lemma {:induction false} WriteParts(s: State, b: ArchiveKey, m: nat) returns (t: State)
    requires Quiet(s) && Unseen(s, b)
    ensures CarefullyReaches(s, t) && Wrote(s, t, b, m)
  {
    if m == 0 {
      Stay(s);
      StartWriting(s, b);
      Step(s, s, Begin(b));
      t := Apply(s, Begin(b));
    } else {
      var u := WriteParts(s, b, m - 1);
      WriteOneMore(s, u, b, m - 1);
      Step(s, u, PutPart(b));
      t := Apply(u, PutPart(b));
    }
  }

  /** b is committed by the footer at q alone, over m parts from where s stood. */
  ghost predicate Sealed(s: State, t: State, b: ArchiveKey, m: nat, q: nat)
  {
    && FooterOn(t.files, q, b) && q < t.next && (forall p :: FooterOn(t.files, p, b) ==> p == q)
    && t.files[q].footer.value.partMap == Locs(Positions(s.next, m))
    && t.catalog == s.catalog && t.sweep == [] && t.writers.Keys == {b}
  }

  lemma FinishWriting(s: State, t: State, b: ArchiveKey, m: nat)
    requires Wrote(s, t, b, m) && m > 0
    ensures Enabled(t, PutFooter(b, Meta(b)))
    ensures var t' := Apply(t, PutFooter(b, Meta(b))); Sealed(s, t', b, m, s.next + m) && t'.reclaims == map[]
  {
  }

  // ---------------------------------------------------------------- reclaiming the stale record

  /** The record's files from the i-th on are still to be removed; b's footer is not among them. */
  ghost predicate Reclaiming(s: State, t: State, b: ArchiveKey, m: nat, q: nat, k: ArchiveKey, pos: seq<int>, i: nat)
  {
    && Sealed(s, t, b, m, q) && q !in pos && i <= |pos| && t.reclaims == map[k := pos[i..]]
    && forall j :: 0 <= j < i ==> pos[j] !in t.files
  }

  lemma RemoveNext(s: State, t: State, b: ArchiveKey, m: nat, q: nat, k: ArchiveKey, pos: seq<int>, i: nat)
    requires Reclaiming(s, t, b, m, q, k, pos, i) && i < |pos|
    ensures Enabled(t, RemoveOne(k)) && Reclaiming(s, Apply(t, RemoveOne(k)), b, m, q, k, pos, i + 1)
  {
    var t' := Apply(t, RemoveOne(k));
    assert pos[i..][0] == pos[i] && pos[i..][1..] == pos[i + 1..];
    assert t'.reclaims == map[k := pos[i + 1..]];
    forall p | FooterOn(t'.files, p, b) ensures p == q { assert FooterOn(t.files, p, b); }
  }

  lemma {:induction false} RemoveAll(s: State, t: State, b: ArchiveKey, m: nat, q: nat, k: ArchiveKey, pos: seq<int>, i: nat) returns (u: State)
    requires CarefullyReaches(s, t) && Reclaiming(s, t, b, m, q, k, pos, 0) && i <= |pos|
    ensures CarefullyReaches(s, u) && Reclaiming(s, u, b, m, q, k, pos, i)
  {
    u := t;
    if i > 0 {
      var v := RemoveAll(s, t, b, m, q, k, pos, i - 1);
      RemoveNext(s, v, b, m, q, k, pos, i - 1);
      Step(s, v, RemoveOne(k));
      u := Apply(v, RemoveOne(k));
    }
  }

  lemma WholeHasParts(files: Files, acc: Maps, key: ArchiveKey, i: nat)
    requires key in acc.commits && i < |acc.commits[key].arch.partMap|
    ensures AssembledWhole(files, acc, key) ==> acc.commits[key].arch.partMap[i].pos in files
  {
    if AssembledWhole(files, acc, key) { assert PartOn(files, Placed(acc, key).parts[i].pos, key, i); }
  }

  lemma LostPartIsTorn(s: State, t: State, b: ArchiveKey, m: nat, q: nat, p: int)
    requires Sealed(s, t, b, m, q) && s.next <= p < s.next + m && p !in t.files
    ensures !AllWhole(t)
  {
    ScanSeesLatest(t.files, t.next);
    var acc := ScanNow(t);
    assert FooterOn(t.files, acc.commits[b].loc.pos, b);
    var i := p - s.next;
    assert acc.commits[b].arch.partMap[i] == Loc(p);
    WholeHasParts(t.files, acc, b, i);
  }

  /** A position no lower than any of the record's. */
  lemma {:induction false} Highest(pos: seq<int>) returns (top: int)
    requires pos != []
    ensures top in pos && forall p :: p in pos ==> p <= top
  {
    top := pos[0];
    if |pos| > 1 {
      var rest := Highest(pos[1..]);
      top := if top < rest then rest else top;
      assert pos == [pos[0]] + pos[1..];
    }
  }

  lemma StartReclaiming(s: State, t: State, b: ArchiveKey, m: nat, q: nat, k: ArchiveKey)
    requires Sealed(s, t, b, m, q) && t.reclaims == map[] && k in s.catalog && k != b
    requires q !in PosFiles(s.catalog[k].Pos())
    ensures Enabled(t, StartReclaim(k)) && Reclaiming(s, Apply(t, StartReclaim(k)), b, m, q, k, PosFiles(s.catalog[k].Pos()), 0)
  {
    var pos := PosFiles(s.catalog[k].Pos());
    assert pos[0..] == pos;
  }

  /** An archive of m parts written whole and sealed above the record's positions. */
  lemma WriteOver(s: State, b: ArchiveKey, m: nat) returns (t: State)
    requires Quiet(s) && Unseen(s, b) && m > 0
    ensures CarefullyReaches(s, t) && Sealed(s, t, b, m, s.next + m) && t.reclaims == map[]
  {
    var u := WriteParts(s, b, m);
    FinishWriting(s, u, b, m);
    Step(s, u, PutFooter(b, Meta(b)));
    t := Apply(u, PutFooter(b, Meta(b)));
  }

  lemma ReclaimUnder(s: State, t: State, b: ArchiveKey, m: nat, q: nat, k: ArchiveKey) returns (u: State)
    requires CarefullyReaches(s, t) && Sealed(s, t, b, m, q) && t.reclaims == map[] && k in s.catalog && k != b
    requires q !in PosFiles(s.catalog[k].Pos())
    ensures CarefullyReaches(s, u) && Sealed(s, u, b, m, q) && forall p :: p in PosFiles(s.catalog[k].Pos()) ==> p !in u.files
  {
    var pos := PosFiles(s.catalog[k].Pos());
    StartReclaiming(s, t, b, m, q, k);
    Step(s, t, StartReclaim(k));
    u := RemoveAll(s, Apply(t, StartReclaim(k)), b, m, q, k, pos, |pos|);
  }

  /** A record naming a position at or above the next one: some archive written over it is torn
      by reclaiming the record. */
  lemma StaleAboveTears(s: State, k: ArchiveKey, p: int)
    requires Quiet(s) && k in s.catalog && p in PosFiles(s.catalog[k].Pos()) && p >= s.next
    ensures !StaysSafe(s)
  {
    var b := SomeUnseen(s);
    var top := Highest(PosFiles(s.catalog[k].Pos()));
    var m: nat := top - s.next + 1;
    var t := WriteOver(s, b, m);
    var u := ReclaimUnder(s, t, b, m, s.next + m, k);
    LostPartIsTorn(s, u, b, m, s.next + m, p);
  }

  lemma ReopenedAt(s: State)
    requires Enabled(s, Reopen)
    ensures HighWater(s, Apply(s, Reopen).next) && forall n: nat :: HighWater(s, n) ==> n == Apply(s, Reopen).next
    ensures Quiet(Apply(s, Reopen)) && Apply(s, Reopen).catalog == s.catalog
  {
  }

  /** Reopening a store is safe for good exactly when the catalog names no position at or above
      the one the reopened store will hand out next. When it names one, some archive written
      afterwards is torn by reclaiming the stale record, every later reopening being careful. */
  lemma ReopenSafeIff(s: State)
    requires Inv(s) && Enabled(s, Reopen)
    ensures StaysSafe(Apply(s, Reopen)) <==> Careful(s, Reopen)
  {
    if Careful(s, Reopen) {
      CarefulIsSafe(s);
    } else {
      ReopenedAt(s);
      var n: nat, p :| HighWater(s, n) && p in KnownPositions(s.catalog) && p >= n;
      var k :| k in s.catalog && p in PosFiles(s.catalog[k].Pos());
      StaleAboveTears(Apply(s, Reopen), k, p);
    }
  }
}
