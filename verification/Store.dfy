/** An address-identified medium as a map from positions to files, and what committing
    an archive leaves on it. */
module Store {
  import opened Records
  import opened Scan
  import opened Orphans

  type Files = map<int, File>

  /** A location on a medium that carries no label. */
  function Loc(pos: int): FilePos { FilePos("", 0, pos) }

  function Locs(ps: seq<int>): seq<FilePos>
  {
    seq(|ps|, i requires 0 <= i < |ps| => Loc(ps[i]))
  }

  /** Every file below n, by ascending position. */
  function Listing(files: Files, n: nat): seq<FileInfo>
  {
    if n == 0 then []
    else Listing(files, n - 1) + if n - 1 in files then [FileInfo(n - 1, files[n - 1])] else []
  }

  predicate PartOn(files: Files, p: int, key: ArchiveKey, part: int)
  {
    p in files && files[p].kind == ArchivePart && files[p].key == key && files[p].part == part
  }

  predicate IndexOn(files: Files, p: int, key: ArchiveKey)
  {
    p in files && files[p].kind == MemberIndex && files[p].key == key
  }

  predicate FooterOn(files: Files, p: int, key: ArchiveKey)
  {
    p in files && files[p].kind == CommitFooter && files[p].key == key && files[p].footer.Some?
  }

  /** One committed archive: its footer record and the positions its attempt wrote. */
  datatype Written = Written(footer: Archive, parts: seq<int>, commit: int, index: Option<int>)
  {
    function Pos(): ArchivePos
    {
      ArchivePos(Locs(parts), Loc(commit), if index.Some? then Loc(index.value) else NO_FILE)
    }

    predicate Uses(p: int) { p in parts || p == commit || index == Some(p) }
  }

  /** w is whole on the medium under key, and nothing a scan would prefer shadows it. */
  ghost predicate Whole(files: Files, key: ArchiveKey, w: Written)
  {
    && w.parts != [] && w.footer.parts == |w.parts| && w.footer.partMap == Locs(w.parts)
    && w.footer.indexPos == w.Pos().index && w.footer.Key() == key
    && FooterOn(files, w.commit, key) && files[w.commit].footer.value == w.footer
    && (forall i :: 0 <= i < |w.parts| ==> PartOn(files, w.parts[i], key, i))
    && (w.index.Some? ==> IndexOn(files, w.index.value, key) && w.index.value > 0)
    && Unshadowed(files, key, w)
  }

  ghost predicate Unshadowed(files: Files, key: ArchiveKey, w: Written)
  {
    && (forall p, i :: 0 <= i < |w.parts| && PartOn(files, p, key, i) ==> p <= w.parts[i])
    && (forall p :: IndexOn(files, p, key) ==> w.index.Some? && p <= w.index.value)
  }

  type Ledger = map<ArchiveKey, Written>

  /** The medium holds exactly the ledger's archives as committed ones; whatever else is on
      it is leftovers. */
  ghost predicate Holding(files: Files, n: nat, committed: Ledger)
  {
    && (forall p :: p in files ==> 0 <= p < n)
    && (forall key :: key in committed ==> Whole(files, key, committed[key]))
    && (forall p, key :: FooterOn(files, p, key) ==> key in committed && p == committed[key].commit)
  }

  function Without(files: Files, known: set<int>): Files { files - known }

  // ---------------------------------------------------------------- what a scan sees

  /** acc records, for every part, index and footer below n, the highest-placed one. */
  ghost predicate LatestParts(files: Files, n: nat, acc: Maps)
  {
    && (forall p, key, i :: PartOn(files, p, key, i) && 0 <= p < n ==> PartKey(key, i) in acc.parts && acc.parts[PartKey(key, i)].pos >= p)
    && (forall pk :: pk in acc.parts ==>
          acc.parts[pk] == Loc(acc.parts[pk].pos) && 0 <= acc.parts[pk].pos < n && PartOn(files, acc.parts[pk].pos, pk.key, pk.part))
  }

  ghost predicate LatestIndexes(files: Files, n: nat, acc: Maps)
  {
    && (forall p, key :: IndexOn(files, p, key) && 0 <= p < n ==> key in acc.indexes && acc.indexes[key].pos >= p)
    && (forall key :: key in acc.indexes ==>
          acc.indexes[key] == Loc(acc.indexes[key].pos) && 0 <= acc.indexes[key].pos < n && IndexOn(files, acc.indexes[key].pos, key))
  }

  ghost predicate LatestFooters(files: Files, n: nat, acc: Maps)
  {
    && (forall p, key :: FooterOn(files, p, key) && 0 <= p < n ==> key in acc.commits && acc.commits[key].loc.pos >= p)
    && (forall key :: key in acc.commits ==>
          var sc := acc.commits[key];
          sc.loc == Loc(sc.loc.pos) && 0 <= sc.loc.pos < n && FooterOn(files, sc.loc.pos, key) && files[sc.loc.pos].footer.value == sc.arch)
  }

  lemma {:induction false} ScanSeesLatest(files: Files, n: nat)
    ensures LatestParts(files, n, ScanFiles(Listing(files, n), "", 0))
    ensures LatestIndexes(files, n, ScanFiles(Listing(files, n), "", 0))
    ensures LatestFooters(files, n, ScanFiles(Listing(files, n), "", 0))
  {
    if n > 0 {
      ScanSeesLatest(files, n - 1);
      var before := Listing(files, n - 1);
      if n - 1 in files {
        var all := Listing(files, n);
        assert all[..|all| - 1] == before;
        var acc := ScanFiles(before, "", 0);
        NoteKeepsParts(files, n, acc);
        NoteKeepsIndexes(files, n, acc);
        NoteKeepsFooters(files, n, acc);
        assert ScanFiles(all, "", 0) == NoteFile(acc, FileInfo(n - 1, files[n - 1]), "", 0);
      } else {
        assert Listing(files, n) == before;
      }
    }
  }

  lemma NoteKeepsParts(files: Files, n: nat, acc: Maps)
    requires n > 0 && n - 1 in files && LatestParts(files, n - 1, acc)
    ensures LatestParts(files, n, NoteFile(acc, FileInfo(n - 1, files[n - 1]), "", 0))
  {
    var f := files[n - 1];
    var acc' := NoteFile(acc, FileInfo(n - 1, f), "", 0);
    if f.kind == ArchivePart {
      assert acc'.parts == acc.parts[PartKey(f.key, f.part) := Loc(n - 1)];
    } else {
      assert acc'.parts == acc.parts;
    }
  }

  lemma NoteKeepsIndexes(files: Files, n: nat, acc: Maps)
    requires n > 0 && n - 1 in files && LatestIndexes(files, n - 1, acc)
    ensures LatestIndexes(files, n, NoteFile(acc, FileInfo(n - 1, files[n - 1]), "", 0))
  {
    var f := files[n - 1];
    var acc' := NoteFile(acc, FileInfo(n - 1, f), "", 0);
    if f.kind == MemberIndex {
      assert acc'.indexes == acc.indexes[f.key := Loc(n - 1)];
    } else {
      assert acc'.indexes == acc.indexes;
    }
  }

  lemma NoteKeepsFooters(files: Files, n: nat, acc: Maps)
    requires n > 0 && n - 1 in files && LatestFooters(files, n - 1, acc)
    ensures LatestFooters(files, n, NoteFile(acc, FileInfo(n - 1, files[n - 1]), "", 0))
  {
    var f := files[n - 1];
    var acc' := NoteFile(acc, FileInfo(n - 1, f), "", 0);
    if f.kind == CommitFooter && f.footer.Some? {
      assert acc'.commits == acc.commits[f.key := ScannedCommit(f.footer.value, Loc(n - 1))];
    } else {
      assert acc'.commits == acc.commits;
    }
  }

  /** Reading only the surprises is scanning the medium without the known files. */
  lemma {:induction false} SurprisesAreTheRest(files: Files, known: set<int>, n: nat)
    ensures Surprises(Listing(files, n), known) == Listing(Without(files, known), n)
  {
    if n > 0 {
      SurprisesAreTheRest(files, known, n - 1);
      var all := Listing(files, n);
      if n - 1 in files {
        assert all[..|all| - 1] == Listing(files, n - 1);
      } else {
        assert all == Listing(files, n - 1);
      }
    }
  }

  // ---------------------------------------------------------------- what a scan assembles

  /** Every part of a whole archive below the scan's end is seen where its footer says. */
  lemma PartsAsWritten(files: Files, n: nat, acc: Maps, key: ArchiveKey, w: Written, known: set<int>, m: nat)
    requires Whole(files, key, w) && m <= |w.parts|
    requires forall i :: 0 <= i < |w.parts| ==> 0 <= w.parts[i] < n
    requires forall i :: 0 <= i < |w.parts| ==> w.parts[i] !in known
    requires LatestParts(Without(files, known), n, acc)
    requires key in acc.commits && acc.commits[key].arch == w.footer
    ensures PlacedParts(acc, key, m) == Locs(w.parts)[..m]
  {
    if m > 0 {
      PartsAsWritten(files, n, acc, key, w, known, m - 1);
      var rest := Without(files, known);
      var i := m - 1;
      assert PartOn(rest, w.parts[i], key, i);
      var loc := acc.parts[PartKey(key, i)];
      assert PartOn(files, loc.pos, key, i);
      assert loc == Loc(w.parts[i]);
    }
  }

  /** Each archive a full scan assembles lies exactly where its own attempt wrote it. */
  lemma ScanFindsWhole(files: Files, n: nat, committed: Ledger, key: ArchiveKey)
    requires Holding(files, n, committed)
    ensures var acc := ScanFiles(Listing(files, n), "", 0);
      && (key in acc.commits <==> key in committed)
      && (key in committed ==>
            acc.commits[key].arch == committed[key].footer && Placed(acc, key).Pos() == committed[key].Pos())
  {
    var acc := ScanFiles(Listing(files, n), "", 0);
    ScanSeesLatest(files, n);
    if key in acc.commits {
      assert FooterOn(files, acc.commits[key].loc.pos, key);
    }
    if key in committed {
      var w := committed[key];
      assert FooterOn(files, w.commit, key);
      assert acc.commits[key] == ScannedCommit(w.footer, Loc(w.commit));
      assert files - {} == files;
      forall i | 0 <= i < |w.parts| ensures 0 <= w.parts[i] < n { assert PartOn(files, w.parts[i], key, i); }
      PartsAsWritten(files, n, acc, key, w, {}, |w.parts|);
      assert Locs(w.parts)[..|w.parts|] == Locs(w.parts);
      IndexAsWritten(files, n, acc, key, w);
    }
  }

  lemma IndexAsWritten(files: Files, n: nat, acc: Maps, key: ArchiveKey, w: Written)
    requires Whole(files, key, w) && LatestIndexes(files, n, acc)
    requires forall p :: p in files ==> 0 <= p < n
    requires key in acc.commits && acc.commits[key].arch == w.footer
    ensures PlacedIndex(acc, key) == w.Pos().index
  {
    if w.index.Some? {
      assert IndexOn(files, w.index.value, key);
    }
    if key in acc.indexes {
      assert IndexOn(files, acc.indexes[key].pos, key);
    }
  }

  lemma PosFilesOfWritten(w: Written, p: int)
    requires w.index.Some? ==> w.index.value != 0
    ensures p in PosFiles(w.Pos()) <==> w.Uses(p)
  {
    var pos := w.Pos();
    var head := [pos.commit.pos] + if pos.index != NO_FILE then [pos.index.pos] else [];
    var tail := seq(|pos.parts|, i requires 0 <= i < |pos.parts| => pos.parts[i].pos);
    assert tail == w.parts;
    assert PosFiles(pos) == head + tail;
    assert p in head <==> p == w.commit || w.index == Some(p);
  }
}
