/** The run window: a reader's view against the live lists the window's writer overwrites in
    place. The lists are real arrays here, so sharing one would show. */
module Window {
  import opened Records
  import opened Entries
  import opened CatalogState

  /** One live copy of a run: a growable list of placed archives. */
  class LiveCopy {
    const medium: string
    var slots: array<PlacedArchive>
    var len: nat

    constructor (medium: string, pa: PlacedArchive)
      ensures this.medium == medium && len == 1 && slots.Length == 1 && fresh(slots) && slots[0] == pa
    {
      this.medium := medium;
      slots := new PlacedArchive[1](_ => pa);
      len := 1;
    }

    ghost predicate Valid()
      reads this
    {
      len <= slots.Length
    }

    function Items(): seq<PlacedArchive>
      requires Valid()
      reads this, slots
    {
      slots[..len]
    }

    method Find(dle: string, level: int) returns (i: nat)
      requires Valid()
      ensures i == PlacedAt(Items(), dle, level)
    {
      i := 0;
      while i < len && !(slots[i].dle == dle && slots[i].level == level)
        invariant i <= len
        invariant forall j :: 0 <= j < i ==> !(slots[j].dle == dle && slots[j].level == level)
      {
        i := i + 1;
      }
    }

    /** Overwrites the slot of the same (DLE, level), or appends: into spare room when the
        backing array has some, into a fresh array of twice the size when not. */
    method Merge(pa: PlacedArchive)
      requires Valid()
      modifies this`slots, this`len, slots
      ensures Valid() && (slots == old(slots) || fresh(slots))
      ensures Items() == PutPlaced(old(Items()), pa)
      ensures old(slots)[..old(len)] == if PlacedAt(old(Items()), pa.dle, pa.level) < old(len) then Items() else old(Items())
    {
      var i := Find(pa.dle, pa.level);
      if i < len {
        slots[i] := pa;
        assert slots[..len] == old(slots[..len])[i := pa];
      } else {
        if len == slots.Length {
          var bigger := new PlacedArchive[2 * len + 1](_ => pa);
          for k := 0 to len
            invariant slots == old(slots) && len == old(len) && slots[..] == old(slots[..])
            invariant bigger[..k] == slots[..k]
          {
            bigger[k] := slots[k];
          }
          slots := bigger;
        }
        slots[len] := pa;
        len := len + 1;
      }
    }

    /** Replaces the list by a fresh one holding the kept items. */
    method Keep(items: seq<PlacedArchive>)
      modifies this`slots, this`len
      ensures Valid() && fresh(slots) && Items() == items
    {
      slots := new PlacedArchive[|items|](i requires 0 <= i < |items| => items[i]);
      len := |items|;
      assert slots[..len] == items;
    }
  }

  datatype LiveEntry = LiveEntry(run: string, copies: seq<LiveCopy>)

  /** A reader's copy of one placement. */
  datatype CopyView = CopyView(medium: string, archives: array<PlacedArchive>)

  type View = map<string, seq<CopyView>>

  /** What a view returns for every run. */
  type Reading = map<string, seq<Placement>>

  function Footprint(view: View): set<object>
  {
    set run, v | run in view && v in view[run] :: v.archives
  }

  ghost function ReadViews(views: seq<CopyView>): seq<Placement>
    reads set v | v in views :: v.archives
  {
    if views == [] then []
    else [Placement(views[0].medium, views[0].archives[..])] + ReadViews(views[1..])
  }

  ghost function Read(view: View): Reading
    reads Footprint(view)
  {
    map run | run in view :: ReadViews(view[run])
  }

  datatype Step =
    | Add(run: string, medium: string, pa: PlacedArchive)
    | Remove(run: string, medium: string, dle: string)
    | DropCopy(run: string, medium: string)
    | DropStale(lbl: Label)
    | Wipe

  class LiveCatalog {
    var entries: seq<LiveEntry>
    var open: bool
    ghost var Repr: set<object>

    ghost predicate Valid()
      reads this, Repr
    {
      && this !in Repr
      && (forall i, j :: 0 <= i < j < |entries| ==> entries[i].run != entries[j].run)
      && forall i :: 0 <= i < |entries| ==> Owned(entries[i].copies)
    }

    /** The copies and their lists belong to the catalog. */
    ghost predicate Owned(copies: seq<LiveCopy>)
      reads this`Repr, Repr
    {
      forall j :: 0 <= j < |copies| ==> copies[j] in Repr && copies[j].slots in Repr && copies[j].Valid()
    }

    constructor ()
      ensures Valid() && fresh(Repr) && entries == [] && !open
    {
      entries, open := [], false;
      Repr := {};
    }

    /** The live copies as values. */
    ghost function ReadCopies(copies: seq<LiveCopy>): seq<Placement>
      requires Owned(copies)
      reads this`Repr, Repr
    {
      if copies == [] then []
      else [Placement(copies[0].medium, copies[0].Items())] + ReadCopies(copies[1..])
    }

    /** The runs that have an entry. */
    ghost function Runs(): set<string>
      reads this`entries
    {
      set i | 0 <= i < |entries| :: entries[i].run
    }

    ghost predicate Shows(view: View, i: nat)
      requires Valid() && i < |entries|
      reads this, Repr, Footprint(view)
    {
      entries[i].run in view && ReadViews(view[entries[i].run]) == ReadCopies(entries[i].copies)
    }

    /** A window opens once at a time. The view it hands out has the live runs and no other,
        reads as their lists do now, and shares none of them. */
    method OpenWindow() returns (ok: bool, view: View)
      requires Valid()
      modifies this`open
      ensures Valid() && Repr == old(Repr) && entries == old(entries)
      ensures ok == !old(open) && open
      ensures fresh(Footprint(view)) && Footprint(view) !! Repr
      ensures ok ==> view.Keys == Runs() && forall i :: 0 <= i < |entries| ==> Shows(view, i)
    {
      view := map[];
      if open {
        return false, map[];
      }
      open := true;
      ok := true;
      for i := 0 to |entries|
        invariant Valid() && Repr == old(Repr) && entries == old(entries) && open
        invariant fresh(Footprint(view)) && Snapped(view, i)
      {
        view := SnapshotEntry(view, i);
      }
    }

    /** The view has the runs of the first i entries and no other, each as it is listed now. */
    ghost predicate Snapped(view: View, i: nat)
      requires Valid() && i <= |entries|
      reads this, Repr, Footprint(view)
    {
      view.Keys == (set a | 0 <= a < i :: entries[a].run) && forall a :: 0 <= a < i ==> Shows(view, a)
    }

    method SnapshotEntry(before: View, i: nat) returns (view: View)
      requires Valid() && i < |entries| && Snapped(before, i)
      ensures Snapped(view, i + 1)
      ensures forall o :: o in Footprint(view) ==> o in Footprint(before) || fresh(o)
    {
      assert forall a :: 0 <= a < i ==> Shows(before, a);
      assert forall o :: o in Footprint(before) ==> allocated(o);
      var views := SnapshotCopies(entries[i].copies);
      assert Snapped(before, i);
      view := before[entries[i].run := views];
      forall o | o in Footprint(view) ensures o in Footprint(before) || fresh(o) {
        var run, v :| run in view && v in view[run] && o == v.archives;
        if run != entries[i].run { assert run in before && v in before[run]; }
      }
      forall a | 0 <= a < i + 1 ensures Shows(view, a) {
        if a < i {
          assert Shows(before, a);
          assert entries[a].run != entries[i].run;
          assert view[entries[a].run] == before[entries[a].run];
        }
      }
    }

    method SnapshotCopies(copies: seq<LiveCopy>) returns (views: seq<CopyView>)
      requires Owned(copies)
      ensures forall v :: v in views ==> fresh(v.archives)
      ensures ReadViews(views) == ReadCopies(copies)
      decreases |copies|
    {
      if copies == [] {
        return [];
      }
      var rest := SnapshotCopies(copies[1..]);
      var c := copies[0];
      var items := c.Items();
      var archives := new PlacedArchive[|items|](i requires 0 <= i < |items| => items[i]);
      assert archives[..] == items;
      views := [CopyView(c.medium, archives)] + rest;
    }

    // -------------------------------------------------------------- the window's writer

    method FindEntry(run: string) returns (i: nat)
      requires Valid()
      ensures i <= |entries| && (i < |entries| ==> entries[i].run == run)
      ensures i == |entries| ==> forall k :: 0 <= k < |entries| ==> entries[k].run != run
    {
      i := 0;
      while i < |entries| && entries[i].run != run
        invariant i <= |entries| && forall k :: 0 <= k < i ==> entries[k].run != run
      {
        i := i + 1;
      }
    }

    method FindCopy(copies: seq<LiveCopy>, medium: string) returns (j: nat)
      ensures j <= |copies| && (j < |copies| ==> copies[j].medium == medium)
      ensures j == |copies| ==> forall k :: 0 <= k < |copies| ==> copies[k].medium != medium
    {
      j := 0;
      while j < |copies| && copies[j].medium != medium
        invariant j <= |copies| && forall k :: 0 <= k < j ==> copies[k].medium != medium
      {
        j := j + 1;
      }
    }

    ghost predicate Lists(run: string, medium: string, pa: PlacedArchive)
      requires Valid()
      reads this, Repr
    {
      exists i, j :: 0 <= i < |entries| && 0 <= j < |entries[i].copies| && entries[i].run == run &&
        entries[i].copies[j].medium == medium && pa in entries[i].copies[j].Items()
    }

    method AddCopy(i: nat, medium: string, pa: PlacedArchive)
      requires Valid() && i < |entries|
      modifies this`entries, this`Repr
      ensures Valid() && fresh(Repr - old(Repr)) && Lists(old(entries)[i].run, medium, pa)
    {
      var c := new LiveCopy(medium, pa);
      var e := entries[i];
      entries := entries[i := LiveEntry(e.run, e.copies + [c])];
      Repr := Repr + {c, c.slots};
      assert entries[i].copies[|e.copies|] == c && c.Items() == [pa];
    }

    /** Records a placed archive: in its slot when the list has one, at the end when not. */
    method AddPlaced(run: string, medium: string, pa: PlacedArchive)
      requires Valid()
      modifies this`entries, this`Repr, Repr
      ensures Valid() && fresh(Repr - old(Repr)) && Lists(run, medium, pa)
    {
      var i := FindEntry(run);
      if i == |entries| {
        entries := entries + [LiveEntry(run, [])];
      }
      var j := FindCopy(entries[i].copies, medium);
      if j < |entries[i].copies| {
        MergeInto(i, j, pa);
      } else {
        AddCopy(i, medium, pa);
      }
    }

    method MergeInto(i: nat, j: nat, pa: PlacedArchive)
      requires Valid() && i < |entries| && j < |entries[i].copies|
      modifies this`Repr, Repr
      ensures Valid() && fresh(Repr - old(Repr)) && Lists(entries[i].run, old(entries[i].copies[j].medium), pa)
    {
      var c := entries[i].copies[j];
      assert Owned(entries[i].copies);
      c.Merge(pa);
      Repr := Repr + {c.slots};
      assert pa == c.Items()[PlacedAt(old(c.Items()), pa.dle, pa.level)];
    }

    /** Drops one DLE's records from a run's copy on a medium, then whatever that empties. */
    method RemoveArchive(run: string, medium: string, dle: string)
      requires Valid()
      modifies this`entries, this`Repr, Repr
      ensures Valid() && fresh(Repr - old(Repr))
    {
      var i := FindEntry(run);
      if i < |entries| {
        var j := FindCopy(entries[i].copies, medium);
        if j < |entries[i].copies| {
          var c := entries[i].copies[j];
          assert Owned(entries[i].copies);
          c.Keep(KeepDles(c.Items(), dle));
          Repr := Repr + {c.slots};
        }
        DropEmptied(i);
      }
    }

    method NonEmpty(copies: seq<LiveCopy>) returns (kept: seq<LiveCopy>)
      requires Owned(copies)
      ensures Owned(kept)
      ensures forall c :: c in kept <==> c in copies && c.len > 0
    {
      kept := [];
      for j := 0 to |copies|
        invariant Owned(kept)
        invariant forall c :: c in kept <==> c in copies[..j] && c.len > 0
      {
        if copies[j].len > 0 {
          kept := kept + [copies[j]];
        }
      }
      assert copies[..|copies|] == copies;
    }

    method DropEmptied(i: nat)
      requires Valid() && i < |entries|
      modifies this`entries
      ensures Valid()
    {
      var e := entries[i];
      var kept := NonEmpty(e.copies);
      entries := if kept == [] then entries[..i] + entries[i + 1..] else entries[i := LiveEntry(e.run, kept)];
    }

    method RemovePlacement(run: string, medium: string)
      requires Valid()
      modifies this`entries
      ensures Valid()
    {
      var i := FindEntry(run);
      if i < |entries| {
        var e := entries[i];
        assert Owned(e.copies);
        var kept: seq<LiveCopy> := [];
        for j := 0 to |e.copies|
          invariant Owned(kept)
        {
          if e.copies[j].medium != medium {
            kept := kept + [e.copies[j]];
          }
        }
        entries := if kept == [] then entries[..i] + entries[i + 1..] else entries[i := LiveEntry(e.run, kept)];
      }
    }

    method KeepFresh(copies: seq<LiveCopy>, lbl: Label)
      requires Valid() && Owned(copies)
      modifies this`entries, this`Repr, Repr
      ensures Valid() && fresh(Repr - old(Repr)) && old(Repr) <= Repr && Owned(copies) && entries == old(entries)
    {
      for j := 0 to |copies|
        invariant Valid() && fresh(Repr - old(Repr)) && old(Repr) <= Repr && Owned(copies) && entries == old(entries)
      {
        var c := copies[j];
        c.Keep(Fresh(c.Items(), lbl));
        Repr := Repr + {c.slots};
      }
    }

    /** Replaces every list by its records that are not stale; what that empties goes. */
    method DropStaleOn(lbl: Label)
      requires Valid()
      modifies this`entries, this`Repr, Repr
      ensures Valid() && fresh(Repr - old(Repr))
    {
      for i := 0 to |entries|
        invariant Valid() && fresh(Repr - old(Repr)) && old(Repr) <= Repr && entries == old(entries)
      {
        assert Owned(entries[i].copies);
        KeepFresh(entries[i].copies, lbl);
      }
      entries := NonEmptyEntries();
    }

    /** A full rebuild starts from nothing. */
    method Wipe()
      requires Valid()
      modifies this`entries
      ensures Valid() && entries == []
    {
      entries := [];
    }

    method NonEmptyEntries() returns (kept: seq<LiveEntry>)
      requires Valid()
      ensures forall k :: 0 <= k < |kept| ==> Owned(kept[k].copies)
      ensures forall k, n :: 0 <= k < n < |kept| ==> kept[k].run != kept[n].run
    {
      kept := [];
      for i := 0 to |entries|
        invariant forall k :: 0 <= k < |kept| ==> Owned(kept[k].copies) && exists n :: 0 <= n < i && entries[n].run == kept[k].run
        invariant forall k, n :: 0 <= k < n < |kept| ==> kept[k].run != kept[n].run
      {
        var copies := NonEmpty(entries[i].copies);
        if |copies| > 0 {
          kept := kept + [LiveEntry(entries[i].run, copies)];
        }
      }
    }

    // -------------------------------------------------------------- isolation

    method Do(step: Step)
      requires Valid()
      modifies this`entries, this`Repr, Repr
      ensures Valid() && fresh(Repr - old(Repr))
    {
      match step
      case Add(run, medium, pa) => AddPlaced(run, medium, pa);
      case Remove(run, medium, dle) => RemoveArchive(run, medium, dle);
      case DropCopy(run, medium) => RemovePlacement(run, medium);
      case DropStale(lbl) => DropStaleOn(lbl);
      case Wipe => Wipe();
    }

    /** Whatever the writer does, a view that shares no list reads as it did. */
    method DoAll(steps: seq<Step>, view: View)
      requires Valid() && Footprint(view) !! Repr
      modifies this`entries, this`Repr, Repr
      ensures Valid() && fresh(Repr - old(Repr)) && Footprint(view) !! Repr
      ensures Read(view) == old(Read(view))
    {
      for i := 0 to |steps|
        invariant Valid() && fresh(Repr - old(Repr)) && Footprint(view) !! Repr
        invariant Read(view) == old(Read(view))
      {
        Do(steps[i]);
      }
    }
  }

  /** A window's whole life: what its view returns at the end is what the live lists held
      when it opened. */
  method WindowIsolates(c: LiveCatalog, steps: seq<Step>) returns (ok: bool, view: View, ghost atOpen: Reading)
    requires c.Valid()
    modifies c, c.Repr
    ensures c.Valid() && ok == !old(c.open)
    ensures ok ==> Read(view) == atOpen && atOpen.Keys == old(c.Runs())
    ensures ok ==> forall i :: 0 <= i < |old(c.entries)| ==>
      old(c.entries)[i].run in atOpen && atOpen[old(c.entries)[i].run] == old(c.ReadCopies(c.entries[i].copies))
  {
    ok, view := c.OpenWindow();
    atOpen := Read(view);
    if ok {
      forall i | 0 <= i < |c.entries|
        ensures c.entries[i].run in atOpen && atOpen[c.entries[i].run] == old(c.ReadCopies(c.entries[i].copies))
      {
        assert c.Shows(view, i);
        assert c.ReadCopies(c.entries[i].copies) == old(c.ReadCopies(c.entries[i].copies));
      }
    }
    c.DoAll(steps, view);
  }

  /** Why the view copies: a reader sharing the live list sees a merge exactly when it
      replaces a record by a different one. */
  method SharedListShows(c: LiveCopy, pa: PlacedArchive) returns (shared: array<PlacedArchive>, n: nat)
    requires c.Valid()
    modifies c, c.slots
    ensures shared == old(c.slots) && n == old(c.len)
    ensures shared[..n] != old(c.slots[..c.len]) <==>
      old(var i := PlacedAt(c.Items(), pa.dle, pa.level); i < c.len && c.Items()[i] != pa)
  {
    shared, n := c.slots, c.len;
    c.Merge(pa);
  }
}
