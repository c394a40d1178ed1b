/** LedgerMaster (src/ledger/LedgerMaster.cpp): what is on disk at every commit while the
    tables follow the last closed ledger. */
module LedgerMasters {
  import opened Coding
  import opened LedgerSync

  /** A ledger hash; zero is no ledger. */
  type LedgerHash = nat

  /** What the database holds: the tables and the last closed ledger's hash. */
  datatype Db = Db(tables: Tables, marker: LedgerHash)

  /** Items between commits of a full import. */
  const PROGRESS_COUNT: nat := 100000

  /** A hash names one ledger, and its entries are where their keys put them. */
  datatype World = World(addr: Address, ledgers: LedgerHash -> Ledger)

  ghost predicate Sane(w: World) {
    forall h: LedgerHash :: Addressed(w.addr, w.ledgers(h))
  }

  /** A hash on disk names a ledger that the tables show exactly. */
  ghost predicate Consistent(w: World, d: Db) {
    d.marker != 0 ==> Shows(w.addr, d.tables, w.ledgers(d.marker))
  }

  // ----- full import

  function AddAll(t: Tables, items: seq<Sle>): Tables {
    if items == [] then t else StoreAdd(AddAll(t, items[..|items| - 1]), items[|items| - 1])
  }

  lemma {:induction false} AddAllStep(t: Tables, items: seq<Sle>, i: nat)
    requires i < |items|
    ensures AddAll(t, items[..i + 1]) == StoreAdd(AddAll(t, items[..i]), items[i])
  {
    assert items[..i + 1][..i] == items[..i];
  }

  /** The state items of a ledger, in the order they are visited. */
  ghost predicate Visits(items: seq<Sle>, l: Ledger) {
    forall s :: s in items <==> exists i :: i in l && l[i] == s
  }

  lemma {:induction false} CellAfterAll(items: seq<Sle>, r: Row)
    ensures match Cell(AddAll(map[], items), r)
            case None => forall s :: s in items && Tracked(s) ==> RowOf(s) != r
            case Some(c) => exists s :: s in items && Tracked(s) && RowOf(s) == r && ColumnsOf(s) == c
    decreases |items|
  {
    if items != [] {
      var init, last := items[..|items| - 1], items[|items| - 1];
      assert items == init + [last];
      CellAfterAll(init, r);
    }
  }

  /** Adding every item to empty tables shows the ledger. */
  lemma {:induction false} ImportShows(addr: Address, items: seq<Sle>, l: Ledger)
    requires Addressed(addr, l) && Visits(items, l)
    ensures Shows(addr, AddAll(map[], items), l) && RowsAre(AddAll(map[], items), l)
  {
    ShowsIffRows(addr, AddAll(map[], items), l);
    forall r
      ensures Cell(AddAll(map[], items), r) == Shown(At(l, addr(r)), r)
    {
      CellAfterAll(items, r);
      var s := At(l, addr(r));
      if Shown(s, r).Some? {
        assert s.value in items;
      }
    }
  }

  /** The items of the batches that were full after n. */
  function WholeBatches(n: nat): (m: nat)
    ensures m <= n < m + 100000 && m % 100000 == 0
  {
    n / 100000 * 100000
  }

  /** The rows of the first m items, a whole number of batches. */
  ghost predicate Batched(items: seq<Sle>, m: int, t: Tables) {
    0 <= m <= |items| && m % 100000 == 0 && t == AddAll(map[], items[..m])
  }

  /** The loop over the entries that differ. */
  method UpdateFrom(before: Tables, ds: seq<Diff>) returns (tables: Tables)
    ensures tables == ApplyDiffs(before, ds)
  {
    tables := before;
    for i := 0 to |ds|
      invariant tables == ApplyDiffs(before, ds[..i])
    {
      assert ds[..i + 1][..i] == ds[..i];
      tables := ApplyDiff(tables, ds[i]);
    }
    assert ds[..|ds|] == ds;
  }

  class LedgerMaster {
    const world: World
    var db: Db
    /** The ledger in memory that the next catch-up starts from. */
    var current: LedgerHash
    /** Every state the disk has been in. */
    ghost var disk: seq<Db>

    ghost predicate Valid()
      reads this
    {
      && Sane(world)
      && disk != [] && disk[|disk| - 1] == db
      && forall d :: d in disk ==> Consistent(world, d)
    }

    /** The ledger in memory is the one on disk. */
    ghost predicate InSync()
      reads this
    {
      current != 0 ==> db.marker == current
    }

    constructor (world: World)
      requires Sane(world)
      ensures Valid() && InSync() && db == Db(map[], 0) && current == 0 && this.world == world
    {
      this.world, db, current, disk := world, Db(map[], 0), 0, [Db(map[], 0)];
    }

    /** A commit, or a statement outside a transaction. */
    method Commit(d: Db)
      requires Valid() && Consistent(world, d)
      modifies this`db, this`disk
      ensures Valid() && db == d && disk == old(disk) + [d]
    {
      db := d;
      disk := disk + [d];
    }

    /** Start-up: the ledger on disk, if it can be loaded, or none. */
    method LoadLastKnown(loads: bool)
      requires Valid()
      modifies this`current
      ensures InSync()
      ensures current == if loads then db.marker else 0
    {
      current := if db.marker != 0 && loads then db.marker else 0;
    }

    /** The import's transactions: a commit after every PROGRESS_COUNT items, the marker
        in the last one. "fails" is the item at which an exception ends it, if one does,
        or beyond the last item when the exception comes after it. */
    method ImportItems(target: LedgerHash, items: seq<Sle>, fails: Option<nat>) returns (ok: bool)
      requires Valid() && db == Db(map[], 0) && target != 0 && Visits(items, world.ledgers(target))
      modifies this`db, this`disk
      ensures Valid() && old(disk) <= disk
      ensures ok <==> fails.None?
      ensures ok ==> db.marker == target
      ensures !ok ==> db.marker == 0 && exists m :: 0 <= m <= |items| && Batched(items, m, db.tables)
      ensures !ok ==> db.tables == AddAll(map[], items[..WholeBatches(if fails.value < |items| then fails.value else |items|)])
    {
      var tables: Tables := map[];
      var counter := 0;
      ghost var m := 0;
      for i := 0 to |items|
        invariant Valid() && old(disk) <= disk && db.marker == 0
        invariant tables == AddAll(map[], items[..i])
        invariant 0 <= m <= i && Batched(items, m, db.tables) && counter == i - m < PROGRESS_COUNT
        invariant fails.Some? ==> i <= fails.value
      {
        if fails == Some(i) {
          return false;
        }
        AddAllStep(map[], items, i);
        tables := StoreAdd(tables, items[i]);
        counter := counter + 1;
        if counter >= PROGRESS_COUNT {
          Commit(Db(tables, 0));
          counter := 0;
          m := i + 1;
        }
      }
      if fails.Some? {
        return false;
      }
      assert items[..|items|] == items;
      ImportShows(world.addr, items, world.ledgers(target));
      Commit(Db(tables, target));
      return true;
    }

    /** importLedgerState: the marker is cleared before the tables are dropped. */
    method ImportLedgerState(target: LedgerHash, found: bool, items: seq<Sle>, fails: Option<nat>) returns (ok: bool)
      requires Valid() && target != 0 && Visits(items, world.ledgers(target))
      modifies this
      ensures Valid() && old(disk) <= disk
      ensures ok ==> found && current == target == db.marker
      ensures ok ==> Shows(world.addr, db.tables, world.ledgers(target)) && RowsAre(db.tables, world.ledgers(target))
      ensures !ok ==> current == old(current)
      ensures !ok && !found ==> db == old(db)
      ensures !ok && found ==> db.marker == 0 && exists m :: 0 <= m <= |items| && Batched(items, m, db.tables)
      ensures !ok && found ==> fails.Some?
      ensures !ok && found ==> db.tables == AddAll(map[], items[..WholeBatches(if fails.value < |items| then fails.value else |items|)])
      ensures found ==> |disk| >= |old(disk)| + 2 && disk[|old(disk)|] == Db(old(db.tables), 0) && disk[|old(disk)| + 1] == Db(map[], 0)
      ensures found && fails.None? ==> ok
    {
      if !found {
        return false;
      }
      Commit(Db(db.tables, 0));
      Commit(Db(map[], 0));
      ok := ImportItems(target, items, fails);
      if ok {
        current := target;
        assert db in disk;
        ShowsIffRows(world.addr, db.tables, world.ledgers(target));
      }
    }

    /** catchUp: differences in one transaction when they can be computed, otherwise a
        full import. The differences keep the disk consistent if and only if every row is
        as the ledger in memory shows it or is one its difference sets right; if that
        ledger is the one on disk, if and only if every entry changed in place is aligned. */
    method CatchUp(target: LedgerHash, delta: Option<seq<Diff>>, found: bool, items: seq<Sle>, fails: Option<nat>)
      returns (ok: bool)
      requires Valid() && target != 0 && Visits(items, world.ledgers(target))
      requires current != 0 && delta.Some? ==> IsDelta(delta.value, world.ledgers(current), world.ledgers(target))
      modifies this
      ensures old(disk) <= disk
      ensures ok ==> current == target == db.marker
      ensures ok && Valid() ==> Shows(world.addr, db.tables, world.ledgers(target)) && RowsAre(db.tables, world.ledgers(target))
      ensures old(current) == 0 || delta.None? ==> Valid() && (found && fails.None? ==> ok)
      ensures old(current) != 0 && delta.Some? ==> ok && disk == old(disk) + [db]
      ensures old(current) != 0 && delta.Some? ==>
                (Valid() <==> TablesFit(world.addr, old(db.tables), delta.value, world.ledgers(old(current))))
      ensures old(current) != 0 && delta.Some? && old(InSync()) ==> (Valid() <==> forall d :: d in delta.value ==> DiffAligned(d))
      ensures old(InSync()) && (ok || !found) ==> InSync()
    {
      if current == 0 || delta.None? {
        ok := ImportLedgerState(target, found, items, fails);
        if ok {
          assert db in disk;
        }
        return;
      }
      var tables := UpdateFrom(db.tables, delta.value);
      assert db in disk;
      CatchUpFromAnyTablesIff(world.addr, db.tables, delta.value, world.ledgers(current), world.ledgers(target));
      if InSync() {
        IncrementalEqualsFullIff(world.addr, db.tables, delta.value, world.ledgers(current), world.ledgers(target));
      }
      ShowsIffRows(world.addr, tables, world.ledgers(target));
      db := Db(tables, target);
      disk := disk + [db];
      current := target;
      assert db in disk;
      return true;
    }
  }

  /** The entries among the first m items of an import. */
  ghost function Imported(items: seq<Sle>, m: nat, l: Ledger): set<Index>
    requires m <= |items|
  {
    set i | i in l && l[i] in items[..m]
  }

  /** What is in the tables when an import stops. */
  lemma {:induction false} StoppedImportShows(addr: Address, items: seq<Sle>, m: nat, l: Ledger)
    requires Addressed(addr, l) && Visits(items, l) && m <= |items|
    ensures ShowsPart(addr, AddAll(map[], items[..m]), l, Imported(items, m, l))
  {
    forall r
      ensures Cell(AddAll(map[], items[..m]), r) ==
              if addr(r) in Imported(items, m, l) then Shown(At(l, addr(r)), r) else None
    {
      CellAfterAll(items[..m], r);
      if Cell(AddAll(map[], items[..m]), r).Some? {
        var s :| s in items[..m] && Tracked(s) && RowOf(s) == r && Some(ColumnsOf(s)) == Cell(AddAll(map[], items[..m]), r);
        assert s in items;
        var i :| i in l && l[i] == s;
        assert i == addr(r);
      }
    }
  }

  /** Why the ledger in memory must be the one on disk. An import that fails after it has
      committed m items leaves the old ledger in memory over those items; catching up
      from there commits consistent tables if and only if every tracked entry of the
      target that was not imported is new since the old ledger. */
  lemma {:induction false} CatchUpAfterFailedImportIff(w: World, was: LedgerHash, now: LedgerHash, ds: seq<Diff>, items: seq<Sle>, m: nat)
    requires Sane(w) && now != 0 && IsDelta(ds, w.ledgers(was), w.ledgers(now))
    requires Visits(items, w.ledgers(now)) && m <= |items|
    ensures Consistent(w, Db(ApplyDiffs(AddAll(map[], items[..m]), ds), now)) <==>
            forall i :: i in w.ledgers(now) && Tracked(w.ledgers(now)[i]) && w.ledgers(now)[i] !in items[..m] ==> i !in w.ledgers(was)
  {
    assert Addressed(w.addr, w.ledgers(was)) && Addressed(w.addr, w.ledgers(now));
    StoppedImportShows(w.addr, items, m, w.ledgers(now));
    CatchUpAfterPartIff(w.addr, AddAll(map[], items[..m]), ds, w.ledgers(was), w.ledgers(now), Imported(items, m, w.ledgers(now)));
  }

  /** The same for a catch-up to any later ledger: the import of "mid" stopped, memory
      still holds "was", and the next target is "now". */
  lemma {:induction false} LaterCatchUpIff(w: World, was: LedgerHash, mid: LedgerHash, now: LedgerHash, ds: seq<Diff>, items: seq<Sle>, m: nat)
    requires Sane(w) && mid != 0 && now != 0 && IsDelta(ds, w.ledgers(was), w.ledgers(now))
    requires Visits(items, w.ledgers(mid)) && m <= |items|
    ensures Consistent(w, Db(ApplyDiffs(AddAll(map[], items[..m]), ds), now)) <==>
            forall i: Index :: EntryFits(At(w.ledgers(was), i), PartAt(w.ledgers(mid), Imported(items, m, w.ledgers(mid)), i), At(w.ledgers(now), i))
  {
    assert Addressed(w.addr, w.ledgers(was)) && Addressed(w.addr, w.ledgers(mid)) && Addressed(w.addr, w.ledgers(now));
    StoppedImportShows(w.addr, items, m, w.ledgers(mid));
    CatchUpPastPartIff(w.addr, AddAll(map[], items[..m]), ds, w.ledgers(was), w.ledgers(mid), w.ledgers(now), Imported(items, m, w.ledgers(mid)));
  }

  /** In particular, when nothing was imported, one tracked entry in both ledgers is
      enough to go wrong. */
  lemma {:induction false} StaleLedgerBreaksCatchUp(w: World, was: LedgerHash, now: LedgerHash, ds: seq<Diff>, items: seq<Sle>, i: Index)
    requires Sane(w) && now != 0 && IsDelta(ds, w.ledgers(was), w.ledgers(now)) && Visits(items, w.ledgers(now))
    requires i in w.ledgers(was) && i in w.ledgers(now) && Tracked(w.ledgers(now)[i])
    ensures !Consistent(w, Db(ApplyDiffs(map[], ds), now))
  {
    CatchUpAfterFailedImportIff(w, was, now, ds, items, 0);
    assert AddAll(map[], items[..0]) == map[];
  }
}
