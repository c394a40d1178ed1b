/** Keeping the SQL tables in step with the last closed ledger (src/ledger): incremental
    catch-up, full import, and what is on disk at every commit. */
module LedgerSync {
  import opened Coding

  /** Ledger entry types; only the first three have a table. */
  datatype Kind = Account | TrustLine | Offer | Other

  /** A ledger entry: its type, its table's primary key, the columns an UPDATE leaves
      alone, and the columns it writes. */
  datatype Sle = Sle(kind: Kind, key: nat, fixed: nat, body: nat)

  type Index = nat
  type Ledger = map<Index, Sle>

  datatype Row = Row(kind: Kind, key: nat)
  datatype Columns = Columns(fixed: nat, body: nat)

  type Tables = map<Row, Columns>

  predicate Tracked(s: Sle) {
    s.kind != Other
  }

  function RowOf(s: Sle): Row {
    Row(s.kind, s.key)
  }

  function ColumnsOf(s: Sle): Columns {
    Columns(s.fixed, s.body)
  }

  // ----- statements

  /** INSERT OR REPLACE. */
  function StoreAdd(t: Tables, s: Sle): Tables {
    if Tracked(s) then t[RowOf(s) := ColumnsOf(s)] else t
  }

  /** UPDATE ... WHERE key: nothing happens when there is no such row. */
  function StoreChange(t: Tables, s: Sle): Tables {
    if Tracked(s) && RowOf(s) in t then t[RowOf(s) := Columns(t[RowOf(s)].fixed, s.body)] else t
  }

  function StoreDelete(t: Tables, s: Sle): Tables {
    if Tracked(s) then t - {RowOf(s)} else t
  }

  /** A difference between two ledgers at an index. */
  datatype Diff = Diff(index: Index, now: Option<Sle>, was: Option<Sle>)

  function ApplyDiff(t: Tables, d: Diff): Tables {
    if d.now.Some? then
      if d.was.Some? then StoreChange(t, d.now.value) else StoreAdd(t, d.now.value)
    else if d.was.Some? then StoreDelete(t, d.was.value)
    else t
  }

  function ApplyDiffs(t: Tables, ds: seq<Diff>): Tables {
    if ds == [] then t else ApplyDiff(ApplyDiffs(t, ds[..|ds| - 1]), ds[|ds| - 1])
  }

  // ----- ledgers and the tables that show them

  /** Which index an entry of a table has: a hash of its type and key. */
  type Address = Row -> Index

  ghost predicate Addressed(addr: Address, l: Ledger) {
    forall i :: i in l && Tracked(l[i]) ==> addr(RowOf(l[i])) == i
  }

  function At(l: Ledger, i: Index): Option<Sle> {
    if i in l then Some(l[i]) else None
  }

  function Cell(t: Tables, r: Row): Option<Columns> {
    if r in t then Some(t[r]) else None
  }

  /** What an entry at the row's index shows in the row. */
  function Shown(s: Option<Sle>, r: Row): Option<Columns> {
    if s.Some? && Tracked(s.value) && RowOf(s.value) == r then Some(ColumnsOf(s.value)) else None
  }

  /** The tables hold the ledger exactly. */
  ghost predicate Shows(addr: Address, t: Tables, l: Ledger) {
    forall r :: Cell(t, r) == Shown(At(l, addr(r)), r)
  }

  /** Accounts, trust lines and offers each have their row, with their columns, and every
      row is that of such an entry. */
  ghost predicate RowsAre(t: Tables, l: Ledger) {
    && (forall i :: i in l && l[i].kind in {Account, TrustLine, Offer} ==>
          Row(l[i].kind, l[i].key) in t && t[Row(l[i].kind, l[i].key)] == Columns(l[i].fixed, l[i].body))
    && (forall r :: r in t ==> exists i :: i in l && RowIsOf(t, r, l[i]))
  }

  ghost predicate RowIsOf(t: Tables, r: Row, s: Sle)
    requires r in t
  {
    && s.kind in {Account, TrustLine, Offer}
    && s.kind == r.kind && s.key == r.key
    && t[r] == Columns(s.fixed, s.body)
  }

  lemma {:induction false} ShowsIffRows(addr: Address, t: Tables, l: Ledger)
    requires Addressed(addr, l)
    ensures Shows(addr, t, l) <==> RowsAre(t, l)
  {
    if Shows(addr, t, l) {
      forall i | i in l && l[i].kind in {Account, TrustLine, Offer}
        ensures Row(l[i].kind, l[i].key) in t && t[Row(l[i].kind, l[i].key)] == Columns(l[i].fixed, l[i].body)
      {
        assert Cell(t, RowOf(l[i])) == Shown(At(l, i), RowOf(l[i]));
      }
      forall r | r in t
        ensures exists i :: i in l && RowIsOf(t, r, l[i])
      {
        assert Cell(t, r) == Shown(At(l, addr(r)), r);
        assert addr(r) in l && RowIsOf(t, r, l[addr(r)]);
      }
    }
    if RowsAre(t, l) {
      forall r
        ensures Cell(t, r) == Shown(At(l, addr(r)), r)
      {
        if r in t {
          var i :| i in l && RowIsOf(t, r, l[i]);
          assert addr(RowOf(l[i])) == i;
        }
      }
    }
  }

  /** Every index where the ledgers differ, once. */
  ghost predicate IsDelta(ds: seq<Diff>, was: Ledger, now: Ledger) {
    && (forall i, j :: 0 <= i < j < |ds| ==> ds[i].index != ds[j].index)
    && (forall d :: d in ds ==> d.was == At(was, d.index) && d.now == At(now, d.index) && d.was != d.now)
    && (forall i: Index :: At(was, i) != At(now, i) ==> exists d :: d in ds && d.index == i)
  }

  // ----- what a difference does to one row

  function RowStep(v: Option<Columns>, d: Diff, r: Row): Option<Columns> {
    if d.now.Some? then
      if !Tracked(d.now.value) || RowOf(d.now.value) != r then v
      else if d.was.None? then Some(ColumnsOf(d.now.value))
      else if v.Some? then Some(Columns(v.value.fixed, d.now.value.body))
      else None
    else if d.was.Some? && Tracked(d.was.value) && RowOf(d.was.value) == r then None
    else v
  }

  lemma {:induction false} DiffOnRow(t: Tables, d: Diff, r: Row)
    ensures Cell(ApplyDiff(t, d), r) == RowStep(Cell(t, r), d, r)
  {
  }

  ghost predicate DiffAddressed(addr: Address, d: Diff) {
    && (d.now.Some? && Tracked(d.now.value) ==> addr(RowOf(d.now.value)) == d.index)
    && (d.was.Some? && Tracked(d.was.value) ==> addr(RowOf(d.was.value)) == d.index)
  }

  /** A row is touched only by the difference at its own index. */
  lemma {:induction false} ElsewhereUntouched(addr: Address, v: Option<Columns>, d: Diff, r: Row)
    requires DiffAddressed(addr, d) && d.index != addr(r)
    ensures RowStep(v, d, r) == v
  {
  }

  lemma {:induction false} DiffsOnRow(addr: Address, t: Tables, ds: seq<Diff>, r: Row)
    requires forall d :: d in ds ==> DiffAddressed(addr, d)
    requires forall i, j :: 0 <= i < j < |ds| ==> ds[i].index != ds[j].index
    ensures (forall d :: d in ds ==> d.index != addr(r)) ==> Cell(ApplyDiffs(t, ds), r) == Cell(t, r)
    ensures forall d :: d in ds && d.index == addr(r) ==> Cell(ApplyDiffs(t, ds), r) == RowStep(Cell(t, r), d, r)
    decreases |ds|
  {
    if ds != [] {
      var init, last := ds[..|ds| - 1], ds[|ds| - 1];
      assert ds == init + [last];
      DiffsOnRow(addr, t, init, r);
      DiffOnRow(ApplyDiffs(t, init), last, r);
      if last.index != addr(r) {
        ElsewhereUntouched(addr, Cell(ApplyDiffs(t, init), r), last, r);
      }
    }
  }

  // ----- incremental equals full, exactly when entries keep their row

  /** An entry changed in place keeps its row: same table and key and the same columns
      outside the UPDATE, or no table before and after. */
  predicate Aligned(was: Sle, now: Sle) {
    (!Tracked(was) && !Tracked(now)) || (Tracked(was) && RowOf(was) == RowOf(now) && was.fixed == now.fixed)
  }

  predicate DiffAligned(d: Diff) {
    d.was.Some? && d.now.Some? ==> Aligned(d.was.value, d.now.value)
  }

  lemma {:induction false} AlignedStep(addr: Address, d: Diff, r: Row)
    requires DiffAddressed(addr, d) && d.index == addr(r) && DiffAligned(d) && (d.now.Some? || d.was.Some?)
    ensures RowStep(Shown(d.was, r), d, r) == Shown(d.now, r)
  {
  }

  /** A misaligned change leaves a wrong row behind. */
  lemma {:induction false} MisalignedStep(addr: Address, d: Diff) returns (r: Row)
    requires DiffAddressed(addr, d) && !DiffAligned(d)
    ensures addr(r) == d.index && RowStep(Shown(d.was, r), d, r) != Shown(d.now, r)
  {
    r := if Tracked(d.now.value) then RowOf(d.now.value) else RowOf(d.was.value);
  }

  lemma {:induction false} DeltaAddressed(addr: Address, ds: seq<Diff>, was: Ledger, now: Ledger)
    requires Addressed(addr, was) && Addressed(addr, now) && IsDelta(ds, was, now)
    ensures forall d :: d in ds ==> DiffAddressed(addr, d)
  {
  }

  lemma {:induction false} RowAfterDelta(addr: Address, t: Tables, ds: seq<Diff>, was: Ledger, now: Ledger, r: Row)
    requires Addressed(addr, was) && Addressed(addr, now) && IsDelta(ds, was, now) && Shows(addr, t, was)
    requires forall d :: d in ds ==> DiffAligned(d)
    ensures Cell(ApplyDiffs(t, ds), r) == Shown(At(now, addr(r)), r)
  {
    DeltaAddressed(addr, ds, was, now);
    DiffsOnRow(addr, t, ds, r);
    if At(was, addr(r)) != At(now, addr(r)) {
      var d :| d in ds && d.index == addr(r);
      AlignedStep(addr, d, r);
    } else {
      forall d | d in ds
        ensures d.index != addr(r)
      {
        assert d.was == At(was, d.index) && d.now == At(now, d.index);
      }
    }
  }

  /** From tables that show the old ledger, the differences (in any order) lead to tables
      that show the new one if and only if every entry changed in place is aligned. */
  lemma {:induction false} IncrementalEqualsFullIff(addr: Address, t: Tables, ds: seq<Diff>, was: Ledger, now: Ledger)
    requires Addressed(addr, was) && Addressed(addr, now) && IsDelta(ds, was, now) && Shows(addr, t, was)
    ensures Shows(addr, ApplyDiffs(t, ds), now) <==> forall d :: d in ds ==> DiffAligned(d)
    ensures RowsAre(ApplyDiffs(t, ds), now) <==> forall d :: d in ds ==> DiffAligned(d)
  {
    ShowsIffRows(addr, ApplyDiffs(t, ds), now);
    if forall d :: d in ds ==> DiffAligned(d) {
      forall r
        ensures Cell(ApplyDiffs(t, ds), r) == Shown(At(now, addr(r)), r)
      {
        RowAfterDelta(addr, t, ds, was, now, r);
      }
    } else {
      var d :| d in ds && !DiffAligned(d);
      DeltaAddressed(addr, ds, was, now);
      var r := MisalignedStep(addr, d);
      DiffsOnRow(addr, t, ds, r);
      assert Cell(t, r) == Shown(d.was, r);
    }
  }

  // ----- differences applied to any tables

  predicate Names(s: Option<Sle>, r: Row) {
    s.Some? && Tracked(s.value) && RowOf(s.value) == r
  }

  /** A row that the difference at its index will set right, whatever it should have
      shown before: an added entry always, a changed one if the row is there with the
      same fixed columns, and otherwise a row that is deleted or not there. */
  predicate CellFits(v: Option<Columns>, d: Diff, r: Row) {
    if Names(d.now, r) then d.was.None? || (v.Some? && v.value.fixed == d.now.value.fixed)
    else v.None? || (d.now.None? && Names(d.was, r))
  }

  lemma {:induction false} CellFitsIff(v: Option<Columns>, d: Diff, r: Row)
    ensures RowStep(v, d, r) == Shown(d.now, r) <==> CellFits(v, d, r)
  {
  }

  /** Each row is as the old ledger shows it, or is one its difference sets right. */
  ghost predicate RowFits(addr: Address, t: Tables, ds: seq<Diff>, was: Ledger, r: Row) {
    && ((forall d :: d in ds ==> d.index != addr(r)) ==> Cell(t, r) == Shown(At(was, addr(r)), r))
    && (forall d :: d in ds && d.index == addr(r) ==> CellFits(Cell(t, r), d, r))
  }

  ghost predicate TablesFit(addr: Address, t: Tables, ds: seq<Diff>, was: Ledger) {
    forall r :: RowFits(addr, t, ds, was, r)
  }

  lemma {:induction false} RowFitsIff(addr: Address, t: Tables, ds: seq<Diff>, was: Ledger, now: Ledger, r: Row)
    requires Addressed(addr, was) && Addressed(addr, now) && IsDelta(ds, was, now)
    ensures Cell(ApplyDiffs(t, ds), r) == Shown(At(now, addr(r)), r) <==> RowFits(addr, t, ds, was, r)
  {
    DeltaAddressed(addr, ds, was, now);
    DiffsOnRow(addr, t, ds, r);
    if d :| d in ds && d.index == addr(r) {
      CellFitsIff(Cell(t, r), d, r);
      forall e | e in ds && e.index == addr(r)
        ensures e == d
      {
      }
    } else {
      assert At(was, addr(r)) == At(now, addr(r));
    }
  }

  /** From any tables whatever, the differences between two ledgers lead to tables that
      show the new one if and only if every row is as the old ledger shows it or is one
      its difference sets right. */
  lemma {:induction false} CatchUpFromAnyTablesIff(addr: Address, t: Tables, ds: seq<Diff>, was: Ledger, now: Ledger)
    requires Addressed(addr, was) && Addressed(addr, now) && IsDelta(ds, was, now)
    ensures Shows(addr, ApplyDiffs(t, ds), now) <==> TablesFit(addr, t, ds, was)
  {
    forall r
      ensures Cell(ApplyDiffs(t, ds), r) == Shown(At(now, addr(r)), r) <==> RowFits(addr, t, ds, was, r)
    {
      RowFitsIff(addr, t, ds, was, now, r);
    }
  }

  /** Tables that show some of the new ledger's entries and nothing else. */
  ghost predicate ShowsPart(addr: Address, t: Tables, now: Ledger, done: set<Index>) {
    forall r :: Cell(t, r) == if addr(r) in done then Shown(At(now, addr(r)), r) else None
  }

  // ----- catching up past an import that stopped

  /** The entry, if its type has a table. */
  function Kept(s: Option<Sle>): Option<Sle> {
    if s.Some? && Tracked(s.value) then s else None
  }

  function PartAt(mid: Ledger, done: set<Index>, i: Index): Option<Sle> {
    if i in done then At(mid, i) else None
  }

  /** What the ledger in memory has at an index, what the tables have there, and what the
      target has: the difference of the first and the last sets the tables right. */
  predicate EntryFits(was: Option<Sle>, shown: Option<Sle>, now: Option<Sle>) {
    if was == now then Kept(shown) == Kept(now)
    else match Kept(now)
      case Some(b) =>
        && (Kept(shown).Some? ==> RowOf(shown.value) == RowOf(b))
        && (was.Some? ==> Kept(shown).Some? && shown.value.fixed == b.fixed)
      case None =>
        Kept(shown).Some? ==> now.None? && Kept(was).Some? && RowOf(was.value) == RowOf(shown.value)
  }

  /** Tables that show part of one ledger, memory that holds another, a third to catch up
      to: the differences between the last two lead to tables that show the target if and
      only if they set right what the tables have at every index. */
  lemma {:induction false} CatchUpPastPartIff(addr: Address, t: Tables, ds: seq<Diff>, was: Ledger, mid: Ledger, now: Ledger, done: set<Index>)
    requires Addressed(addr, was) && Addressed(addr, mid) && Addressed(addr, now)
    requires IsDelta(ds, was, now) && ShowsPart(addr, t, mid, done)
    ensures Shows(addr, ApplyDiffs(t, ds), now) <==>
            forall i: Index :: EntryFits(At(was, i), PartAt(mid, done, i), At(now, i))
  {
    CatchUpFromAnyTablesIff(addr, t, ds, was, now);
    if forall i: Index :: EntryFits(At(was, i), PartAt(mid, done, i), At(now, i)) {
      forall r
        ensures RowFits(addr, t, ds, was, r)
      {
        assert EntryFits(At(was, addr(r)), PartAt(mid, done, addr(r)), At(now, addr(r)));
        FittingRow(addr, t, ds, was, mid, now, done, r);
      }
    }
    if TablesFit(addr, t, ds, was) {
      forall i: Index
        ensures EntryFits(At(was, i), PartAt(mid, done, i), At(now, i))
      {
        FittingIndex(addr, t, ds, was, mid, now, done, i);
      }
    }
  }

  lemma {:induction false} FittingRow(addr: Address, t: Tables, ds: seq<Diff>, was: Ledger, mid: Ledger, now: Ledger, done: set<Index>, r: Row)
    requires Addressed(addr, was) && Addressed(addr, mid) && Addressed(addr, now)
    requires IsDelta(ds, was, now) && ShowsPart(addr, t, mid, done)
    requires EntryFits(At(was, addr(r)), PartAt(mid, done, addr(r)), At(now, addr(r)))
    ensures RowFits(addr, t, ds, was, r)
  {
    if forall d :: d in ds ==> d.index != addr(r) {
      assert At(was, addr(r)) == At(now, addr(r));
    }
    forall d | d in ds && d.index == addr(r)
      ensures CellFits(Cell(t, r), d, r)
    {
      assert d.was == At(was, d.index) && d.now == At(now, d.index);
    }
  }

  lemma {:induction false} FittingIndex(addr: Address, t: Tables, ds: seq<Diff>, was: Ledger, mid: Ledger, now: Ledger, done: set<Index>, i: Index)
    requires Addressed(addr, was) && Addressed(addr, mid) && Addressed(addr, now)
    requires IsDelta(ds, was, now) && ShowsPart(addr, t, mid, done) && TablesFit(addr, t, ds, was)
    ensures EntryFits(At(was, i), PartAt(mid, done, i), At(now, i))
  {
    var shown := PartAt(mid, done, i);
    if Kept(shown).Some? {
      RowFitsAt(addr, t, ds, was, mid, now, done, i, RowOf(shown.value));
    }
    if Kept(At(now, i)).Some? {
      RowFitsAt(addr, t, ds, was, mid, now, done, i, RowOf(now[i]));
    }
  }

  /** What fitting means for one row of an index. */
  lemma {:induction false} RowFitsAt(addr: Address, t: Tables, ds: seq<Diff>, was: Ledger, mid: Ledger, now: Ledger, done: set<Index>, i: Index, r: Row)
    requires IsDelta(ds, was, now) && ShowsPart(addr, t, mid, done) && RowFits(addr, t, ds, was, r) && addr(r) == i
    ensures var v := Shown(PartAt(mid, done, i), r);
            if At(was, i) == At(now, i) then v == Shown(At(now, i), r) else CellFits(v, Diff(i, At(now, i), At(was, i)), r)
  {
    assert Cell(t, r) == Shown(PartAt(mid, done, i), r);
    if At(was, i) == At(now, i) {
      forall d | d in ds
        ensures d.index != i
      {
        assert d.was == At(was, d.index) && d.now == At(now, d.index);
      }
    } else {
      var d :| d in ds && d.index == i;
      assert d == Diff(i, At(now, i), At(was, i));
    }
  }

  /** Catching up again to the ledger whose import stopped: right if and only if every
      tracked entry that was not imported is new since the old ledger. */
  lemma {:induction false} CatchUpAfterPartIff(addr: Address, t: Tables, ds: seq<Diff>, was: Ledger, now: Ledger, done: set<Index>)
    requires Addressed(addr, was) && Addressed(addr, now) && IsDelta(ds, was, now) && ShowsPart(addr, t, now, done)
    ensures Shows(addr, ApplyDiffs(t, ds), now) <==> forall i :: i in now && Tracked(now[i]) && i !in done ==> i !in was
  {
    CatchUpPastPartIff(addr, t, ds, was, now, now, done);
    forall i: Index
      ensures EntryFits(At(was, i), PartAt(now, done, i), At(now, i)) <==>
              (i in now && Tracked(now[i]) && i !in done ==> i !in was)
    {
    }
  }

  // ----- entries that keep their identity

  /** Type, primary key and fixed columns of the entry an index stands for, or none if
      its type has no table. */
  type Identity = Index -> Option<(Kind, nat, nat)>

  ghost predicate Identified(id: Identity, l: Ledger) {
    forall i :: i in l ==> id(i) == if Tracked(l[i]) then Some((l[i].kind, l[i].key, l[i].fixed)) else None
  }

  /** When an index determines the type and key of its entry, catching up by differences
      is right without any condition. */
  lemma {:induction false} IdentifiedCatchUp(addr: Address, id: Identity, t: Tables, ds: seq<Diff>, was: Ledger, now: Ledger)
    requires Addressed(addr, was) && Addressed(addr, now) && IsDelta(ds, was, now) && Shows(addr, t, was)
    requires Identified(id, was) && Identified(id, now)
    ensures Shows(addr, ApplyDiffs(t, ds), now)
  {
    forall d | d in ds
      ensures DiffAligned(d)
    {
      assert d.was == At(was, d.index) && d.now == At(now, d.index);
    }
    IncrementalEqualsFullIff(addr, t, ds, was, now);
  }
}
