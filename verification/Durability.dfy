/** What the write protocol keeps recoverable: where every logged batch is, when the
    log reader can still return it, and what a flush must wait for. */
module Durability {
  import opened Entries
  import opened LogFormat
  import opened LogHoles
  import opened WriteProtocol

  // ----- one log

  ghost predicate Within(slot: Slot) {
    forall h :: h in slot.places ==> Off(slot.start) <= Off(h) < Off(slot.end)
  }

  ghost predicate InSlot(l: Log, k: nat, x: Place) {
    k < |l.slots| && x in l.slots[k].places
  }

  /** Extents follow one another, and every hole is in one. */
  ghost predicate Laid(l: Log) {
    && (forall k :: 0 <= k < |l.slots| ==> Within(l.slots[k]) && Off(l.slots[k].end) <= Off(l.end))
    && (forall j, k :: 0 <= j < k < |l.slots| ==> Off(l.slots[j].end) <= Off(l.slots[k].start))
    && (forall x :: x in l.holes ==> exists k: nat :: InSlot(l, k, x))
  }

  ghost predicate SlotOwned(l: Log, n: nat, ts: seq<Ticket>, k: nat)
    requires k < |l.slots|
  {
    var i := l.slots[k].owner;
    && i < |ts| && ts[i].log == n && ts[i].batch == l.slots[k].batch && !ts[i].work.Pending?
    && (Has(ts[i]) ==> Complete(l, k))
  }

  ghost predicate HasSlot(l: Log, i: nat) {
    exists k: nat :: Owns(l, i, k)
  }

  /** Extents belong to the log's writers, one each, and a writer that has logged its
      batch has written its extent whole. */
  ghost predicate Owned(l: Log, n: nat, ts: seq<Ticket>) {
    && (forall k: nat :: k < |l.slots| ==> SlotOwned(l, n, ts, k))
    && (forall j, k :: 0 <= j < k < |l.slots| ==> l.slots[j].owner != l.slots[k].owner)
    && (forall i: nat :: i < |ts| && ts[i].log == n && (ts[i].work.Reserved? || (Has(ts[i]) && ts[i].batch != {})) ==> HasSlot(l, i))
  }

  ghost predicate LogOk(l: Log, n: nat, ts: seq<Ticket>) {
    Laid(l) && Owned(l, n, ts)
  }

  lemma {:induction false} NewLogOk(n: nat, ts: seq<Ticket>)
    requires forall i :: 0 <= i < |ts| ==> ts[i].log != n
    ensures LogOk(NewLog(n), n, ts) && Readable(NewLog(n)) == {}
  {
  }

  lemma {:induction false} AppendLaid(l: Log, slot: Slot)
    requires Laid(l) && slot.start == l.end && Within(slot) && Off(slot.start) <= Off(slot.end)
    ensures Laid(Appending(l, slot))
  {
    var l' := Appending(l, slot);
    forall x | x in l'.holes
      ensures exists k: nat :: InSlot(l', k, x)
    {
      if x in l.holes {
        var k: nat :| InSlot(l, k, x);
        assert InSlot(l', k, x);
      } else {
        assert InSlot(l', |l.slots|, x);
      }
    }
  }

  /** A reservation hides nothing that was readable and spoils nothing complete. */
  lemma {:induction false} AppendKeeps(l: Log, slot: Slot, k: nat)
    requires Laid(l) && slot.start == l.end && Within(slot) && k < |l.slots|
    ensures var l' := Appending(l, slot);
      l'.slots[k] == l.slots[k] && (Returned(l, k) <==> Returned(l', k)) && (Complete(l, k) ==> Complete(l', k))
  {
    assert Within(l.slots[k]);
    LaterHolesDoNotHide(l.holes, slot.places, l.slots[k].places);
  }

  lemma {:induction false} AppendOk(l: Log, n: nat, ts: seq<Ticket>, i: nat, slot: Slot)
    requires LogOk(l, n, ts) && i < |ts| && ts[i].log == n && ts[i].work.Pending?
    requires slot.start == l.end && Within(slot) && Off(slot.start) <= Off(slot.end)
    requires slot.owner == i && slot.batch == ts[i].batch
    ensures LogOk(Appending(l, slot), n, ts[i := ts[i].(work := Reserved)])
  {
    var l', ts' := Appending(l, slot), ts[i := ts[i].(work := Reserved)];
    AppendLaid(l, slot);
    AppendOwned(l, n, ts, i, slot);
    forall j: nat | j < |ts'| && ts'[j].log == n && (ts'[j].work.Reserved? || (Has(ts'[j]) && ts'[j].batch != {}))
      ensures HasSlot(l', j)
    {
      AppendHasSlot(l, slot, j);
    }
  }

  lemma {:induction false} AppendHasSlot(l: Log, slot: Slot, j: nat)
    requires HasSlot(l, j) || slot.owner == j
    ensures HasSlot(Appending(l, slot), j)
  {
    if k: nat :| Owns(l, j, k) {
      assert Owns(Appending(l, slot), j, k);
    } else {
      assert Owns(Appending(l, slot), j, |l.slots|);
    }
  }

  lemma {:induction false} AppendOwned(l: Log, n: nat, ts: seq<Ticket>, i: nat, slot: Slot)
    requires LogOk(l, n, ts) && i < |ts| && ts[i].log == n && ts[i].work.Pending?
    requires slot.start == l.end && Within(slot) && slot.owner == i && slot.batch == ts[i].batch
    ensures var l', ts' := Appending(l, slot), ts[i := ts[i].(work := Reserved)];
      && (forall k: nat :: k < |l'.slots| ==> SlotOwned(l', n, ts', k))
      && (forall k :: 0 <= k < |l.slots| ==> l'.slots[k] == l.slots[k] && l.slots[k].owner != i)
  {
    var l', ts' := Appending(l, slot), ts[i := ts[i].(work := Reserved)];
    forall k: nat | k < |l'.slots|
      ensures SlotOwned(l', n, ts', k)
    {
      if k < |l.slots| {
        assert SlotOwned(l, n, ts, k);
        AppendKeeps(l, slot, k);
      }
    }
    forall k | 0 <= k < |l.slots|
      ensures l.slots[k].owner != i
    {
      assert SlotOwned(l, n, ts, k);
    }
  }

  lemma {:induction false} ReserveOk(l: Log, n: nat, ts: seq<Ticket>, i: nat, size: nat)
    requires LogOk(l, n, ts) && i < |ts| && ts[i].log == n && ts[i].work.Pending?
    ensures LogOk(Reserving(l, i, size, ts[i].batch), n, ts[i := ts[i].(work := Reserved)])
  {
    var places, end := Places(l.end, size), EndPlace(l.end, size);
    forall h | h in places
      ensures Off(l.end) <= Off(h) < Off(end)
    {
      PlacesWithin(l.end, size, h);
    }
    AppendOk(l, n, ts, i, Slot(size, l.end, end, places, ts[i].batch, i));
  }

  lemma {:induction false} WriteOk(l: Log, n: nat, ts: seq<Ticket>, h: Place)
    requires LogOk(l, n, ts)
    ensures LogOk(l.(holes := l.holes - {h}), n, ts)
  {
    var l' := l.(holes := l.holes - {h});
    forall k: nat | k < |l.slots|
      ensures SlotOwned(l', n, ts, k)
    {
      assert SlotOwned(l, n, ts, k);
    }
    forall x | x in l'.holes
      ensures exists k: nat :: InSlot(l', k, x)
    {
      var k: nat :| InSlot(l, k, x);
      assert InSlot(l', k, x);
    }
    forall j: nat | HasSlot(l, j)
      ensures HasSlot(l', j)
    {
      var k: nat :| Owns(l, j, k);
      assert Owns(l', j, k);
    }
  }

  lemma {:induction false} FinishOk(l: Log, n: nat, ts: seq<Ticket>, i: nat)
    requires LogOk(l, n, ts) && i < |ts| && ts[i].work.Reserved?
    requires ts[i].log == n ==> forall k: nat :: Owns(l, i, k) ==> Complete(l, k)
    ensures LogOk(l, n, ts[i := ts[i].(work := Logged)])
  {
    var ts' := ts[i := ts[i].(work := Logged)];
    forall k: nat | k < |l.slots|
      ensures SlotOwned(l, n, ts', k)
    {
      assert SlotOwned(l, n, ts, k);
      assert l.slots[k].owner == i ==> Owns(l, i, k);
    }
  }

  /** How a ticket may change without touching a log. */
  ghost predicate Evolves(t: Ticket, t': Ticket) {
    && t'.start == t.start && t'.end == t.end && t'.log == t.log && t'.batch == t.batch
    && (t'.work == t.work || (t'.work.Failed? && !Has(t)) || (t.work.Logged? && t'.work.Applied?))
  }

  ghost predicate Evolve(ts: seq<Ticket>, ts': seq<Ticket>) {
    && |ts| <= |ts'|
    && (forall i :: 0 <= i < |ts| ==> Evolves(ts[i], ts'[i]))
    && (forall i :: |ts| <= i < |ts'| ==> ts'[i].work.Pending? || (ts'[i].work.Applied? && ts'[i].batch == {}))
  }

  lemma {:induction false} EvolveOk(l: Log, n: nat, ts: seq<Ticket>, ts': seq<Ticket>)
    requires LogOk(l, n, ts) && Evolve(ts, ts')
    ensures LogOk(l, n, ts')
  {
    forall k: nat | k < |l.slots|
      ensures SlotOwned(l, n, ts', k)
    {
      assert SlotOwned(l, n, ts, k);
      assert Evolves(ts[l.slots[k].owner], ts'[l.slots[k].owner]);
    }
    forall i: nat | i < |ts'| && ts'[i].log == n && (ts'[i].work.Reserved? || (Has(ts'[i]) && ts'[i].batch != {}))
      ensures HasSlot(l, i)
    {
      assert i < |ts| ==> Evolves(ts[i], ts'[i]);
    }
  }

  // ----- the whole state

  ghost predicate Files(s: State) {
    && s.log in s.logs && s.manifest.logNumber <= s.log < s.nextFile
    && (s.imm.Imm? ==> s.imm.log in s.logs && s.manifest.logNumber <= s.imm.log < s.log)
    && (forall n :: n in s.logs ==> n < s.nextFile)
    && (forall n :: n in s.logs && n >= s.manifest.logNumber ==> n == s.log || (s.imm.Imm? && n == s.imm.log))
  }

  ghost predicate LogsOk(s: State) {
    forall n :: n in s.logs && n >= s.manifest.logNumber ==> LogOk(s.logs[n], n, s.tickets)
  }

  /** Where a ticket's batch is, by the log and memtable it was written to. */
  ghost predicate Placed(s: State, t: Ticket) {
    && t.log <= s.log
    && (t.log == s.log && t.work.Applied? ==> t.batch <= s.mem)
    && (s.imm.Imm? && t.log == s.imm.log && t.work.Applied? ==> t.batch <= s.imm.entries)
    && (!Named(s, t) ==> (Ready(t) || t.batch == {}) && (Has(t) ==> t.batch <= s.manifest.tables))
    && (Has(t) ==> t.batch <= s.logged)
    && (forall e :: e in t.batch ==> t.start <= e.seqno <= t.end)
  }

  /** Some writer that held this log filled its memtable with e. */
  ghost predicate AppliedBy(ts: seq<Ticket>, n: nat, e: Entry) {
    exists i :: 0 <= i < |ts| && ts[i].log == n && ts[i].work.Applied? && e in ts[i].batch
  }

  ghost predicate MemTraced(s: State) {
    && (forall e :: e in s.mem ==> AppliedBy(s.tickets, s.log, e))
    && (forall e :: s.imm.Imm? && e in s.imm.entries ==> AppliedBy(s.tickets, s.imm.log, e))
  }

  ghost predicate LoggedBy(s: State, e: Entry) {
    exists i :: 0 <= i < |s.tickets| && Named(s, s.tickets[i]) && Has(s.tickets[i]) && e in s.tickets[i].batch
  }

  /** Every logged entry is in a table, or its writer's record is in a log that
      recovery reads. */
  ghost predicate Safe(s: State) {
    forall e :: e in s.logged ==> e in s.manifest.tables || LoggedBy(s, e)
  }

  ghost predicate Covered(s: State) {
    && Files(s) && LogsOk(s) && MemTraced(s) && Safe(s)
    && (forall i :: 0 <= i < |s.tickets| ==> Placed(s, s.tickets[i]))
  }

  ghost predicate Inv(s: State) {
    Ordered(s) && Covered(s)
  }

  lemma {:induction false} InitInv(s: State)
    requires Init(s)
    ensures Inv(s)
  {
    NewLogOk(s.log, s.tickets);
  }

  // ----- every step keeps the invariant

  ghost predicate SameStorage(s: State, s': State) {
    && s'.mem == s.mem && s'.log == s.log && s'.imm == s.imm && s'.logs == s.logs
    && s'.manifest.logNumber == s.manifest.logNumber && s'.manifest.tables == s.manifest.tables
    && s'.nextFile == s.nextFile && s'.logged == s.logged
  }

  lemma {:induction false} AppliedStays(ts: seq<Ticket>, ts': seq<Ticket>)
    requires Evolve(ts, ts')
    ensures forall n, e :: AppliedBy(ts, n, e) ==> AppliedBy(ts', n, e)
  {
    forall n, e | AppliedBy(ts, n, e)
      ensures AppliedBy(ts', n, e)
    {
      var i :| 0 <= i < |ts| && ts[i].log == n && ts[i].work.Applied? && e in ts[i].batch;
      assert Evolves(ts[i], ts'[i]);
    }
  }

  lemma {:induction false} SafeStays(s: State, s': State)
    requires Safe(s) && |s.tickets| <= |s'.tickets| && s'.logged == s.logged && s.manifest.tables <= s'.manifest.tables
    requires forall i :: 0 <= i < |s.tickets| && Named(s, s.tickets[i]) && Has(s.tickets[i]) ==>
               Has(s'.tickets[i]) && s'.tickets[i].batch == s.tickets[i].batch &&
               (Named(s', s'.tickets[i]) || s.tickets[i].batch <= s'.manifest.tables)
    ensures Safe(s')
  {
    forall e | e in s'.logged && e !in s'.manifest.tables
      ensures LoggedBy(s', e)
    {
      var i :| 0 <= i < |s.tickets| && Named(s, s.tickets[i]) && Has(s.tickets[i]) && e in s.tickets[i].batch;
      assert Named(s', s'.tickets[i]) && Has(s'.tickets[i]) && e in s'.tickets[i].batch;
    }
  }

  /** Steps that only change tickets. */
  lemma {:induction false} TicketStep(s: State, s': State)
    requires Covered(s) && SameStorage(s, s') && Evolve(s.tickets, s'.tickets)
    requires forall i :: 0 <= i < |s.tickets| ==> s'.tickets[i].work == s.tickets[i].work || s'.tickets[i].work.Failed?
    requires forall i :: |s.tickets| <= i < |s'.tickets| ==> Placed(s', s'.tickets[i])
    ensures Covered(s')
  {
    forall n | n in s'.logs && n >= s'.manifest.logNumber
      ensures LogOk(s'.logs[n], n, s'.tickets)
    {
      EvolveOk(s.logs[n], n, s.tickets, s'.tickets);
    }
    AppliedStays(s.tickets, s'.tickets);
    forall i | 0 <= i < |s.tickets|
      ensures Placed(s', s'.tickets[i])
    {
      assert Placed(s, s.tickets[i]) && Evolves(s.tickets[i], s'.tickets[i]);
    }
    SafeStays(s, s');
  }

  /** A ticket's work matters to its own log only. */
  lemma {:induction false} OtherLogOk(l: Log, n: nat, ts: seq<Ticket>, i: nat, w: Work)
    requires LogOk(l, n, ts) && i < |ts| && ts[i].log != n
    ensures LogOk(l, n, ts[i := ts[i].(work := w)])
  {
    var ts' := ts[i := ts[i].(work := w)];
    forall k: nat | k < |l.slots|
      ensures SlotOwned(l, n, ts', k)
    {
      assert SlotOwned(l, n, ts, k);
    }
  }

  /** A writer's step on its log: memtables, tables and other writers stay. */
  ghost predicate LogWork(s: State, s': State, i: nat, w: Work) {
    && i < |s.tickets| && s'.tickets == s.tickets[i := s.tickets[i].(work := w)]
    && s'.mem == s.mem && s'.log == s.log && s'.imm == s.imm && s'.manifest == s.manifest && s'.nextFile == s.nextFile
    && s'.logs.Keys == s.logs.Keys
    && s'.logged == s.logged + if w.Logged? then s.tickets[i].batch else {}
  }

  lemma {:induction false} LogWorkPlaced(s: State, s': State, i: nat, w: Work, j: nat)
    requires LogWork(s, s', i, w) && !Ready(s.tickets[i]) && !w.Applied? && j < |s.tickets|
    requires Placed(s, s.tickets[j]) && Placed(s, s.tickets[i])
    ensures Placed(s', s'.tickets[j])
  {
  }

  lemma {:induction false} LogWorkTraced(s: State, s': State, i: nat, w: Work)
    requires MemTraced(s) && LogWork(s, s', i, w) && !Ready(s.tickets[i]) && !w.Applied?
    ensures MemTraced(s')
  {
    forall n, e | AppliedBy(s.tickets, n, e)
      ensures AppliedBy(s'.tickets, n, e)
    {
      var j :| 0 <= j < |s.tickets| && s.tickets[j].log == n && s.tickets[j].work.Applied? && e in s.tickets[j].batch;
      assert s'.tickets[j] == s.tickets[j];
    }
  }

  lemma {:induction false} LogWorkSafe(s: State, s': State, i: nat, w: Work)
    requires Safe(s) && LogWork(s, s', i, w) && (Has(s.tickets[i]) ==> w.Logged?)
    requires Placed(s, s.tickets[i]) && !Ready(s.tickets[i])
    ensures Safe(s')
  {
    forall e | e in s'.logged && e !in s'.manifest.tables
      ensures LoggedBy(s', e)
    {
      if e in s.logged {
        var j :| 0 <= j < |s.tickets| && Named(s, s.tickets[j]) && Has(s.tickets[j]) && e in s.tickets[j].batch;
        assert Named(s', s'.tickets[j]) && Has(s'.tickets[j]) && e in s'.tickets[j].batch;
      } else {
        assert Named(s', s'.tickets[i]) && Has(s'.tickets[i]) && e in s'.tickets[i].batch;
      }
    }
  }

  lemma {:induction false} LogWorkCovered(s: State, s': State, i: nat, w: Work)
    requires Covered(s) && LogWork(s, s', i, w) && LogsOk(s')
    requires !Ready(s.tickets[i]) && !w.Applied? && (Has(s.tickets[i]) ==> w.Logged?)
    ensures Covered(s')
  {
    assert Placed(s, s.tickets[i]);
    forall j | 0 <= j < |s'.tickets|
      ensures Placed(s', s'.tickets[j])
    {
      assert Placed(s, s.tickets[j]);
      LogWorkPlaced(s, s', i, w, j);
    }
    LogWorkTraced(s, s', i, w);
    LogWorkSafe(s, s', i, w);
  }

  ghost predicate LogsAre(logs: map<nat, Log>, from: nat, ts: seq<Ticket>) {
    forall n :: n in logs && n >= from ==> LogOk(logs[n], n, ts)
  }

  lemma {:induction false} ReserveLogs(logs: map<nat, Log>, from: nat, ts: seq<Ticket>, i: nat, size: nat)
    requires LogsAre(logs, from, ts) && i < |ts| && ts[i].work.Pending?
    ensures var n, ts' := ts[i].log, ts[i := ts[i].(work := Reserved)];
      if n in logs then LogsAre(logs[n := Reserving(logs[n], i, size, ts[i].batch)], from, ts') else LogsAre(logs, from, ts')
  {
    var n, ts' := ts[i].log, ts[i := ts[i].(work := Reserved)];
    forall m | m in logs && m >= from && m != n
      ensures LogOk(logs[m], m, ts')
    {
      OtherLogOk(logs[m], m, ts, i, Reserved);
    }
    if n in logs && n >= from {
      ReserveOk(logs[n], n, ts, i, size);
    }
  }

  lemma {:induction false} ReserveStep(s: State, a: Action)
    requires Covered(s) && Enabled(s, a) && a.Reserve?
    ensures Covered(Apply(s, a))
  {
    var s' := Apply(s, a);
    ReserveLogs(s.logs, s.manifest.logNumber, s.tickets, a.i, a.size);
    assert s'.logs.Keys == s.logs.Keys;
    LogWorkCovered(s, s', a.i, Reserved);
  }

  lemma {:induction false} WriteStep(s: State, a: Action)
    requires Covered(s) && Enabled(s, a) && a.WriteFragment?
    ensures Covered(Apply(s, a))
  {
    var s' := Apply(s, a);
    var n := s.tickets[a.i].log;
    assert s'.logs.Keys == s.logs.Keys && s'.tickets == s.tickets[a.i := s.tickets[a.i].(work := Reserved)];
    if n >= s.manifest.logNumber {
      WriteOk(s.logs[n], n, s.tickets, a.h);
    }
    LogWorkCovered(s, s', a.i, Reserved);
  }

  lemma {:induction false} FinishStep(s: State, a: Action)
    requires Covered(s) && Enabled(s, a) && a.FinishLog?
    ensures Covered(Apply(s, a))
  {
    var s' := Apply(s, a);
    forall n | n in s'.logs && n >= s'.manifest.logNumber
      ensures LogOk(s'.logs[n], n, s'.tickets)
    {
      FinishOk(s.logs[n], n, s.tickets, a.i);
    }
    LogWorkCovered(s, s', a.i, Logged);
  }

  // ----- the memtable

  ghost predicate Inserted(s: State, s': State, i: nat) {
    && i < |s.tickets| && s'.tickets == s.tickets[i := s.tickets[i].(work := Applied)]
    && s'.log == s.log && s'.logs == s.logs && s'.manifest == s.manifest && s'.nextFile == s.nextFile && s'.logged == s.logged
    && (s'.imm.Imm? <==> s.imm.Imm?) && (s.imm.Imm? ==> s'.imm.log == s.imm.log)
    && s'.mem == s.mem + (if s.tickets[i].log == s.log then s.tickets[i].batch else {})
    && (s.imm.Imm? ==>
          s'.imm.entries == s.imm.entries + if s.tickets[i].log == s.imm.log then s.tickets[i].batch else {})
  }

  lemma {:induction false} InsertTraced(s: State, s': State, i: nat)
    requires MemTraced(s) && Inserted(s, s', i) && Evolve(s.tickets, s'.tickets)
    ensures MemTraced(s')
  {
    AppliedStays(s.tickets, s'.tickets);
    assert forall e :: e in s.tickets[i].batch ==> AppliedBy(s'.tickets, s.tickets[i].log, e) by {
      assert s'.tickets[i].work.Applied? && s'.tickets[i].batch == s.tickets[i].batch;
    }
  }

  lemma {:induction false} InsertStep(s: State, a: Action)
    requires Covered(s) && Enabled(s, a) && a.InsertMem?
    ensures Covered(Apply(s, a))
  {
    var s', t := Apply(s, a), s.tickets[a.i];
    assert Files(s) && Inserted(s, s', a.i);
    assert Evolves(t, s'.tickets[a.i]) && Evolve(s.tickets, s'.tickets);
    forall n | n in s'.logs && n >= s'.manifest.logNumber
      ensures LogOk(s'.logs[n], n, s'.tickets)
    {
      EvolveOk(s.logs[n], n, s.tickets, s'.tickets);
    }
    InsertTraced(s, s', a.i);
    assert Placed(s, t);
    forall j | 0 <= j < |s'.tickets|
      ensures Placed(s', s'.tickets[j])
    {
      InsertPlaced(s, s', a.i, j);
    }
    SafeStays(s, s');
  }

  lemma {:induction false} InsertPlaced(s: State, s': State, i: nat, j: nat)
    requires Inserted(s, s', i) && s.tickets[i].work.Logged? && j < |s.tickets|
    requires (forall j :: 0 <= j < |s.tickets| ==> Placed(s, s.tickets[j]))
    ensures Placed(s', s'.tickets[j])
  {
    assert Placed(s, s.tickets[j]) && Placed(s, s.tickets[i]);
  }

  // ----- storage

  lemma {:induction false} SwitchStep(s: State, a: Action)
    requires Covered(s) && Enabled(s, a) && a.SwitchMemTable?
    ensures Covered(Apply(s, a))
  {
    var s' := Apply(s, a);
    forall i | 0 <= i < |s.tickets|
      ensures Placed(s', s'.tickets[i]) && s.tickets[i].log != s.nextFile
    {
      assert Placed(s, s.tickets[i]);
    }
    NewLogOk(s.nextFile, s.tickets);
    assert forall n :: n in s.logs ==> s'.logs[n] == s.logs[n];
    SafeStays(s, s');
  }

  /** Every writer of the immutable memtable with something to write has finished. */
  ghost predicate Finished(s: State)
    requires s.imm.Imm?
  {
    forall i :: 0 <= i < |s.tickets| && s.tickets[i].log == s.imm.log && s.tickets[i].batch != {} ==> Ready(s.tickets[i])
  }

  lemma {:induction false} FlushCovered(s: State)
    requires Covered(s) && s.imm.Imm? && Finished(s)
    ensures Covered(Flushed(s))
  {
    var s' := Flushed(s);
    forall i | 0 <= i < |s.tickets|
      ensures Placed(s', s'.tickets[i])
    {
      assert Placed(s, s.tickets[i]);
    }
    forall i | 0 <= i < |s.tickets| && Named(s, s.tickets[i]) && Has(s.tickets[i])
      ensures Named(s', s'.tickets[i]) || s.tickets[i].batch <= s'.manifest.tables
    {
      assert Placed(s, s.tickets[i]);
    }
    SafeStays(s, s');
  }

  lemma {:induction false} DeleteStep(s: State, a: Action)
    requires Covered(s) && Enabled(s, a) && a.DeleteObsoleteLogs?
    ensures Covered(Apply(s, a))
  {
    var s' := Apply(s, a);
    forall i | 0 <= i < |s.tickets|
      ensures Placed(s', s'.tickets[i])
    {
      assert Placed(s, s.tickets[i]);
    }
    SafeStays(s, s');
  }

  lemma {:induction false} CrashStep(s: State)
    requires Covered(s)
    ensures Inv(Recovered(s))
  {
    NewLogOk(s.nextFile, []);
  }

  lemma {:induction false} TakeStep(s: State, a: Action)
    requires Covered(s) && Enabled(s, a) && (a.TakeTicket? || a.TakeBackupTicket?)
    ensures Covered(Apply(s, a))
  {
    TicketStep(s, Apply(s, a));
  }

  lemma {:induction false} TurnStep(s: State, a: Action)
    requires Covered(s) && Enabled(s, a) && (a.FailLog? || a.LeaveSpin? || a.Publish? || a.Release? || a.RecordVersion?)
    ensures Covered(Apply(s, a))
  {
    TicketStep(s, Apply(s, a));
  }

  lemma {:induction false} StepKeepsInv(s: State, a: Action)
    requires Inv(s) && Enabled(s, a)
    ensures Inv(Apply(s, a))
  {
    StepKeepsOrder(s, a);
    match a
    case TakeTicket(_, _) => TakeStep(s, a);
    case TakeBackupTicket => TakeStep(s, a);
    case Reserve(_, _) => ReserveStep(s, a);
    case WriteFragment(_, _) => WriteStep(s, a);
    case FinishLog(_) => FinishStep(s, a);
    case InsertMem(_) => InsertStep(s, a);
    case SwitchMemTable => SwitchStep(s, a);
    case FlushMemTable => FlushCovered(s);
    case DeleteObsoleteLogs => DeleteStep(s, a);
    case CrashAndRecover => CrashStep(s);
    case _ => TurnStep(s, a);
  }
}
