/** What a crash loses and what it cannot lose, in every reachable state of the write
    protocol. */
module CrashSafety {
  import opened Entries
  import opened LogFormat
  import opened LogHoles
  import opened WriteProtocol
  import opened Durability

  // ----- sequence numbers

  /** Some writer whose log is no longer named wrote e. */
  ghost predicate Retired(s: State, e: Entry) {
    exists i :: 0 <= i < |s.tickets| && !Named(s, s.tickets[i]) && s.tickets[i].work.Applied? && e in s.tickets[i].batch
  }

  /** No table has a sequence above the recorded one, and what was not there at open
      was put there by writers that are done. */
  ghost predicate Fenced(s: State) {
    && s.base <= s.manifest.lastSequence <= s.lastSequence
    && forall e :: e in s.manifest.tables ==> e.seqno <= s.manifest.lastSequence && (e.seqno <= s.base || Retired(s, e))
  }

  ghost predicate Full(s: State) {
    Inv(s) && Fenced(s)
  }

  lemma {:induction false} FencedStays(s: State, s': State)
    requires Fenced(s) && s'.manifest.tables == s.manifest.tables && s'.base == s.base && |s.tickets| <= |s'.tickets|
    requires s.manifest.lastSequence <= s'.manifest.lastSequence <= s'.lastSequence
    requires forall i :: 0 <= i < |s.tickets| ==> s'.tickets[i].log == s.tickets[i].log && s'.tickets[i].batch == s.tickets[i].batch
    requires forall i :: 0 <= i < |s.tickets| && s.tickets[i].work.Applied? ==> s'.tickets[i].work.Applied?
    requires forall i :: 0 <= i < |s.tickets| && !Named(s, s.tickets[i]) ==> !Named(s', s.tickets[i])
    ensures Fenced(s')
  {
    forall e | Retired(s, e)
      ensures Retired(s', e)
    {
      var i :| 0 <= i < |s.tickets| && !Named(s, s.tickets[i]) && s.tickets[i].work.Applied? && e in s.tickets[i].batch;
      assert !Named(s', s'.tickets[i]) && e in s'.tickets[i].batch;
    }
  }

  lemma {:induction false} SwitchFenced(s: State, a: Action)
    requires Full(s) && Enabled(s, a) && a.SwitchMemTable?
    ensures Fenced(Apply(s, a))
  {
    forall i | 0 <= i < |s.tickets|
      ensures s.tickets[i].log <= s.log
    {
      assert Placed(s, s.tickets[i]);
    }
    FencedStays(s, Apply(s, a));
  }

  lemma {:induction false} FlushFenced(s: State, a: Action)
    requires Full(s) && Enabled(s, a) && a.FlushMemTable?
    ensures Fenced(Apply(s, a))
  {
    var s' := Apply(s, a);
    FencedStays(s, s'.(manifest := s'.manifest.(tables := s.manifest.tables)));
    forall e | e in s.imm.entries
      ensures e.seqno <= s.lastSequence && Retired(s', e)
    {
      var i :| 0 <= i < |s.tickets| && s.tickets[i].log == s.imm.log && s.tickets[i].work.Applied? && e in s.tickets[i].batch;
      assert Placed(s, s.tickets[i]);
      ReleasedIsPublished(s, i);
      assert !Named(s', s'.tickets[i]);
    }
    forall e | e in s.manifest.tables
      ensures e.seqno <= s.lastSequence && (e.seqno <= s.base || Retired(s', e))
    {
      assert Retired(s'.(manifest := s'.manifest.(tables := s.manifest.tables)), e) ==> Retired(s', e);
    }
  }

  lemma {:induction false} CrashFenced(s: State)
    requires Fenced(s)
    ensures Fenced(Recovered(s))
  {
  }

  lemma {:induction false} StepKeepsFull(s: State, a: Action)
    requires Full(s) && Enabled(s, a)
    ensures Full(Apply(s, a))
  {
    StepKeepsInv(s, a);
    StepKeepsOrder(s, a);
    if a.SwitchMemTable? {
      SwitchFenced(s, a);
    } else if a.FlushMemTable? {
      FlushFenced(s, a);
    } else if a.CrashAndRecover? {
      CrashFenced(s);
    } else {
      PlainFenced(s, a);
    }
  }

  lemma {:induction false} PlainFenced(s: State, a: Action)
    requires Fenced(s) && Enabled(s, a) && !a.SwitchMemTable? && !a.FlushMemTable? && !a.CrashAndRecover?
    requires s.lastSequence <= Apply(s, a).lastSequence
    ensures Fenced(Apply(s, a))
  {
    var s' := Apply(s, a);
    assert s'.log == s.log && (s'.imm.Imm? <==> s.imm.Imm?) && (s.imm.Imm? ==> s'.imm.log == s.imm.log);
    assert s'.manifest.tables == s.manifest.tables && s'.base == s.base;
    FencedStays(s, s');
  }

  lemma {:induction false} RunKeepsFull(states: seq<State>)
    requires Run(states)
    ensures Full(states[|states| - 1])
    decreases |states|
  {
    var n := |states| - 1;
    if n == 0 {
      InitInv(states[0]);
    } else {
      StepsPrefix(states);
      RunKeepsFull(states[..n]);
      assert StepAt(states, n - 1);
      NextIsFull(states[n - 1], states[n]);
    }
  }

  lemma {:induction false} NextIsFull(s: State, s': State)
    requires Full(s) && Step(s, s')
    ensures Full(s')
  {
    var a :| Enabled(s, a) && s' == Apply(s, a);
    StepKeepsFull(s, a);
  }

  lemma {:induction false} StepsPrefix(states: seq<State>)
    requires Steps(states) && |states| > 1
    ensures Steps(states[..|states| - 1])
  {
    var front := states[..|states| - 1];
    forall i | 0 <= i < |front| - 1
      ensures StepAt(front, i)
    {
      assert StepAt(states, i);
    }
  }

  // ----- which logged records a crash loses

  lemma {:induction false} NotInTables(s: State, i: nat, e: Entry)
    requires Full(s) && i < |s.tickets| && Named(s, s.tickets[i]) && e in s.tickets[i].batch
    ensures e !in s.manifest.tables
  {
    OnlyWriter(s, i, e);
    assert Placed(s, s.tickets[i]);
  }

  lemma {:induction false} OnlyWriter(s: State, i: nat, e: Entry)
    requires Inv(s) && i < |s.tickets| && e in s.tickets[i].batch
    ensures forall j :: 0 <= j < |s.tickets| && e in s.tickets[j].batch ==> j == i
  {
    forall j | 0 <= j < |s.tickets| && e in s.tickets[j].batch
      ensures j == i
    {
      assert Placed(s, s.tickets[i]) && Placed(s, s.tickets[j]);
      OneWriter(s, i, j, e.seqno);
    }
  }

  lemma {:induction false} InDurable(s: State, n: nat, k: nat, e: Entry)
    requires n in s.logs && n >= s.manifest.logNumber && k < |s.logs[n].slots| && Returned(s.logs[n], k)
    requires e in s.logs[n].slots[k].batch
    ensures e in Durable(s)
  {
    assert e in Readable(s.logs[n]);
  }

  /** A logged entry is recoverable exactly when the log reader returns its record. */
  lemma {:induction false} DurableIffReturned(s: State, i: nat, k: nat, e: Entry)
    requires Full(s) && i < |s.tickets| && Named(s, s.tickets[i]) && e in s.tickets[i].batch
    requires s.tickets[i].log in s.logs && Owns(s.logs[s.tickets[i].log], i, k)
    ensures e in Durable(s) <==> Returned(s.logs[s.tickets[i].log], k)
  {
    var n := s.tickets[i].log;
    SlotHasBatch(s.logs[n], n, s.tickets, i, k);
    if Returned(s.logs[n], k) {
      InDurable(s, n, k, e);
    }
    if e in Durable(s) {
      NotInTables(s, i, e);
      OnlyWriter(s, i, e);
      var m, j, q := ReadableHasWriter(s.logs, s.manifest.logNumber, s.tickets, e);
      OneSlot(s.logs[n], n, s.tickets, i, k, q);
    }
  }

  lemma {:induction false} SlotHasBatch(l: Log, n: nat, ts: seq<Ticket>, i: nat, k: nat)
    requires Owned(l, n, ts) && i < |ts| && Owns(l, i, k)
    ensures l.slots[k].batch == ts[i].batch
  {
    assert SlotOwned(l, n, ts, k);
  }

  lemma {:induction false} OneSlot(l: Log, n: nat, ts: seq<Ticket>, i: nat, k: nat, q: nat)
    requires Owned(l, n, ts) && Owns(l, i, k) && Owns(l, i, q)
    ensures k == q
  {
  }

  lemma {:induction false} ReadableHasWriter(logs: map<nat, Log>, from: nat, ts: seq<Ticket>, e: Entry) returns (n: nat, j: nat, k: nat)
    requires LogsAre(logs, from, ts) && e in LogEntries(logs, from)
    ensures n in logs && n >= from && j < |ts| && ts[j].log == n && e in ts[j].batch && Owns(logs[n], j, k) && Returned(logs[n], k)
  {
    n :| n in logs && n >= from && e in Readable(logs[n]);
    k :| k < |logs[n].slots| && Returned(logs[n], k) && e in logs[n].slots[k].batch;
    j := logs[n].slots[k].owner;
    assert LogOk(logs[n], n, ts) && SlotOwned(logs[n], n, ts, k);
  }

  ghost predicate HasPlace(l: Log, i: nat, x: Place) {
    exists k: nat :: Owns(l, i, k) && x in l.slots[k].places
  }

  /** Writer u has an unwritten fragment at or before one of writer i's fragments in
      its block. */
  ghost predicate Hides(l: Log, u: nat, i: nat) {
    exists x, h :: x in l.holes && HasPlace(l, u, x) && HasPlace(l, i, h) && Blocks(x, h)
  }

  ghost predicate HiddenBy(s: State, i: nat, u: nat) {
    && i < |s.tickets| && u < |s.tickets| && s.tickets[u].log == s.tickets[i].log && !Has(s.tickets[u])
    && s.tickets[i].log in s.logs && Hides(s.logs[s.tickets[i].log], u, i)
  }

  lemma {:induction false} HoleHasWriter(l: Log, n: nat, ts: seq<Ticket>, i: nat, k: nat) returns (u: nat)
    requires LogOk(l, n, ts) && Owns(l, i, k) && !Returned(l, k)
    ensures u < |ts| && ts[u].log == n && !Has(ts[u]) && Hides(l, u, i)
  {
    var h :| h in l.slots[k].places && !Clear(l.holes, h);
    var x :| x in l.holes && Blocks(x, h);
    var q: nat :| InSlot(l, q, x);
    u := l.slots[q].owner;
    assert SlotOwned(l, n, ts, q) && Owns(l, u, q);
    assert HasPlace(l, u, x) && HasPlace(l, i, h);
  }

  lemma {:induction false} HiddenIsNotReturned(l: Log, n: nat, ts: seq<Ticket>, i: nat, k: nat, u: nat)
    requires Owned(l, n, ts) && Owns(l, i, k) && Hides(l, u, i)
    ensures !Returned(l, k)
  {
    var x, h :| x in l.holes && HasPlace(l, u, x) && HasPlace(l, i, h) && Blocks(x, h);
    var m: nat :| Owns(l, i, m) && h in l.slots[m].places;
    assert m == k;
    assert !Clear(l.holes, h);
  }

  lemma {:induction false} ReturnedIffNotHidden(s: State, i: nat, k: nat)
    requires Inv(s) && i < |s.tickets| && Named(s, s.tickets[i])
    requires s.tickets[i].log in s.logs && Owns(s.logs[s.tickets[i].log], i, k)
    ensures Returned(s.logs[s.tickets[i].log], k) <==> !exists u: nat :: HiddenBy(s, i, u)
  {
    var n := s.tickets[i].log;
    var l := s.logs[n];
    assert LogOk(l, n, s.tickets);
    if !Returned(l, k) {
      var u := HoleHasWriter(l, n, s.tickets, i, k);
      assert HiddenBy(s, i, u);
    }
    if u: nat :| HiddenBy(s, i, u) {
      HiddenIsNotReturned(l, n, s.tickets, i, k, u);
    }
  }

  /** After a crash at any moment of any run, a logged entry that is not yet in a table
      is recovered if and only if no writer of the same log has an unwritten fragment
      at or before one of the entry's fragments in the same block. */
  lemma {:induction false} LoggedIsRecoveredIff(states: seq<State>, i: nat, e: Entry)
    requires Run(states)
    requires var s := states[|states| - 1]; i < |s.tickets| && Has(s.tickets[i]) && e in s.tickets[i].batch
    ensures var s := states[|states| - 1];
      e in Durable(Recovered(s)) <==> (Named(s, s.tickets[i]) ==> !exists u: nat :: HiddenBy(s, i, u))
  {
    var s := states[|states| - 1];
    RunKeepsFull(states);
    RecoveredIsDurable(s);
    DurableIffNotHidden(s, i, e);
  }

  lemma {:induction false} DurableIffNotHidden(s: State, i: nat, e: Entry)
    requires Full(s) && i < |s.tickets| && Has(s.tickets[i]) && e in s.tickets[i].batch
    ensures e in Durable(s) <==> (Named(s, s.tickets[i]) ==> !exists u: nat :: HiddenBy(s, i, u))
  {
    assert Placed(s, s.tickets[i]);
    if Named(s, s.tickets[i]) {
      var k := SlotOf(s, i);
      DurableIffReturned(s, i, k, e);
      ReturnedIffNotHidden(s, i, k);
    }
  }

  lemma {:induction false} SlotOf(s: State, i: nat) returns (k: nat)
    requires Covered(s) && i < |s.tickets| && Named(s, s.tickets[i]) && Has(s.tickets[i]) && s.tickets[i].batch != {}
    ensures s.tickets[i].log in s.logs && Owns(s.logs[s.tickets[i].log], i, k)
  {
    var n := s.tickets[i].log;
    assert LogOk(s.logs[n], n, s.tickets) && HasSlot(s.logs[n], i);
    k :| Owns(s.logs[n], i, k);
  }

  lemma {:induction false} RecoveredIsDurable(s: State)
    requires Inv(s)
    ensures Durable(Recovered(s)) == Durable(s)
  {
    var s' := Recovered(s);
    NewLogOk(s.nextFile, []);
    assert LogEntries(s'.logs, s'.manifest.logNumber) == {};
  }

  /** A crash after any run loses no logged entry that no unwritten fragment hides, and
      no sequence number that was recovered is handed out again. */
  lemma {:induction false} NothingLoggedIsLost(states: seq<State>, count: nat, batch: set<Entry>)
    requires Run(states)
    requires Enabled(Recovered(states[|states| - 1]), TakeTicket(count, batch))
    ensures var s := states[|states| - 1]; var r := Recovered(s);
      && (forall e :: e in s.logged ==>
            e in Durable(r) || exists i: nat, u: nat :: HiddenBy(s, i, u) && e in s.tickets[i].batch)
      && (forall e, f :: e in batch && f in Durable(r) ==> e.seqno > f.seqno)
      && Full(r)
  {
    var s := states[|states| - 1];
    RunKeepsFull(states);
    RecoveredIsDurable(s);
    StepKeepsFull(s, CrashAndRecover);
    forall e | e in s.logged && e !in Durable(s)
      ensures exists i: nat, u: nat :: HiddenBy(s, i, u) && e in s.tickets[i].batch
    {
      var i :| 0 <= i < |s.tickets| && Named(s, s.tickets[i]) && Has(s.tickets[i]) && e in s.tickets[i].batch;
      LoggedIsRecoveredIff(states, i, e);
    }
  }

  /** If every reserved extent is written, a crash loses nothing that was logged. */
  lemma {:induction false} WholeLogsLoseNothing(states: seq<State>)
    requires Run(states)
    requires var s := states[|states| - 1]; forall n :: n in s.logs && n >= s.manifest.logNumber ==> s.logs[n].holes == {}
    ensures states[|states| - 1].logged <= Durable(states[|states| - 1])
  {
    var s := states[|states| - 1];
    RunKeepsFull(states);
    forall e | e in s.logged
      ensures e in Durable(s)
    {
      if e !in s.manifest.tables {
        var i :| 0 <= i < |s.tickets| && Named(s, s.tickets[i]) && Has(s.tickets[i]) && e in s.tickets[i].batch;
        LoggedIsRecoveredIff(states, i, e);
        RecoveredIsDurable(s);
      }
    }
  }

  /** Extents are reserved in ticket order. */
  ghost predicate InTicketOrder(l: Log) {
    forall j, k :: 0 <= j < k < |l.slots| ==> l.slots[j].owner < l.slots[k].owner
  }

  /** If extents were reserved in ticket order and no append failed, a crash loses no
      write that has returned. */
  lemma {:induction false} OrderedLogKeepsAcknowledged(states: seq<State>, i: nat)
    requires Run(states)
    requires var s := states[|states| - 1];
      && i < |s.tickets| && s.tickets[i].turn.Released? && Has(s.tickets[i])
      && (s.tickets[i].log in s.logs ==> InTicketOrder(s.logs[s.tickets[i].log]))
      && (forall u :: 0 <= u < i ==> !s.tickets[u].work.Failed?)
    ensures states[|states| - 1].tickets[i].batch <= Durable(states[|states| - 1])
  {
    var s := states[|states| - 1];
    RunKeepsFull(states);
    RecoveredIsDurable(s);
    forall e | e in s.tickets[i].batch
      ensures e in Durable(s)
    {
      LoggedIsRecoveredIff(states, i, e);
      forall u: nat | Named(s, s.tickets[i])
        ensures !HiddenBy(s, i, u)
      {
        NothingHidesAcknowledged(s, i, u);
      }
    }
  }

  lemma {:induction false} NothingHidesAcknowledged(s: State, i: nat, u: nat)
    requires Inv(s) && i < |s.tickets| && Named(s, s.tickets[i]) && s.tickets[i].turn.Released? && Has(s.tickets[i])
    requires s.tickets[i].log in s.logs ==> InTicketOrder(s.logs[s.tickets[i].log])
    requires forall u :: 0 <= u < i ==> !s.tickets[u].work.Failed?
    ensures !HiddenBy(s, i, u)
  {
    var n := s.tickets[i].log;
    assert LogOk(s.logs[n], n, s.tickets);
    ReleasedIsPublished(s, i);
    if Hides(s.logs[n], u, i) {
      HiddenByEarlier(s.logs[n], u, i);
    }
  }

  lemma {:induction false} HiddenByEarlier(l: Log, u: nat, i: nat)
    requires Laid(l) && InTicketOrder(l) && Hides(l, u, i)
    ensures u <= i
  {
    var x, h :| x in l.holes && HasPlace(l, u, x) && HasPlace(l, i, h) && Blocks(x, h);
    var k: nat :| Owns(l, u, k) && x in l.slots[k].places;
    var m: nat :| Owns(l, i, m) && h in l.slots[m].places;
    BlocksFromBefore(x, h);
    SlotOrder(l, k, m, x, h);
    assert k == m || l.slots[k].owner < l.slots[m].owner;
  }

  lemma {:induction false} SlotOrder(l: Log, k: nat, m: nat, x: Place, h: Place)
    requires Laid(l) && k < |l.slots| && m < |l.slots| && x in l.slots[k].places && h in l.slots[m].places && Off(x) <= Off(h)
    ensures k <= m
  {
    assert Within(l.slots[k]) && Within(l.slots[m]);
  }

  // ----- what is recoverable stays recoverable

  /** A record the reader returns is still returned after any step that leaves its log
      named. */
  lemma {:induction false} ReturnedStays(s: State, a: Action, n: nat, k: nat)
    requires Covered(s) && Enabled(s, a) && !a.CrashAndRecover?
    requires n in s.logs && n >= Apply(s, a).manifest.logNumber && s.manifest.logNumber <= n
    requires k < |s.logs[n].slots| && Returned(s.logs[n], k)
    ensures var l' := Apply(s, a).logs;
      n in l' && k < |l'[n].slots| && l'[n].slots[k] == s.logs[n].slots[k] && Returned(l'[n], k)
  {
    var l := s.logs[n];
    assert LogOk(l, n, s.tickets);
    if a.Reserve? && s.tickets[a.i].log == n {
      ReserveReturned(l, a.i, a.size, s.tickets[a.i].batch, k);
    } else if a.WriteFragment? {
      FewerHoles(l.holes, l.holes - {a.h}, l.slots[k].places);
    }
  }

  lemma {:induction false} ReserveReturned(l: Log, i: nat, size: nat, batch: set<Entry>, k: nat)
    requires Laid(l) && k < |l.slots| && Returned(l, k)
    ensures Reserving(l, i, size, batch).slots[k] == l.slots[k] && Returned(Reserving(l, i, size, batch), k)
  {
    var places, end := Places(l.end, size), EndPlace(l.end, size);
    forall h | h in places
      ensures Off(l.end) <= Off(h) < Off(end)
    {
      PlacesWithin(l.end, size, h);
    }
    AppendKeeps(l, Slot(size, l.end, end, places, batch, i), k);
  }

  /** Once a logged entry is recoverable it stays so, through every step and crash. */
  lemma {:induction false} OnceDurable(s: State, a: Action, e: Entry)
    requires Full(s) && Enabled(s, a) && e in s.logged && e in Durable(s)
    ensures e in Apply(s, a).logged && e in Durable(Apply(s, a))
  {
    if a.CrashAndRecover? {
      RecoveredIsDurable(s);
    } else if e in s.manifest.tables {
      TablesGrow(s, a);
    } else {
      var i :| 0 <= i < |s.tickets| && Named(s, s.tickets[i]) && Has(s.tickets[i]) && e in s.tickets[i].batch;
      if a.FlushMemTable? && s.tickets[i].log == s.imm.log {
        GuardedTableIsComplete(s);
      } else {
        LoggedStays(s, a, i, e);
      }
    }
    LoggedGrows(s, a);
  }

  lemma {:induction false} TablesGrow(s: State, a: Action)
    requires Enabled(s, a) && !a.CrashAndRecover?
    ensures s.manifest.tables <= Apply(s, a).manifest.tables
  {
  }

  lemma {:induction false} LoggedGrows(s: State, a: Action)
    requires Enabled(s, a)
    ensures s.logged * Durable(s) <= Apply(s, a).logged
  {
  }

  /** The flush guard is enough: the memtable has all its writers logged. */
  lemma {:induction false} GuardedTableIsComplete(s: State)
    requires Inv(s) && Enabled(s, FlushMemTable)
    ensures Finished(s)
    ensures forall i :: 0 <= i < |s.tickets| && s.tickets[i].log == s.imm.log && Has(s.tickets[i]) ==>
              s.tickets[i].batch <= s.imm.entries
  {
    forall i | 0 <= i < |s.tickets| && s.tickets[i].log == s.imm.log
      ensures Ready(s.tickets[i]) && (Has(s.tickets[i]) ==> s.tickets[i].batch <= s.imm.entries)
    {
      assert Placed(s, s.tickets[i]);
    }
  }

  lemma {:induction false} LoggedStays(s: State, a: Action, i: nat, e: Entry)
    requires Full(s) && Enabled(s, a) && !a.CrashAndRecover? && e in Durable(s)
    requires i < |s.tickets| && Named(s, s.tickets[i]) && Has(s.tickets[i]) && e in s.tickets[i].batch
    requires a.FlushMemTable? ==> s.tickets[i].log == s.log
    ensures e in Durable(Apply(s, a))
  {
    var n := s.tickets[i].log;
    var k := SlotOf(s, i);
    DurableIffReturned(s, i, k, e);
    LogStaysNamed(s, a, n);
    SlotHasBatch(s.logs[n], n, s.tickets, i, k);
    ReturnedStays(s, a, n, k);
    InDurable(Apply(s, a), n, k, e);
  }

  lemma {:induction false} LogStaysNamed(s: State, a: Action, n: nat)
    requires Covered(s) && Enabled(s, a) && !a.CrashAndRecover? && n in s.logs
    requires n == s.log || (s.imm.Imm? && n == s.imm.log && !a.FlushMemTable?)
    ensures s.manifest.logNumber <= n && Apply(s, a).manifest.logNumber <= n && LogOk(s.logs[n], n, s.tickets)
  {
  }

  // ----- publication

  /** Once the last sequence reaches a ticket's end, its log and memtable work
      is finished. */
  lemma {:induction false} PublishedMeansWorked(states: seq<State>, i: nat)
    requires Run(states) && i < |states[|states| - 1].tickets|
    requires states[|states| - 1].tickets[i].end <= states[|states| - 1].lastSequence
    ensures Ready(states[|states| - 1].tickets[i])
  {
    var s := states[|states| - 1];
    RunKeepsFull(states);
    if i >= s.served {
      WaitingEndsLater(s, i);
    }
  }
}
