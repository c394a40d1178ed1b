/** What the writers of a run asked for and how far they came, told from the list of
    actions alone; that every state of the protocol agrees with it; and what that leaves
    for recovery and for readers. */
module ProtocolHistory {
  import opened Entries
  import opened LogFormat
  import opened LogHoles
  import opened WriteProtocol
  import opened Durability
  import opened CrashSafety
  import opened ConcurrentReads

  ghost predicate StepBy(s: State, a: Action, s': State) {
    Enabled(s, a) && s' == Apply(s, a)
  }

  ghost predicate ActionAt(states: seq<State>, acts: seq<Action>, i: int) {
    0 <= i < |acts| && i + 1 < |states| ==> StepBy(states[i], acts[i], states[i + 1])
  }

  /** The run that these actions make. */
  ghost predicate RunBy(states: seq<State>, acts: seq<Action>) {
    && |states| == |acts| + 1
    && Init(states[0])
    && forall i :: ActionAt(states, acts, i)
  }

  lemma {:induction false} RunOf(states: seq<State>, acts: seq<Action>)
    requires RunBy(states, acts)
    ensures Run(states)
  {
    forall i | 0 <= i < |states| - 1
      ensures StepAt(states, i)
    {
      assert ActionAt(states, acts, i);
    }
  }

  lemma {:induction false} RunFront(states: seq<State>, acts: seq<Action>)
    requires RunBy(states, acts) && |acts| > 0
    ensures RunBy(states[..|acts|], acts[..|acts| - 1])
    ensures StepBy(states[|acts| - 1], acts[|acts| - 1], states[|acts|])
  {
    var n := |acts| - 1;
    var front, before := states[..n + 1], acts[..n];
    forall i
      ensures ActionAt(front, before, i)
    {
      if 0 <= i < n {
        assert ActionAt(states, acts, i);
        assert front[i] == states[i] && front[i + 1] == states[i + 1] && before[i] == acts[i];
      }
    }
    assert ActionAt(states, acts, n);
  }

  // ----- the history

  /** One writer: its batch, how many sequences it took, the number of its log, how far
      its work and its turn are, where the fragments of the extent it reserved have their
      headers, and which of them are written. */
  datatype Told = Told(batch: set<Entry>, sequences: nat, log: nat, work: Work, turn: Turn,
    places: set<Place>, written: set<Place>)

  /** Since the database was last opened: the number of the current log, whether the one
      before it is still named, what there was at open, where each log ends, and the
      writers in the order they took their tickets. */
  datatype Past = Past(log: nat, imm: bool, found: set<Entry>, ends: map<nat, Place>, writers: seq<Told>)

  predicate InLog(p: Past, n: nat) {
    n == p.log || (p.imm && n + 1 == p.log)
  }

  /** Writer u left a fragment unwritten at or before one of writer i's in its block. */
  ghost predicate Shadows(ws: seq<Told>, u: int, i: int) {
    && 0 <= u < |ws| && 0 <= i < |ws| && ws[u].log == ws[i].log
    && exists x, h :: x in ws[u].places && x !in ws[u].written && h in ws[i].places && Blocks(x, h)
  }

  ghost predicate Shadowed(ws: seq<Told>, i: int) {
    exists u :: Shadows(ws, u, i)
  }

  /** A batch whose log is still named survives if it has an extent and nobody's unwritten
      fragment, its own included, stands before it; another if it went to a memtable. */
  ghost predicate Survives(p: Past, i: int) {
    && 0 <= i < |p.writers|
    && if InLog(p, p.writers[i].log) then p.writers[i].places != {} && !Shadowed(p.writers, i) else p.writers[i].work.Applied?
  }

  /** What a crash at this moment leaves. */
  ghost function Surviving(p: Past): set<Entry> {
    p.found + set i, e | 0 <= i < |p.writers| && Survives(p, i) && e in p.writers[i].batch :: e
  }

  ghost function Opened(log: nat, found: set<Entry>): Past {
    Past(log, false, found, map[log := LogStart(log)], [])
  }

  ghost function Change(p: Past, i: nat, w: Told): Past
    requires i < |p.writers|
  {
    p.(writers := p.writers[i := w])
  }

  ghost function Tell(p: Past, a: Action): Past {
    match a
    case TakeTicket(count, batch) => p.(writers := p.writers + [Told(batch, count + 1, p.log, Pending, Waiting, {}, {})])
    case TakeBackupTicket => p.(writers := p.writers + [Told({}, 1, p.log, Applied, Waiting, {}, {})])
    case SwitchMemTable => p.(log := p.log + 1, imm := true, ends := p.ends[p.log + 1 := LogStart(p.log + 1)])
    case FlushMemTable => p.(imm := false)
    case RecordVersion => p
    case DeleteObsoleteLogs => p
    case CrashAndRecover => Opened(p.log + 1, Surviving(p))
    case _ => if a.i < |p.writers| then TellWriter(p, a, p.writers[a.i]) else p
  }

  ghost function TellWriter(p: Past, a: Action, w: Told): Past
    requires Mine(a) && a.i < |p.writers|
  {
    match a
    case Reserve(i, size) =>
      if w.log in p.ends then
        var at := p.ends[w.log];
        Change(p, i, w.(work := Reserved, places := Places(at, size))).(ends := p.ends[w.log := EndPlace(at, size)])
      else Change(p, i, w.(work := Reserved))
    case WriteFragment(i, h) => Change(p, i, w.(written := w.written + {h}))
    case FinishLog(i) => Change(p, i, w.(work := Logged))
    case FailLog(i) => Change(p, i, w.(work := Failed))
    case InsertMem(i) => Change(p, i, w.(work := Applied))
    case LeaveSpin(i) => Change(p, i, w.(turn := Entered))
    case Publish(i) => Change(p, i, w.(turn := Published))
    case Release(i) => Change(p, i, w.(turn := Released))
  }

  /** A step of one writer. */
  predicate Mine(a: Action) {
    a.Reserve? || a.WriteFragment? || a.FinishLog? || a.FailLog? || a.InsertMem? || a.LeaveSpin? || a.Publish? || a.Release?
  }

  ghost function History(log: nat, acts: seq<Action>): Past {
    if acts == [] then Opened(log, {}) else Tell(History(log, acts[..|acts| - 1]), acts[|acts| - 1])
  }

  // ----- agreement

  ghost predicate TicketTold(t: Ticket, w: Told) {
    && t.batch == w.batch && t.end + 1 - t.start == w.sequences && t.log == w.log && t.work == w.work && t.turn == w.turn
    && (w.work.Pending? ==> w.places == {} && w.written == {})
  }

  /** An extent is its writer's, and its holes are the fragments not written. */
  ghost predicate SlotTold(l: Log, k: nat, w: Told)
    requires k < |l.slots|
  {
    l.slots[k].places == w.places && w.places != {} && w.places * l.holes == w.places - w.written
  }

  ghost predicate SlotToldOf(l: Log, k: nat, ws: seq<Told>)
    requires k < |l.slots|
  {
    l.slots[k].owner < |ws| && SlotTold(l, k, ws[l.slots[k].owner])
  }

  ghost predicate LogTold(l: Log, n: nat, end: Place, ws: seq<Told>) {
    && l.end == end
    && (forall k: nat :: k < |l.slots| ==> SlotToldOf(l, k, ws))
    && (forall i: nat :: i < |ws| && ws[i].log == n && ws[i].places != {} ==> HasSlot(l, i))
  }

  ghost predicate LogsTold(s: State, p: Past) {
    forall n :: n in s.logs && n >= s.manifest.logNumber ==> n in p.ends && LogTold(s.logs[n], n, p.ends[n], p.writers)
  }

  ghost predicate TicketsTold(ts: seq<Ticket>, ws: seq<Told>) {
    |ts| == |ws| && forall i :: 0 <= i < |ws| ==> TicketTold(ts[i], ws[i])
  }

  ghost predicate FilesTold(s: State, p: Past) {
    s.log == p.log && s.nextFile == p.log + 1 && s.imm.Imm? == p.imm && (p.imm ==> s.imm.log + 1 == p.log)
  }

  ghost predicate OpenedTold(s: State, p: Past) {
    forall e :: e in p.found <==> e in s.manifest.tables && e.seqno <= s.base
  }

  ghost predicate Agrees(s: State, p: Past) {
    FilesTold(s, p) && OpenedTold(s, p) && TicketsTold(s.tickets, p.writers) && LogsTold(s, p)
  }

  // ----- one log

  lemma {:induction false} SlotsApart(l: Log, j: nat, k: nat)
    requires Laid(l) && j < |l.slots| && k < |l.slots| && j != k
    ensures l.slots[j].places !! l.slots[k].places
  {
    assert Within(l.slots[j]) && Within(l.slots[k]);
  }

  lemma {:induction false} OwnersDiffer(l: Log, n: nat, ts: seq<Ticket>, q: nat, k: nat)
    requires LogOk(l, n, ts) && q < |l.slots| && k < |l.slots| && q != k
    ensures l.slots[q].owner != l.slots[k].owner
  {
  }

  /** A new extent has nothing written, and takes nothing from the others. */
  lemma {:induction false} AppendTold(l: Log, n: nat, ts: seq<Ticket>, ws: seq<Told>, i: nat, slot: Slot, w: Told)
    requires |ts| == |ws| && LogOk(l, n, ts) && LogTold(l, n, l.end, ws) && i < |ts| && ts[i].work.Pending?
    requires slot.start == l.end && Within(slot) && slot.owner == i && slot.places != {}
    requires w.log == ws[i].log && w.places == slot.places && w.written == {}
    ensures LogTold(Appending(l, slot), n, slot.end, ws[i := w])
  {
    var l', ws' := Appending(l, slot), ws[i := w];
    forall k: nat | k < |l'.slots|
      ensures SlotToldOf(l', k, ws')
    {
      if k < |l.slots| {
        assert SlotOwned(l, n, ts, k) && SlotToldOf(l, k, ws);
        assert Within(l.slots[k]) && l'.slots[k] == l.slots[k];
        assert l.slots[k].places !! slot.places;
        assert l.slots[k].places * (l.holes + slot.places) == l.slots[k].places * l.holes;
      } else {
        assert slot.places * (l.holes + slot.places) == slot.places;
      }
    }
    forall j: nat | j < |ws'| && ws'[j].log == n && ws'[j].places != {}
      ensures HasSlot(l', j)
    {
      AppendHasSlot(l, slot, j);
    }
  }

  lemma {:induction false} ReserveTold(l: Log, n: nat, ts: seq<Ticket>, ws: seq<Told>, i: nat, size: nat)
    requires |ts| == |ws| && LogOk(l, n, ts) && LogTold(l, n, l.end, ws) && i < |ts| && ts[i].work.Pending? && ws[i].written == {}
    ensures LogTold(Reserving(l, i, size, ts[i].batch), n, EndPlace(l.end, size),
              ws[i := ws[i].(work := Reserved, places := Places(l.end, size))])
  {
    var slot := Slot(size, l.end, EndPlace(l.end, size), Places(l.end, size), ts[i].batch, i);
    forall h | h in slot.places
      ensures Off(slot.start) <= Off(h) < Off(slot.end)
    {
      PlacesWithin(l.end, size, h);
    }
    assert HeaderAt(l.end) in slot.places;
    AppendTold(l, n, ts, ws, i, slot, ws[i].(work := Reserved, places := slot.places));
  }

  /** A fragment written closes the hole it leaves and no other. */
  lemma {:induction false} WriteTold(l: Log, n: nat, ts: seq<Ticket>, ws: seq<Told>, i: nat, k: nat, h: Place)
    requires LogOk(l, n, ts) && LogTold(l, n, l.end, ws) && i < |ws| && Owns(l, i, k) && h in l.slots[k].places
    ensures LogTold(l.(holes := l.holes - {h}), n, l.end, ws[i := ws[i].(written := ws[i].written + {h})])
  {
    var l', ws' := l.(holes := l.holes - {h}), ws[i := ws[i].(written := ws[i].written + {h})];
    forall q: nat | q < |l'.slots|
      ensures SlotToldOf(l', q, ws')
    {
      assert SlotToldOf(l, q, ws);
      if q != k {
        SlotsApart(l, q, k);
        OwnersDiffer(l, n, ts, q, k);
        assert l.slots[q].places * (l.holes - {h}) == l.slots[q].places * l.holes;
      } else {
        var ps := l.slots[k].places;
        assert ps * (l.holes - {h}) == ps * l.holes - {h};
        assert ps - (ws[i].written + {h}) == ps - ws[i].written - {h};
      }
    }
    forall j: nat | j < |ws'| && ws'[j].log == n && ws'[j].places != {}
      ensures HasSlot(l', j)
    {
      var q: nat :| Owns(l, j, q);
      assert Owns(l', j, q);
    }
  }

  ghost predicate SameExtent(w: Told, w': Told) {
    w'.log == w.log && w'.places == w.places && w'.written == w.written
  }

  /** What writers do otherwise, and new writers, change no extent. */
  lemma {:induction false} SameExtents(l: Log, n: nat, ws: seq<Told>, ws': seq<Told>)
    requires LogTold(l, n, l.end, ws) && |ws| <= |ws'|
    requires forall i :: 0 <= i < |ws| ==> SameExtent(ws[i], ws'[i])
    requires forall i :: |ws| <= i < |ws'| ==> ws'[i].places == {}
    ensures LogTold(l, n, l.end, ws')
  {
    forall k: nat | k < |l.slots|
      ensures SlotToldOf(l, k, ws')
    {
      assert SlotToldOf(l, k, ws) && SameExtent(ws[l.slots[k].owner], ws'[l.slots[k].owner]);
    }
    forall i: nat | i < |ws'| && ws'[i].log == n && ws'[i].places != {}
      ensures HasSlot(l, i)
    {
      assert i < |ws| && SameExtent(ws[i], ws'[i]);
    }
  }

  /** A writer of another log changes no extent of this one. */
  lemma {:induction false} OtherExtents(l: Log, n: nat, ts: seq<Ticket>, ws: seq<Told>, i: nat, w: Told)
    requires |ts| == |ws| && LogOk(l, n, ts) && LogTold(l, n, l.end, ws) && i < |ws| && ts[i].log != n && w.log != n
    ensures LogTold(l, n, l.end, ws[i := w])
  {
    var ws' := ws[i := w];
    forall k: nat | k < |l.slots|
      ensures SlotToldOf(l, k, ws')
    {
      assert SlotOwned(l, n, ts, k) && SlotToldOf(l, k, ws);
    }
  }

  // ----- one step

  lemma {:induction false} LogsSame(s: State, p: Past, s': State, p': Past)
    requires LogsTold(s, p) && s'.logs == s.logs && s'.manifest.logNumber == s.manifest.logNumber && p'.ends == p.ends
    requires |p.writers| <= |p'.writers|
    requires forall i :: 0 <= i < |p.writers| ==> SameExtent(p.writers[i], p'.writers[i])
    requires forall i :: |p.writers| <= i < |p'.writers| ==> p'.writers[i].places == {}
    ensures LogsTold(s', p')
  {
    forall n | n in s.logs && n >= s.manifest.logNumber
      ensures n in p'.ends && LogTold(s'.logs[n], n, p'.ends[n], p'.writers)
    {
      SameExtents(s.logs[n], n, p.writers, p'.writers);
    }
  }

  lemma {:induction false} TakeStep(s: State, p: Past, a: Action)
    requires Agrees(s, p) && Enabled(s, a) && (a.TakeTicket? || a.TakeBackupTicket?)
    ensures Agrees(Apply(s, a), Tell(p, a))
  {
    LogsSame(s, p, Apply(s, a), Tell(p, a));
  }

  lemma {:induction false} TurnStep(s: State, p: Past, a: Action)
    requires Agrees(s, p) && Enabled(s, a) && Mine(a) && !a.Reserve? && !a.WriteFragment? && !a.InsertMem?
    ensures Agrees(Apply(s, a), Tell(p, a))
  {
    assert TicketTold(s.tickets[a.i], p.writers[a.i]);
    LogsSame(s, p, Apply(s, a), Tell(p, a));
  }

  lemma {:induction false} InsertStep(s: State, p: Past, i: nat)
    requires Agrees(s, p) && Enabled(s, InsertMem(i))
    ensures Agrees(Apply(s, InsertMem(i)), Tell(p, InsertMem(i)))
  {
    assert TicketTold(s.tickets[i], p.writers[i]);
    LogsSame(s, p, Apply(s, InsertMem(i)), Tell(p, InsertMem(i)));
  }

  /** Only the writer's own log changes, and its end. */
  lemma {:induction false} OneLogChanges(s: State, p: Past, s': State, p': Past, i: nat, w: Told)
    requires LogsOk(s) && LogsTold(s, p) && |s.tickets| == |p.writers| && i < |p.writers|
    requires s'.manifest.logNumber == s.manifest.logNumber && s.tickets[i].log == w.log && p'.writers == p.writers[i := w]
    requires forall m :: m in s'.logs && m != w.log ==> m in s.logs && s'.logs[m] == s.logs[m]
    requires forall m :: m in p.ends && m != w.log ==> m in p'.ends && p'.ends[m] == p.ends[m]
    requires w.log in s'.logs && w.log >= s'.manifest.logNumber ==>
      w.log in p'.ends && LogTold(s'.logs[w.log], w.log, p'.ends[w.log], p'.writers)
    ensures LogsTold(s', p')
  {
    forall m | m in s'.logs && m >= s'.manifest.logNumber
      ensures m in p'.ends && LogTold(s'.logs[m], m, p'.ends[m], p'.writers)
    {
      if m != w.log {
        assert LogOk(s.logs[m], m, s.tickets);
        OtherExtents(s.logs[m], m, s.tickets, p.writers, i, w);
      }
    }
  }

  lemma {:induction false} ReserveStep(s: State, p: Past, i: nat, size: nat)
    requires LogsOk(s) && Agrees(s, p) && Enabled(s, Reserve(i, size))
    ensures Agrees(Apply(s, Reserve(i, size)), Tell(p, Reserve(i, size)))
  {
    var s', p' := Apply(s, Reserve(i, size)), Tell(p, Reserve(i, size));
    assert TicketTold(s.tickets[i], p.writers[i]);
    var n := s.tickets[i].log;
    if n in s.logs && n >= s.manifest.logNumber {
      assert LogOk(s.logs[n], n, s.tickets);
      ReserveTold(s.logs[n], n, s.tickets, p.writers, i, size);
    }
    OneLogChanges(s, p, s', p', i, p'.writers[i]);
  }

  lemma {:induction false} WriteStep(s: State, p: Past, i: nat, h: Place)
    requires LogsOk(s) && Agrees(s, p) && Enabled(s, WriteFragment(i, h))
    ensures Agrees(Apply(s, WriteFragment(i, h)), Tell(p, WriteFragment(i, h)))
  {
    var s', p' := Apply(s, WriteFragment(i, h)), Tell(p, WriteFragment(i, h));
    assert TicketTold(s.tickets[i], p.writers[i]);
    var n := s.tickets[i].log;
    var k: nat :| Owns(s.logs[n], i, k) && h in s.logs[n].slots[k].places;
    if n >= s.manifest.logNumber {
      assert LogOk(s.logs[n], n, s.tickets);
      WriteTold(s.logs[n], n, s.tickets, p.writers, i, k, h);
    }
    OneLogChanges(s, p, s', p', i, p'.writers[i]);
  }

  lemma {:induction false} SwitchStep(s: State, p: Past)
    requires Inv(s) && Agrees(s, p) && Enabled(s, SwitchMemTable)
    ensures Agrees(Apply(s, SwitchMemTable), Tell(p, SwitchMemTable))
  {
    var s', p' := Apply(s, SwitchMemTable), Tell(p, SwitchMemTable);
    forall m | m in s'.logs && m >= s'.manifest.logNumber
      ensures m in p'.ends && LogTold(s'.logs[m], m, p'.ends[m], p'.writers)
    {
      if m == s.nextFile {
        forall i | 0 <= i < |p.writers|
          ensures p.writers[i].log != m
        {
          assert Placed(s, s.tickets[i]) && TicketTold(s.tickets[i], p.writers[i]);
        }
      }
    }
  }

  /** What the flush adds to the tables came later than the open. */
  lemma {:induction false} FlushStep(s: State, p: Past)
    requires Inv(s) && Agrees(s, p) && Enabled(s, FlushMemTable)
    ensures Agrees(Apply(s, FlushMemTable), Tell(p, FlushMemTable))
  {
    forall e | e in s.imm.entries
      ensures e.seqno > s.base
    {
      assert AppliedBy(s.tickets, s.imm.log, e);
      var i :| 0 <= i < |s.tickets| && s.tickets[i].log == s.imm.log && s.tickets[i].work.Applied? && e in s.tickets[i].batch;
      assert Placed(s, s.tickets[i]);
    }
  }

  lemma {:induction false} QuietStep(s: State, p: Past, a: Action)
    requires Agrees(s, p) && (a.RecordVersion? || a.DeleteObsoleteLogs?)
    ensures Agrees(Apply(s, a), Tell(p, a))
  {
  }

  // ----- what a crash leaves

  lemma {:induction false} NamedTold(s: State, p: Past, i: nat)
    requires Agrees(s, p) && i < |s.tickets|
    ensures Named(s, s.tickets[i]) <==> InLog(p, p.writers[i].log)
    ensures TicketTold(s.tickets[i], p.writers[i])
  {
    assert TicketTold(s.tickets[i], p.writers[i]);
  }

  ghost predicate AllTold(l: Log, n: nat, ts: seq<Ticket>, ws: seq<Told>) {
    LogOk(l, n, ts) && LogTold(l, n, l.end, ws) && TicketsTold(ts, ws)
  }

  lemma {:induction false} SlotWriter(l: Log, n: nat, ts: seq<Ticket>, ws: seq<Told>, k: nat)
    requires AllTold(l, n, ts, ws) && k < |l.slots|
    ensures var u := l.slots[k].owner; u < |ws| && ws[u].log == n && SlotTold(l, k, ws[u])
  {
    assert SlotOwned(l, n, ts, k) && SlotToldOf(l, k, ws) && TicketTold(ts[l.slots[k].owner], ws[l.slots[k].owner]);
  }

  lemma {:induction false} NotReturnedIsShadowed(l: Log, n: nat, ts: seq<Ticket>, ws: seq<Told>, k: nat)
    requires AllTold(l, n, ts, ws) && k < |l.slots| && !Returned(l, k)
    ensures Shadowed(ws, l.slots[k].owner)
  {
    SlotWriter(l, n, ts, ws, k);
    var h :| h in l.slots[k].places && !Clear(l.holes, h);
    var x :| x in l.holes && Blocks(x, h);
    var q: nat :| InSlot(l, q, x);
    SlotWriter(l, n, ts, ws, q);
    assert x in ws[l.slots[q].owner].places * l.holes;
    assert Shadows(ws, l.slots[q].owner, l.slots[k].owner);
  }

  lemma {:induction false} ShadowedIsNotReturned(l: Log, n: nat, ts: seq<Ticket>, ws: seq<Told>, k: nat, u: nat)
    requires AllTold(l, n, ts, ws) && k < |l.slots| && Shadows(ws, u, l.slots[k].owner)
    ensures !Returned(l, k)
  {
    SlotWriter(l, n, ts, ws, k);
    var x, h :| x in ws[u].places && x !in ws[u].written && h in ws[l.slots[k].owner].places && Blocks(x, h);
    assert HasSlot(l, u);
    var q: nat :| Owns(l, u, q);
    SlotWriter(l, n, ts, ws, q);
    assert x in ws[u].places - ws[u].written;
    assert x in l.holes && !Clear(l.holes, h);
  }

  /** The log reader returns an extent exactly when nothing shadows its writer. */
  lemma {:induction false} ReturnedIffNotShadowed(l: Log, n: nat, ts: seq<Ticket>, ws: seq<Told>, k: nat)
    requires AllTold(l, n, ts, ws) && k < |l.slots|
    ensures Returned(l, k) <==> !Shadowed(ws, l.slots[k].owner)
  {
    if !Returned(l, k) {
      NotReturnedIsShadowed(l, n, ts, ws, k);
    }
    if u :| Shadows(ws, u, l.slots[k].owner) {
      ShadowedIsNotReturned(l, n, ts, ws, k, u);
    }
  }

  lemma {:induction false} DurableSurvives(s: State, p: Past, e: Entry)
    requires Full(s) && Agrees(s, p) && e in Durable(s)
    ensures e in Surviving(p)
  {
    if e in s.manifest.tables {
      if e.seqno > s.base {
        var i :| 0 <= i < |s.tickets| && !Named(s, s.tickets[i]) && s.tickets[i].work.Applied? && e in s.tickets[i].batch;
        NamedTold(s, p, i);
        assert Survives(p, i);
      }
    } else {
      var n, j, k := ReadableHasWriter(s.logs, s.manifest.logNumber, s.tickets, e);
      NamedTold(s, p, j);
      assert LogOk(s.logs[n], n, s.tickets) && LogTold(s.logs[n], n, p.ends[n], p.writers);
      ReturnedIffNotShadowed(s.logs[n], n, s.tickets, p.writers, k);
      assert SlotToldOf(s.logs[n], k, p.writers);
      assert Survives(p, j);
    }
  }

  lemma {:induction false} SurvivorIsDurable(s: State, p: Past, i: nat, e: Entry)
    requires Full(s) && Agrees(s, p) && Survives(p, i) && e in p.writers[i].batch
    ensures e in Durable(s)
  {
    NamedTold(s, p, i);
    assert Placed(s, s.tickets[i]);
    if Named(s, s.tickets[i]) {
      var n := s.tickets[i].log;
      assert LogOk(s.logs[n], n, s.tickets) && LogTold(s.logs[n], n, p.ends[n], p.writers);
      assert HasSlot(s.logs[n], i);
      var k: nat :| Owns(s.logs[n], i, k);
      ReturnedIffNotShadowed(s.logs[n], n, s.tickets, p.writers, k);
      SlotHasBatch(s.logs[n], n, s.tickets, i, k);
      InDurable(s, n, k, e);
    }
  }

  lemma {:induction false} SurvivingIsDurable(s: State, p: Past)
    requires Full(s) && Agrees(s, p)
    ensures Surviving(p) == Durable(s)
  {
    forall e | e in Durable(s)
      ensures e in Surviving(p)
    {
      DurableSurvives(s, p, e);
    }
    forall e | e in Surviving(p)
      ensures e in Durable(s)
    {
      if e !in p.found {
        var i :| 0 <= i < |p.writers| && Survives(p, i) && e in p.writers[i].batch;
        SurvivorIsDurable(s, p, i, e);
      }
    }
  }

  lemma {:induction false} NewLogTold(n: nat)
    ensures LogTold(NewLog(n), n, LogStart(n), [])
  {
  }

  /** All that is left is in tables, below the sequence that recovery starts from. */
  lemma {:induction false} DurableIsBelow(s: State, e: Entry)
    requires Fenced(s) && e in Durable(s)
    ensures e.seqno <= Recovered(s).base
  {
  }

  lemma {:induction false} CrashOpened(s: State, p: Past)
    requires Full(s) && Agrees(s, p)
    ensures OpenedTold(Recovered(s), Opened(p.log + 1, Surviving(p)))
  {
    SurvivingIsDurable(s, p);
    forall e | e in Durable(s)
      ensures e.seqno <= Recovered(s).base
    {
      DurableIsBelow(s, e);
    }
  }

  lemma {:induction false} CrashLogs(s: State, n: nat, found: set<Entry>)
    requires Files(s) && s.nextFile == n
    ensures LogsTold(Recovered(s), Opened(n, found))
  {
    NewLogTold(n);
  }

  lemma {:induction false} CrashAgrees(s: State, n: nat, found: set<Entry>)
    requires s.nextFile == n && OpenedTold(Recovered(s), Opened(n, found)) && LogsTold(Recovered(s), Opened(n, found))
    ensures Agrees(Recovered(s), Opened(n, found))
  {
  }

  lemma {:induction false} CrashStep(s: State, p: Past)
    requires Full(s) && Agrees(s, p)
    ensures Agrees(Recovered(s), Opened(p.log + 1, Surviving(p)))
  {
    CrashOpened(s, p);
    CrashLogs(s, p.log + 1, Surviving(p));
    CrashAgrees(s, p.log + 1, Surviving(p));
  }

  lemma {:induction false} TellCrash(p: Past)
    ensures Tell(p, CrashAndRecover) == Opened(p.log + 1, Surviving(p))
  {
  }

  lemma {:induction false} HistoryOfStep(s: State, p: Past, a: Action)
    requires Full(s) && Agrees(s, p) && Enabled(s, a)
    ensures Agrees(Apply(s, a), Tell(p, a))
  {
    match a
    case TakeTicket(_, _) => TakeStep(s, p, a);
    case TakeBackupTicket => TakeStep(s, p, a);
    case Reserve(i, size) => ReserveStep(s, p, i, size);
    case WriteFragment(i, h) => WriteStep(s, p, i, h);
    case InsertMem(i) => InsertStep(s, p, i);
    case SwitchMemTable => SwitchStep(s, p);
    case FlushMemTable => FlushStep(s, p);
    case RecordVersion => QuietStep(s, p, a);
    case DeleteObsoleteLogs => QuietStep(s, p, a);
    case CrashAndRecover => TellCrash(p); CrashStep(s, p);
    case _ => TurnStep(s, p, a);
  }

  // ----- every run

  /** Every state of every run, crashes included, agrees with what its actions tell. */
  lemma {:induction false} HistoryOfRun(states: seq<State>, acts: seq<Action>)
    requires RunBy(states, acts)
    ensures Agrees(states[|acts|], History(states[0].log, acts))
    decreases |acts|
  {
    if acts != [] {
      var n := |acts| - 1;
      RunFront(states, acts);
      HistoryOfRun(states[..n + 1], acts[..n]);
      NextAgrees(states[..n + 1], acts[..n], History(states[0].log, acts[..n]), acts[n], states[n + 1]);
    }
  }

  lemma {:induction false} NextAgrees(states: seq<State>, acts: seq<Action>, p: Past, a: Action, s: State)
    requires RunBy(states, acts) && Agrees(states[|acts|], p) && StepBy(states[|acts|], a, s)
    ensures Agrees(s, Tell(p, a))
  {
    RunOf(states, acts);
    RunKeepsFull(states);
    HistoryOfStep(states[|acts|], p, a);
  }

  /** What recovery finds after a crash at any moment of any run, told from the actions. */
  lemma {:induction false} CrashLeaves(states: seq<State>, acts: seq<Action>)
    requires RunBy(states, acts)
    ensures Durable(Recovered(states[|acts|])) == Surviving(History(states[0].log, acts))
  {
    HistoryOfRun(states, acts);
    RunOf(states, acts);
    RunKeepsFull(states);
    SurvivingIsDurable(states[|acts|], History(states[0].log, acts));
    RecoveredIsDurable(states[|acts|]);
  }

  predicate ShownToo(w: Told) {
    (w.turn.Published? || w.turn.Released?) && w.work.Applied?
  }

  /** What was there at open and the batches of the writers that published. */
  ghost function PublishedIn(p: Past): set<Entry> {
    p.found + set i, e | 0 <= i < |p.writers| && ShownToo(p.writers[i]) && e in p.writers[i].batch :: e
  }

  lemma {:induction false} PublishedTold(s: State, p: Past)
    requires Agrees(s, p)
    ensures PublishedIn(p) == PublishedWrites(s)
  {
    forall e | e in PublishedIn(p)
      ensures e in PublishedWrites(s)
    {
      if e !in p.found {
        var i :| 0 <= i < |p.writers| && ShownToo(p.writers[i]) && e in p.writers[i].batch;
        assert TicketTold(s.tickets[i], p.writers[i]);
        assert Shown(s.tickets[i]) && e in s.tickets[i].batch;
      }
    }
    forall e | e in PublishedWrites(s)
      ensures e in PublishedIn(p)
    {
      InPublished(s, e);
      if ShownBy(s, e) {
        var i :| 0 <= i < |s.tickets| && Shown(s.tickets[i]) && e in s.tickets[i].batch;
        assert TicketTold(s.tickets[i], p.writers[i]);
        assert ShownToo(p.writers[i]) && e in p.writers[i].batch;
      }
    }
  }

  /** A read at the last sequence, in every reachable state and with any part of the
      unpublished batches already in a memtable, told from the actions. */
  lemma {:induction false} ReadsSeeHistory(states: seq<State>, acts: seq<Action>, partly: set<Entry>, k: UserKey, e: Entry)
    requires RunBy(states, acts)
    requires forall x :: x in partly ==> Unpublished(states[|acts|], x)
    ensures var s := states[|acts|];
      IsNewest(Contents(s) + partly, k, s.lastSequence, e)
      <==> IsNewest(PublishedIn(History(states[0].log, acts)), k, s.lastSequence, e)
  {
    RunOf(states, acts);
    HistoryOfRun(states, acts);
    PublishedTold(states[|acts|], History(states[0].log, acts));
    ReadsSeePublished(states, partly, k, e);
  }
}
