/** Writers, backups, memtable switches, flushes and crashes as one protocol.

    A writer takes a ticket (a range of sequence numbers) under the mutex.  Without
    it, the writer reserves an extent of the log, fills the extent fragment by
    fragment, fills the memtable, waits for its turn, publishes its last sequence
    and lets the next one go.  A backup takes a ticket too.  A crash may come at any
    point; what it leaves is what the log reader can read. */
module WriteProtocol {
  import opened Entries
  import opened LogFormat
  import opened LogHoles
  import WriteBatches

  datatype Work = Pending | Reserved | Logged | Applied | Failed

  /** SequenceWriteEnd: waiting in the spin loop, past it, last sequence set,
      next writer signalled. */
  datatype Turn = Waiting | Entered | Published | Released

  /** start and end are inclusive; a batch of n operations uses the n sequences
      from start and leaves end unused.  "log" is the number of the log file the
      writer holds, and so names the memtable it fills. */
  datatype Ticket = Ticket(start: nat, end: nat, log: nat, batch: set<Entry>, work: Work, turn: Turn)

  /** A reserved extent of a log: the record's size, where it starts and ends, where
      its fragments have their headers, and whose it is. */
  datatype Slot = Slot(size: nat, start: Place, end: Place, places: set<Place>, batch: set<Entry>, owner: nat)

  /** A log file: extents in the order reserved, and the header places of the
      fragments that are not written yet. */
  datatype Log = Log(end: Place, slots: seq<Slot>, holes: set<Place>)

  datatype Manifest = Manifest(logNumber: nat, tables: set<Entry>, lastSequence: nat)

  datatype Imm = NoImm | Imm(log: nat, entries: set<Entry>)

  /** "tickets" lists every ticket since the database was opened, in the order
      taken, with "served" of them released; "base" is the last sequence at open.
      "logged" is every entry whose log append has returned and that no crash has
      dropped, "lost" is what crashes dropped.  All this is history the engine does
      not store. */
  datatype State = State(
    upper: nat, lower: int, lastSequence: nat,
    mem: set<Entry>, log: nat, imm: Imm,
    logs: map<nat, Log>, manifest: Manifest, nextFile: nat,
    tickets: seq<Ticket>, served: nat, base: nat, logged: set<Entry>, lost: set<Entry>)

  datatype Action =
    | TakeTicket(count: nat, batch: set<Entry>)
    | TakeBackupTicket
    | Reserve(i: nat, size: nat)
    | WriteFragment(i: nat, h: Place)
    | FinishLog(i: nat)
    | FailLog(i: nat)
    | InsertMem(i: nat)
    | LeaveSpin(i: nat)
    | Publish(i: nat)
    | Release(i: nat)
    | SwitchMemTable
    | FlushMemTable
    | RecordVersion
    | DeleteObsoleteLogs
    | CrashAndRecover

  ghost predicate Ready(t: Ticket) {
    t.work.Applied? || t.work.Failed?
  }

  ghost predicate Has(t: Ticket) {
    t.work.Logged? || t.work.Applied?
  }

  /** The log a writer holds is one of the two that recovery would read. */
  ghost predicate Named(s: State, t: Ticket) {
    t.log == s.log || (s.imm.Imm? && t.log == s.imm.log)
  }

  // ----- log files

  lemma {:induction false} SomeStart()
    ensures exists p: Place :: Off(p) == 0
  {
    var p: Place := Place(0, 0);
    assert Off(p) == 0;
  }

  /** The beginning of log file n. */
  ghost function LogStart(n: nat): (p: Place)
    ensures Off(p) == 0
  {
    SomeStart();
    var p: Place :| Off(p) == 0;
    p
  }

  ghost function NewLog(n: nat): Log {
    Log(LogStart(n), [], {})
  }

  /** All fragments of the extent are written. */
  ghost predicate Complete(l: Log, k: nat)
    requires k < |l.slots|
  {
    l.slots[k].places !! l.holes
  }

  /** The log reader returns the record: no hole hides a fragment of it. */
  ghost predicate Returned(l: Log, k: nat)
    requires k < |l.slots|
  {
    AllClear(l.holes, l.slots[k].places)
  }

  /** What recovery reads from a log. */
  ghost function Readable(l: Log): set<Entry> {
    set k: nat, e | k < |l.slots| && Returned(l, k) && e in l.slots[k].batch :: e
  }

  /** The extents of one ticket. */
  ghost predicate Owns(l: Log, i: nat, k: nat) {
    k < |l.slots| && l.slots[k].owner == i
  }

  ghost function Reserving(l: Log, i: nat, size: nat, batch: set<Entry>): Log {
    Appending(l, Slot(size, l.end, EndPlace(l.end, size), Places(l.end, size), batch, i))
  }

  ghost function Appending(l: Log, slot: Slot): Log {
    Log(slot.end, l.slots + [slot], l.holes + slot.places)
  }

  // ----- steps

  ghost predicate Enabled(s: State, a: Action) {
    match a
    case TakeTicket(count, batch) =>
      UniqueTags(batch) && forall e :: e in batch ==> s.upper + 1 <= e.seqno < s.upper + 1 + count
    case TakeBackupTicket => true
    case Reserve(i, size) => i < |s.tickets| && s.tickets[i].work.Pending? && size >= WriteBatches.BATCH_HEADER
    case WriteFragment(i, h) =>
      && i < |s.tickets| && s.tickets[i].work.Reserved? && s.tickets[i].log in s.logs
      && var l := s.logs[s.tickets[i].log];
      h in l.holes && exists k: nat :: Owns(l, i, k) && h in l.slots[k].places
    case FinishLog(i) =>
      && i < |s.tickets| && s.tickets[i].work.Reserved?
      && (s.tickets[i].log in s.logs ==>
            var l := s.logs[s.tickets[i].log]; forall k: nat :: Owns(l, i, k) ==> Complete(l, k))
    case FailLog(i) => i < |s.tickets| && (s.tickets[i].work.Pending? || s.tickets[i].work.Reserved?)
    case InsertMem(i) => i < |s.tickets| && s.tickets[i].work.Logged?
    case LeaveSpin(i) =>
      i < |s.tickets| && Ready(s.tickets[i]) && s.tickets[i].turn.Waiting? && s.lower >= s.tickets[i].start
    case Publish(i) => i < |s.tickets| && s.tickets[i].turn.Entered?
    case Release(i) => i < |s.tickets| && s.tickets[i].turn.Published?
    case SwitchMemTable => s.imm.NoImm?
    case FlushMemTable =>
      // every writer that took this memtable has run SequenceWriteEnd
      s.imm.Imm? && forall i :: 0 <= i < |s.tickets| && s.tickets[i].log == s.imm.log ==> s.tickets[i].turn.Released?
    case RecordVersion => true
    case DeleteObsoleteLogs => true
    case CrashAndRecover => true
  }

  function SetTicket(s: State, i: nat, t: Ticket): State
    requires i < |s.tickets|
  {
    s.(tickets := s.tickets[i := t])
  }

  ghost function LogEntries(logs: map<nat, Log>, from: nat): set<Entry> {
    set n, e | n in logs && n >= from && e in Readable(logs[n]) :: e
  }

  /** What a crash leaves recoverable: the tables of the recorded version and what
      can be read of the logs it still names. */
  ghost function Durable(s: State): set<Entry> {
    s.manifest.tables + LogEntries(s.logs, s.manifest.logNumber)
  }

  ghost function MaxSeq(es: set<Entry>, floor: nat): (m: nat)
    ensures m >= floor && forall e :: e in es ==> e.seqno <= m
    ensures m == floor || exists e :: e in es && e.seqno == m
  {
    if es == {} then floor
    else
      var e :| e in es;
      var m := MaxSeq(es - {e}, floor);
      if e.seqno > m then e.seqno else m
  }

  /** DB::Open: replay the logs the manifest names, then start a new log. */
  ghost function Recovered(s: State): State {
    var last := MaxSeq(LogEntries(s.logs, s.manifest.logNumber), s.manifest.lastSequence);
    State(last, last + 1, last,
          {}, s.nextFile, NoImm,
          s.logs[s.nextFile := NewLog(s.nextFile)], Manifest(s.nextFile, Durable(s), last), s.nextFile + 1,
          [], 0, last, s.logged * Durable(s), s.lost + (s.logged - Durable(s)))
  }

  /** The immutable memtable becomes a table and earlier logs are no longer named. */
  ghost function Flushed(s: State): State
    requires s.imm.Imm?
  {
    s.(imm := NoImm, manifest := Manifest(s.log, s.manifest.tables + s.imm.entries, s.lastSequence))
  }

  ghost function Apply(s: State, a: Action): State
    requires Enabled(s, a)
  {
    match a
    case TakeTicket(count, batch) =>
      var end := s.upper + 1 + count;
      s.(upper := end, tickets := s.tickets + [Ticket(end - count, end, s.log, batch, Pending, Waiting)])
    case TakeBackupTicket =>
      var end := s.upper + 1;
      s.(upper := end, tickets := s.tickets + [Ticket(end, end, s.log, {}, Applied, Waiting)])
    case Reserve(i, size) =>
      var t := s.tickets[i];
      var s' := SetTicket(s, i, t.(work := Reserved));
      if t.log in s.logs then s'.(logs := s.logs[t.log := Reserving(s.logs[t.log], i, size, t.batch)]) else s'
    case WriteFragment(i, h) =>
      var n := s.tickets[i].log;
      s.(logs := s.logs[n := s.logs[n].(holes := s.logs[n].holes - {h})])
    case FinishLog(i) =>
      SetTicket(s, i, s.tickets[i].(work := Logged)).(logged := s.logged + s.tickets[i].batch)
    case FailLog(i) =>
      SetTicket(s, i, s.tickets[i].(work := Failed))
    case InsertMem(i) =>
      var t := s.tickets[i];
      var s' := SetTicket(s, i, t.(work := Applied));
      if t.log == s.log then s'.(mem := s.mem + t.batch)
      else if s.imm.Imm? && t.log == s.imm.log then s'.(imm := Imm(s.imm.log, s.imm.entries + t.batch))
      else s'
    case LeaveSpin(i) =>
      SetTicket(s, i, s.tickets[i].(turn := Entered))
    case Publish(i) =>
      SetTicket(s, i, s.tickets[i].(turn := Published)).(lastSequence := s.tickets[i].end)
    case Release(i) =>
      var t := s.tickets[i];
      SetTicket(s, i, t.(turn := Released)).(lower := s.lower + 1 + t.end - t.start, served := s.served + 1)
    case SwitchMemTable =>
      s.(imm := Imm(s.log, s.mem), mem := {},
         log := s.nextFile, logs := s.logs[s.nextFile := NewLog(s.nextFile)], nextFile := s.nextFile + 1)
    case FlushMemTable =>
      Flushed(s)
    case RecordVersion =>
      s.(manifest := s.manifest.(lastSequence := s.lastSequence))
    case DeleteObsoleteLogs =>
      s.(logs := map n | n in s.logs && n >= s.manifest.logNumber :: s.logs[n])
    case CrashAndRecover =>
      Recovered(s)
  }

  ghost predicate Init(s: State) {
    s == State(s.upper, s.upper + 1, s.upper, {}, s.log, NoImm, map[s.log := NewLog(s.log)],
               Manifest(s.log, {}, s.upper), s.log + 1, [], 0, s.upper, {}, {})
  }

  ghost predicate Step(s: State, s': State) {
    exists a :: Enabled(s, a) && s' == Apply(s, a)
  }

  ghost predicate StepAt(states: seq<State>, i: int)
    requires 0 <= i < |states| - 1
  {
    Step(states[i], states[i + 1])
  }

  /** States that follow one another by steps of the protocol. */
  ghost predicate Steps(states: seq<State>) {
    |states| > 0 && forall i :: 0 <= i < |states| - 1 ==> StepAt(states, i)
  }

  ghost predicate Run(states: seq<State>) {
    Steps(states) && Init(states[0])
  }

  // ----- tickets in order

  ghost predicate Follows(tickets: seq<Ticket>, j: int)
    requires 0 < j < |tickets|
  {
    tickets[j].start == tickets[j - 1].end + 1
  }

  /** Sequence ranges are consecutive: disjoint, ordered and without gaps. */
  ghost predicate Tiles(tickets: seq<Ticket>, base: nat, upper: nat) {
    && (forall i :: 0 <= i < |tickets| ==> base < tickets[i].start <= tickets[i].end <= upper)
    && (forall i, j :: 0 <= i < j < |tickets| ==> tickets[i].end < tickets[j].start)
    && (forall j :: 0 < j < |tickets| ==> Follows(tickets, j))
    && (if |tickets| == 0 then upper == base
        else tickets[0].start == base + 1 && tickets[|tickets| - 1].end == upper)
  }

  /** Tickets are served in order, one at a time, each after its own work. */
  ghost predicate Turns(tickets: seq<Ticket>, served: nat) {
    && served <= |tickets|
    && (forall i :: 0 <= i < served ==> tickets[i].turn.Released?)
    && (served < |tickets| ==> !tickets[served].turn.Released?)
    && (forall i :: served < i < |tickets| ==> tickets[i].turn.Waiting?)
    && (forall i :: 0 <= i < |tickets| && !tickets[i].turn.Waiting? ==> Ready(tickets[i]))
  }

  ghost function NextStart(tickets: seq<Ticket>, served: nat, upper: nat): int {
    if served < |tickets| then tickets[served].start else upper + 1
  }

  /** The end of the last published ticket. */
  ghost function LastEnd(tickets: seq<Ticket>, served: nat, base: nat): nat {
    if served < |tickets| && tickets[served].turn.Published? then tickets[served].end
    else if 0 < served <= |tickets| then tickets[served - 1].end
    else base
  }

  ghost predicate Ordered(s: State) {
    && Tiles(s.tickets, s.base, s.upper)
    && Turns(s.tickets, s.served)
    && s.lower == NextStart(s.tickets, s.served, s.upper)
    && s.lastSequence == LastEnd(s.tickets, s.served, s.base)
  }

  lemma {:induction false} TakeTiles(tickets: seq<Ticket>, base: nat, upper: nat, t: Ticket)
    requires Tiles(tickets, base, upper)
    requires t.start == upper + 1 && t.start <= t.end
    ensures Tiles(tickets + [t], base, t.end)
  {
    var n := |tickets|;
    var tickets' := tickets + [t];
    forall j | 0 < j < |tickets'|
      ensures Follows(tickets', j)
    {
      assert j < n ==> Follows(tickets, j);
    }
  }

  lemma {:induction false} TakeKeepsOrder(s: State, s': State, t: Ticket)
    requires Ordered(s)
    requires t.start == s.upper + 1 && t.start <= t.end && t.turn.Waiting?
    requires s' == s.(upper := t.end, tickets := s.tickets + [t])
    ensures Ordered(s')
  {
    TakeTiles(s.tickets, s.base, s.upper, t);
    assert forall i :: 0 <= i < |s.tickets| ==> s'.tickets[i] == s.tickets[i];
  }

  lemma {:induction false} SameTiles(tickets: seq<Ticket>, tickets': seq<Ticket>, base: nat, upper: nat)
    requires Tiles(tickets, base, upper) && |tickets| == |tickets'|
    requires forall j :: 0 <= j < |tickets| ==> tickets'[j].start == tickets[j].start && tickets'[j].end == tickets[j].end
    ensures Tiles(tickets', base, upper)
  {
    forall j | 0 < j < |tickets'|
      ensures Follows(tickets', j)
    {
      assert Follows(tickets, j);
    }
  }

  lemma {:induction false} WorkTurns(tickets: seq<Ticket>, served: nat, i: nat, t: Ticket)
    requires Turns(tickets, served) && i < |tickets|
    requires t.turn == tickets[i].turn && (t.turn.Waiting? || Ready(t))
    ensures Turns(tickets[i := t], served)
  {
  }

  lemma {:induction false} FrontTurns(tickets: seq<Ticket>, served: nat, t: Ticket)
    requires Turns(tickets, served) && served < |tickets| && Ready(t)
    requires !t.turn.Waiting?
    ensures Turns(tickets[served := t], if t.turn.Released? then served + 1 else served)
  {
  }

  /** Log and memtable work does not change anybody's turn. */
  lemma {:induction false} WorkKeepsOrder(s: State, s': State, i: nat, t: Ticket)
    requires Ordered(s) && i < |s.tickets|
    requires t == s.tickets[i].(work := t.work) && (t.turn.Waiting? || Ready(t))
    requires s'.tickets == s.tickets[i := t]
    requires s'.upper == s.upper && s'.lower == s.lower && s'.lastSequence == s.lastSequence
    requires s'.served == s.served && s'.base == s.base
    ensures Ordered(s')
  {
    WorkTurns(s.tickets, s.served, i, t);
    SameTiles(s.tickets, s'.tickets, s.base, s.upper);
  }

  /** The front ticket moves on: enters, publishes or is released. */
  lemma {:induction false} FrontKeepsOrder(s: State, s': State, t: Ticket)
    requires Ordered(s) && s.served < |s.tickets| && Ready(t) && !t.turn.Waiting?
    requires t == s.tickets[s.served].(turn := t.turn) && s'.tickets == s.tickets[s.served := t]
    requires s'.upper == s.upper && s'.base == s.base
    requires s'.served == if t.turn.Released? then s.served + 1 else s.served
    requires s'.lower == if t.turn.Released? then t.end + 1 else s.lower
    requires s'.lastSequence == if t.turn.Entered? then s.lastSequence else t.end
    requires t.turn.Entered? ==> !s.tickets[s.served].turn.Published?
    ensures Ordered(s') && s.lastSequence <= s'.lastSequence
  {
    FrontTurns(s.tickets, s.served, t);
    SameTiles(s.tickets, s'.tickets, s.base, s.upper);
    FrontRange(s.tickets, s.served, s.base, s.upper);
    FrontCounters(s.tickets, s.served, t, s.base, s.upper);
  }

  /** What the two counters are after the front ticket has moved on. */
  lemma {:induction false} FrontCounters(tickets: seq<Ticket>, served: nat, t: Ticket, base: nat, upper: nat)
    requires Turns(tickets, served) && Tiles(tickets, base, upper) && served < |tickets| && !t.turn.Waiting?
    requires t == tickets[served].(turn := t.turn) && (t.turn.Entered? ==> !tickets[served].turn.Published?)
    ensures var now, next := tickets[served := t], if t.turn.Released? then served + 1 else served;
      && LastEnd(now, next, base) == (if t.turn.Entered? then LastEnd(tickets, served, base) else t.end)
      && NextStart(now, next, upper) == (if t.turn.Released? then t.end + 1 else tickets[served].start)
  {
    FrontRange(tickets, served, base, upper);
    var now := tickets[served := t];
    assert served + 1 < |tickets| ==> now[served + 1] == tickets[served + 1];
    assert served > 0 ==> now[served - 1] == tickets[served - 1];
  }

  lemma {:induction false} TurnKeepsOrder(s: State, a: Action)
    requires Ordered(s) && Enabled(s, a) && (a.LeaveSpin? || a.Publish? || a.Release?)
    ensures Ordered(Apply(s, a))
    ensures a.i == s.served && s.lower == s.tickets[a.i].start
    ensures s.lastSequence <= Apply(s, a).lastSequence
  {
    OnlyFrontMoves(s, a.i);
    FrontRange(s.tickets, s.served, s.base, s.upper);
    FrontKeepsOrder(s, Apply(s, a), Apply(s, a).tickets[a.i]);
  }

  lemma {:induction false} FrontRange(tickets: seq<Ticket>, served: nat, base: nat, upper: nat)
    requires Tiles(tickets, base, upper) && served < |tickets|
    ensures tickets[served].start <= tickets[served].end
    ensures NextStart(tickets, served + 1, upper) == tickets[served].end + 1
    ensures served > 0 ==> tickets[served - 1].end < tickets[served].end
    ensures base < tickets[served].end
  {
    assert served + 1 < |tickets| ==> Follows(tickets, served + 1);
  }

  /** A writer leaves its spin, publishes and releases only when the counter
      equals its own start: every earlier ticket has been released. */
  lemma {:induction false} OnlyFrontMoves(s: State, i: nat)
    requires Ordered(s)
    requires i < |s.tickets| && !s.tickets[i].turn.Released?
    requires s.tickets[i].turn.Waiting? ==> s.lower >= s.tickets[i].start
    ensures i == s.served && s.lower == s.tickets[i].start
  {
    assert i >= s.served;
    assert s.tickets[s.served].start <= s.tickets[s.served].end;
  }

  lemma {:induction false} NewKeepsOrder(s: State, a: Action)
    requires Ordered(s) && Enabled(s, a) && (a.TakeTicket? || a.TakeBackupTicket?)
    ensures Ordered(Apply(s, a)) && s.lastSequence <= Apply(s, a).lastSequence
  {
    TakeKeepsOrder(s, Apply(s, a), Apply(s, a).tickets[|s.tickets|]);
  }

  lemma {:induction false} OwnKeepsOrder(s: State, a: Action)
    requires Ordered(s) && Enabled(s, a) && (a.Reserve? || a.FinishLog? || a.FailLog? || a.InsertMem?)
    ensures Ordered(Apply(s, a)) && s.lastSequence <= Apply(s, a).lastSequence
  {
    WorkKeepsOrder(s, Apply(s, a), a.i, Apply(s, a).tickets[a.i]);
  }

  /** Steps that touch files alone. */
  lemma {:induction false} FilesKeepOrder(s: State, a: Action)
    requires Ordered(s) && Enabled(s, a)
    requires a.WriteFragment? || a.SwitchMemTable? || a.FlushMemTable? || a.RecordVersion? || a.DeleteObsoleteLogs?
    ensures Ordered(Apply(s, a)) && s.lastSequence <= Apply(s, a).lastSequence
  {
  }

  lemma {:induction false} CrashKeepsOrder(s: State)
    ensures Ordered(Recovered(s))
  {
  }

  lemma {:induction false} StepKeepsOrder(s: State, a: Action)
    requires Ordered(s) && Enabled(s, a)
    ensures Ordered(Apply(s, a))
    ensures !a.CrashAndRecover? ==> s.lastSequence <= Apply(s, a).lastSequence
  {
    if a.TakeTicket? || a.TakeBackupTicket? {
      NewKeepsOrder(s, a);
    } else if a.LeaveSpin? || a.Publish? || a.Release? {
      TurnKeepsOrder(s, a);
    } else if a.Reserve? || a.FinishLog? || a.FailLog? || a.InsertMem? {
      OwnKeepsOrder(s, a);
    } else if a.CrashAndRecover? {
      CrashKeepsOrder(s);
    } else {
      FilesKeepOrder(s, a);
    }
  }

  /** The last sequence is that of a ticket whose predecessors are all released. */
  lemma {:induction false} ReleasedIsPublished(s: State, i: nat)
    requires Ordered(s) && i < |s.tickets| && s.tickets[i].turn.Released?
    ensures i < s.served && s.tickets[i].end <= s.lastSequence
  {
    assert i < s.served;
    assert i < s.served - 1 ==> s.tickets[i].end < s.tickets[s.served - 1].start;
    assert s.served < |s.tickets| ==> s.tickets[i].end < s.tickets[s.served].start;
  }

  lemma {:induction false} WaitingEndsLater(s: State, i: nat)
    requires Ordered(s) && s.served <= i < |s.tickets|
    ensures s.tickets[i].end > s.lastSequence || s.tickets[i].turn.Published?
  {
    assert s.served < i ==> s.tickets[s.served].end < s.tickets[i].start;
    assert s.served > 0 ==> s.tickets[s.served - 1].end < s.tickets[i].start;
  }

  /** Two tickets never use the same sequence. */
  lemma {:induction false} OneWriter(s: State, i: nat, j: nat, seqno: nat)
    requires Ordered(s) && i < |s.tickets| && j < |s.tickets|
    requires s.tickets[i].start <= seqno <= s.tickets[i].end && s.tickets[j].start <= seqno <= s.tickets[j].end
    ensures i == j
  {
  }
}
