/** What the flush thread must wait for, and concrete runs in which the engine loses or
    disorders what writers did. */
module FlushGuards {
  import opened Entries
  import opened LogFormat
  import opened LogHoles
  import opened WriteProtocol
  import opened Durability
  import opened CrashSafety
  import LogReplay
  import WriteBatches

  /** Any run of the protocol from a state on. */
  ghost predicate Continues(states: seq<State>, s: State) {
    Steps(states) && states[0] == s
  }

  lemma {:induction false} ContinuingKeepsInv(states: seq<State>)
    requires Steps(states) && Inv(states[0])
    ensures Inv(states[|states| - 1])
    decreases |states|
  {
    var n := |states| - 1;
    if n > 0 {
      StepsPrefix(states);
      ContinuingKeepsInv(states[..n]);
      assert StepAt(states, n - 1);
      NextKeepsInv(states[n - 1], states[n]);
    }
  }

  lemma {:induction false} NextKeepsInv(s: State, s': State)
    requires Inv(s) && Step(s, s')
    ensures Inv(s')
  {
    var a :| Enabled(s, a) && s' == Apply(s, a);
    StepKeepsInv(s, a);
  }

  /** A flush loses nothing, then or later, if and only if every writer of the
      flushed memtable with something to write has finished its log and memtable work
      or failed. */
  lemma {:induction false} FlushSafeIff(s: State)
    requires Full(s) && s.imm.Imm?
    ensures (forall states :: Continues(states, Flushed(s)) ==> Safe(states[|states| - 1])) <==> Finished(s)
  {
    if Finished(s) {
      FlushCovered(s);
      forall states | Continues(states, Flushed(s))
        ensures Safe(states[|states| - 1])
      {
        ContinuingKeepsInv(states);
      }
    } else {
      var i :| 0 <= i < |s.tickets| && s.tickets[i].log == s.imm.log && s.tickets[i].batch != {} && !Ready(s.tickets[i]);
      var states := UnfinishedLoses(s, i);
      assert Continues(states, Flushed(s));
    }
  }

  /** The state has lost what writer i logged. */
  ghost predicate Loses(s: State, i: nat, e: Entry) {
    e in s.logged && e !in s.manifest.tables && !LoggedBy(s, e)
  }

  /** After the flush no table has the writer's entries and no named log is its own. */
  ghost predicate Cut(s: State, i: nat, e: Entry) {
    && i < |s.tickets| && e in s.tickets[i].batch && s.tickets[i].log < s.manifest.logNumber == s.log && s.imm.NoImm?
    && e !in s.manifest.tables
    && forall j :: 0 <= j < |s.tickets| && e in s.tickets[j].batch ==> j == i
  }

  lemma {:induction false} FlushCuts(s: State, i: nat, e: Entry)
    requires Full(s) && s.imm.Imm? && i < |s.tickets| && s.tickets[i].log == s.imm.log && e in s.tickets[i].batch
    requires !s.tickets[i].work.Applied?
    ensures Cut(Flushed(s), i, e)
  {
    NotInTables(s, i, e);
    OnlyWriter(s, i, e);
    assert e in s.imm.entries ==> AppliedBy(s.tickets, s.imm.log, e);
  }

  lemma {:induction false} CutLoses(s: State, i: nat, e: Entry)
    requires Cut(s, i, e) && e in s.logged
    ensures Loses(s, i, e) && !Safe(s)
  {
  }

  lemma {:induction false} CutStays(s: State, a: Action, i: nat, e: Entry)
    requires Cut(s, i, e) && Enabled(s, a) && (a.DeleteObsoleteLogs? || a.Reserve? || a.FinishLog?)
    ensures Cut(Apply(s, a), i, e)
  {
  }

  /** A writer that is not done when its memtable is flushed goes on to log a batch that
      no recovery will find. */
  lemma {:induction false} UnfinishedLoses(s: State, i: nat) returns (states: seq<State>)
    requires Full(s) && s.imm.Imm? && i < |s.tickets|
    requires s.tickets[i].log == s.imm.log && s.tickets[i].batch != {} && !Ready(s.tickets[i])
    ensures Continues(states, Flushed(s)) && !Safe(states[|states| - 1])
  {
    var e :| e in s.tickets[i].batch;
    FlushCuts(s, i, e);
    if s.tickets[i].work.Logged? {
      assert Placed(s, s.tickets[i]);
      states := [Flushed(s)];
      CutLoses(Flushed(s), i, e);
    } else {
      states := LogsUnseen(Flushed(s), i, e);
    }
  }

  /** A writer whose log is no longer named finishes its append. */
  lemma {:induction false} LogsUnseen(s: State, i: nat, e: Entry) returns (states: seq<State>)
    requires Cut(s, i, e) && (s.tickets[i].work.Pending? || s.tickets[i].work.Reserved?)
    ensures Continues(states, s) && !Safe(states[|states| - 1])
  {
    states := Then([s], DeleteObsoleteLogs);
    CutStays(s, DeleteObsoleteLogs, i, e);
    if s.tickets[i].work.Pending? {
      CutStays(states[|states| - 1], Reserve(i, WriteBatches.BATCH_HEADER), i, e);
      states := Then(states, Reserve(i, WriteBatches.BATCH_HEADER));
    }
    var s3 := states[|states| - 1];
    assert s3.tickets[i].log !in s3.logs;
    CutStays(s3, FinishLog(i), i, e);
    states := Then(states, FinishLog(i));
    CutLoses(states[|states| - 1], i, e);
  }

  /** One more step of a run. */
  lemma {:induction false} Then(states: seq<State>, a: Action) returns (more: seq<State>)
    requires Steps(states) && Enabled(states[|states| - 1], a)
    ensures Steps(more) && more[0] == states[0] && more[|more| - 1] == Apply(states[|states| - 1], a)
  {
    more := states + [Apply(states[|states| - 1], a)];
    forall i | 0 <= i < |more| - 1
      ensures StepAt(more, i)
    {
      if i < |states| - 1 {
        assert StepAt(states, i);
      } else {
        assert Enabled(states[i], a) && more[i + 1] == Apply(states[i], a);
      }
    }
  }

  // ----- concrete runs

  /** A record that fits in the block is one fragment. */
  lemma {:induction false} OneFragment(p: Place, size: nat)
    requires HEADER + size <= Leftover(p)
    ensures Places(p, size) == {p} && EndPlace(p, size) == Plus(p, HEADER + size)
  {
  }

  ghost function OneSlot(p: Place, size: nat, batch: set<Entry>, owner: nat): Slot
    requires HEADER + size <= Leftover(p)
  {
    Slot(size, p, Plus(p, HEADER + size), {p}, batch, owner)
  }

  lemma {:induction false} ThenReserve(states: seq<State>, i: nat, n: nat, p: Place, size: nat) returns (more: seq<State>)
    requires Steps(states) && WriteBatches.BATCH_HEADER <= size && HEADER + size <= Leftover(p)
    requires var s := states[|states| - 1];
      i < |s.tickets| && s.tickets[i].work.Pending? && s.tickets[i].log == n && n in s.logs && s.logs[n].end == p
    ensures Steps(more) && more[0] == states[0]
    ensures var s, t := states[|states| - 1], states[|states| - 1].tickets[i];
      more[|more| - 1] ==
      s.(tickets := s.tickets[i := t.(work := Reserved)],
         logs := s.logs[n := Log(Plus(p, HEADER + size), s.logs[n].slots + [OneSlot(p, size, t.batch, i)], s.logs[n].holes + {p})])
  {
    OneFragment(p, size);
    more := Then(states, Reserve(i, size));
  }

  /** The flush thread waits only for an immutable memtable to exist.  If it runs while
      a writer still holds that memtable, the writer's batch ends in no table and in no
      log the manifest names. */
  lemma {:induction false} UnguardedFlushLosesBatch(s: State, e: Entry) returns (before: seq<State>, after: seq<State>)
    requires Init(s) && e.seqno == s.upper + 1
    ensures Run(before) && before[|before| - 1].imm.Imm? && !Enabled(before[|before| - 1], FlushMemTable)
    ensures Continues(after, Flushed(before[|before| - 1])) && !Safe(after[|after| - 1])
  {
    before := TakenAndSwitched(s, e);
    RunKeepsFull(before);
    after := UnfinishedLoses(before[|before| - 1], 0);
  }

  lemma {:induction false} TakenAndSwitched(s: State, e: Entry) returns (states: seq<State>)
    requires Init(s) && e.seqno == s.upper + 1
    ensures Run(states)
    ensures var s' := states[|states| - 1];
      && s'.imm.Imm? && |s'.tickets| == 1
      && s'.tickets[0].log == s'.imm.log && s'.tickets[0].batch == {e} && s'.tickets[0].work.Pending? && s'.tickets[0].turn.Waiting?
  {
    states := Then([s], TakeTicket(1, {e}));
    states := Then(states, SwitchMemTable);
  }

  lemma {:induction false} BothTickets(s: State, e: Entry, f: Entry) returns (states: seq<State>)
    requires Init(s) && e.seqno == s.upper + 1 && f.seqno == s.upper + 3
    ensures Run(states) && states[0] == s
    ensures var s' := states[|states| - 1];
      && s'.log == s.log && s'.logs == s.logs && s'.manifest == s.manifest && s'.imm == s.imm && s'.lower == s.lower
      && |s'.tickets| == 2
      && s'.tickets[0] == Ticket(s.upper + 1, s.upper + 2, s.log, {e}, Pending, Waiting)
      && s'.tickets[1] == Ticket(s.upper + 3, s.upper + 4, s.log, {f}, Pending, Waiting)
  {
    states := Then([s], TakeTicket(1, {e}));
    states := Then(states, TakeTicket(1, {f}));
  }

  /** Two records of these sizes, the second writer's first, in one block from p on. */
  ghost predicate Layable(p: Place, q: Place, first: nat, second: nat) {
    && first >= WriteBatches.BATCH_HEADER && second >= WriteBatches.BATCH_HEADER
    && HEADER + second < Leftover(p)
    && q == Plus(p, HEADER + second)
    && HEADER + first <= Leftover(q)
  }

  /** The second writer reserved first, at p, and has not written; the first reserved
      behind it, at q, and has come this far. */
  ghost predicate Reversed(s: State, s': State, e: Entry, f: Entry, p: Place, q: Place, first: nat, second: nat,
                           work: Work, turn: Turn, holes: set<Place>)
    requires Layable(p, q, first, second)
  {
    && s'.log == s.log && s.log in s'.logs && s'.manifest.logNumber == s.log && s'.imm.NoImm? && s'.lower == s.upper + 1
    && |s'.tickets| == 2
    && s'.tickets[0] == Ticket(s.upper + 1, s.upper + 2, s.log, {e}, work, turn)
    && s'.tickets[1] == Ticket(s.upper + 3, s.upper + 4, s.log, {f}, Reserved, Waiting)
    && s'.logs[s.log].slots == [OneSlot(p, second, {f}, 1), OneSlot(q, first, {e}, 0)] && s'.logs[s.log].holes == holes
    && (work.Logged? || work.Applied? ==> e in s'.logged)
  }

  lemma {:induction false} ReservedInReverse(s: State, e: Entry, f: Entry, p: Place, q: Place, first: nat, second: nat) returns (states: seq<State>)
    requires Init(s) && e.seqno == s.upper + 1 && f.seqno == s.upper + 3
    requires p == NewLog(s.log).end && Layable(p, q, first, second)
    ensures Run(states) && Reversed(s, states[|states| - 1], e, f, p, q, first, second, Reserved, Waiting, {p, q})
  {
    states := BothTickets(s, e, f);
    states := ThenReserve(states, 1, s.log, p, second);
    var l := states[|states| - 1].logs[s.log];
    assert l.end == q && l.slots == [OneSlot(p, second, {f}, 1)] && l.holes == {p};
    states := ThenReserve(states, 0, s.log, q, first);
    assert l.slots + [OneSlot(q, first, {e}, 0)] == [OneSlot(p, second, {f}, 1), OneSlot(q, first, {e}, 0)];
  }

  lemma {:induction false} FirstWorks(s: State, e: Entry, f: Entry, p: Place, q: Place, first: nat, second: nat, states: seq<State>) returns (more: seq<State>)
    requires Layable(p, q, first, second) && Run(states)
    requires Reversed(s, states[|states| - 1], e, f, p, q, first, second, Reserved, Waiting, {p, q})
    ensures Run(more) && Reversed(s, more[|more| - 1], e, f, p, q, first, second, Applied, Waiting, {p})
  {
    var l := states[|states| - 1].logs[s.log];
    assert Owns(l, 0, 1) && q in l.slots[1].places;
    more := Then(states, WriteFragment(0, q));
    assert more[|more| - 1].logs[s.log].holes == {p};
    more := Then(more, FinishLog(0));
    more := Then(more, InsertMem(0));
  }

  lemma {:induction false} FirstReturns(s: State, e: Entry, f: Entry, p: Place, q: Place, first: nat, second: nat, states: seq<State>) returns (more: seq<State>)
    requires Layable(p, q, first, second) && Run(states)
    requires Reversed(s, states[|states| - 1], e, f, p, q, first, second, Applied, Waiting, {p})
    ensures Run(more)
    ensures var s' := more[|more| - 1];
      && s'.log == s.log && s'.logs == states[|states| - 1].logs && e in s'.logged
      && |s'.tickets| == 2 && s'.tickets[0] == states[|states| - 1].tickets[0].(turn := Released)
      && s'.tickets[1] == states[|states| - 1].tickets[1]
  {
    more := Then(states, LeaveSpin(0));
    more := Then(more, Publish(0));
    more := Then(more, Release(0));
  }

  /** So a whole log need not be in sequence order, even for one user key: any two
      records that fit in the first block can be written and logged in reverse. */
  lemma {:induction false} LogNeedNotBeOrdered(s: State, e: Entry, f: Entry, first: nat, second: nat) returns (states: seq<State>)
    requires Init(s) && e.seqno == s.upper + 1 && f.seqno == s.upper + 3 && e.key == f.key
    requires first >= WriteBatches.BATCH_HEADER && second >= WriteBatches.BATCH_HEADER && HEADER + second + HEADER + first <= BLOCK
    ensures Run(states)
    ensures var s' := states[|states| - 1];
      && s.log in s'.logs && s'.logs[s.log].holes == {} && {e, f} <= s'.logged
      && var slots := s'.logs[s.log].slots;
      && |slots| == 2 && slots[0].size == second && slots[1].size == first
      && slots[0].batch == {f} && slots[1].batch == {e}
      && !LogReplay.InAgeOrder([slots[0].batch, slots[1].batch]) && !LogReplay.LastIsNewest([slots[0].batch, slots[1].batch])
  {
    var p := LogStart(s.log);
    var q := Plus(p, HEADER + second);
    states := ReservedInReverse(s, e, f, p, q, first, second);
    states := FirstWorks(s, e, f, p, q, first, second, states);
    var l := states[|states| - 1].logs[s.log];
    assert Owns(l, 1, 0) && p in l.slots[0].places;
    states := Then(states, WriteFragment(1, p));
    assert states[|states| - 1].logs[s.log].holes == {};
    states := Then(states, FinishLog(1));
    LogReplay.ReversedDisorder([{f}, {e}], e, f);
    LogReplay.ReversedReadsWrong([{f}, {e}], e, f);
  }

  /** A write that has returned is lost: the second writer reserved first and had not
      written its extent when the crash came.  This happens to records of any sizes
      that fit in the first block. */
  lemma {:induction false} AcknowledgedWriteLost(s: State, e: Entry, f: Entry, first: nat, second: nat) returns (states: seq<State>)
    requires Init(s) && e.seqno == s.upper + 1 && f.seqno == s.upper + 3
    requires first >= WriteBatches.BATCH_HEADER && second >= WriteBatches.BATCH_HEADER && HEADER + second + HEADER + first <= BLOCK
    ensures Run(states)
    ensures var s' := states[|states| - 1];
      && |s'.tickets| == 2 && s'.tickets[0].batch == {e} && s'.tickets[0].work.Applied? && s'.tickets[0].turn.Released?
      && s.log in s'.logs && |s'.logs[s.log].slots| == 2 && s'.logs[s.log].slots[0].size == second && s'.logs[s.log].slots[1].size == first
      && e in s'.logged && e !in Durable(Recovered(s'))
  {
    var p := LogStart(s.log);
    var q := Plus(p, HEADER + second);
    states := ReservedInReverse(s, e, f, p, q, first, second);
    states := FirstWorks(s, e, f, p, q, first, second, states);
    var l := states[|states| - 1].logs[s.log];
    FirstIsHidden(l, e, f, p, q, first, second);
    states := FirstReturns(s, e, f, p, q, first, second, states);
    assert HiddenBy(states[|states| - 1], 0, 1);
    LoggedIsRecoveredIff(states, 0, e);
  }

  lemma {:induction false} FirstIsHidden(l: Log, e: Entry, f: Entry, p: Place, q: Place, first: nat, second: nat)
    requires Layable(p, q, first, second)
    requires l.slots == [OneSlot(p, second, {f}, 1), OneSlot(q, first, {e}, 0)] && l.holes == {p}
    ensures Hides(l, 1, 0)
  {
    assert Owns(l, 1, 0) && p in l.slots[0].places;
    assert Owns(l, 0, 1) && q in l.slots[1].places;
    assert Blocks(p, q);
    assert HasPlace(l, 1, p) && HasPlace(l, 0, q);
  }
}
