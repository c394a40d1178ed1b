/** No writer is ever stuck: the oldest one that is not done can always take a step, and
    so every state can run on until all writers are done. */
module ProtocolProgress {
  import opened WriteProtocol
  import opened Durability
  import opened CrashSafety
  import opened ConcurrentReads

  /** How many kinds of step a writer has left. */
  ghost function Stage(t: Ticket): nat {
    if t.turn.Released? then 0
    else if t.turn.Published? then 1
    else if t.turn.Entered? then 2
    else if Ready(t) then 3
    else if t.work.Logged? then 4
    else if t.work.Reserved? then 5
    else 6
  }

  ghost function Holes(s: State, i: nat): nat {
    if i < |s.tickets| && s.tickets[i].log in s.logs then |s.logs[s.tickets[i].log].holes| else 0
  }

  ghost function StageOf(s: State, i: nat): nat {
    if i < |s.tickets| then Stage(s.tickets[i]) else 0
  }

  /** Nothing but the oldest writer's own steps. */
  ghost predicate Onward(s: State, s': State) {
    && |s'.tickets| == |s.tickets|
    && (forall i :: 0 <= i < |s.tickets| ==> SameWriter(s.tickets[i], s'.tickets[i]))
    && (|| s.served < s'.served <= |s.tickets|
        || (s'.served == s.served && StageOf(s', s.served) < StageOf(s, s.served))
        || (s'.served == s.served && StageOf(s', s.served) == StageOf(s, s.served) && Holes(s', s.served) < Holes(s, s.served)))
  }

  ghost predicate SameWriter(t: Ticket, t': Ticket) {
    t'.batch == t.batch && t'.start == t.start && t'.end == t.end && t'.work.Failed? == t.work.Failed?
  }

  lemma {:induction false} WriteOnward(s: State, i: nat, k: nat) returns (a: Action)
    requires Inv(s) && i == s.served < |s.tickets| && s.tickets[i].work.Reserved? && s.tickets[i].log in s.logs
    requires Owns(s.logs[s.tickets[i].log], i, k) && !Complete(s.logs[s.tickets[i].log], k)
    ensures Enabled(s, a) && Onward(s, Apply(s, a))
  {
    var l := s.logs[s.tickets[i].log];
    var h :| h in l.slots[k].places && h in l.holes;
    a := WriteFragment(i, h);
    assert l.holes == (l.holes - {h}) + {h};
  }

  lemma {:induction false} StageFalls(s: State, s': State, t: Ticket)
    requires s.served < |s.tickets| && s'.tickets == s.tickets[s.served := t] && s'.served == s.served
    requires SameWriter(s.tickets[s.served], t) && Stage(t) < Stage(s.tickets[s.served])
    ensures Onward(s, s')
  {
  }

  lemma {:induction false} ReservedOnward(s: State) returns (a: Action)
    requires Inv(s) && s.served < |s.tickets| && s.tickets[s.served].work.Reserved? && s.tickets[s.served].turn.Waiting?
    ensures Enabled(s, a) && Onward(s, Apply(s, a))
  {
    var i := s.served;
    if s.tickets[i].log in s.logs {
      var l := s.logs[s.tickets[i].log];
      if k: nat :| Owns(l, i, k) && !Complete(l, k) {
        a := WriteOnward(s, i, k);
        return;
      }
    }
    a := FinishLog(i);
    StageFalls(s, Apply(s, a), s.tickets[i].(work := Logged));
  }

  lemma {:induction false} WorkGoesOn(s: State) returns (a: Action)
    requires Inv(s) && s.served < |s.tickets| && s.tickets[s.served].turn.Waiting? && !Ready(s.tickets[s.served])
    ensures Enabled(s, a) && Onward(s, Apply(s, a))
  {
    var i := s.served;
    if s.tickets[i].work.Pending? {
      a := Reserve(i, WriteBatches.BATCH_HEADER);
      StageFalls(s, Apply(s, a), s.tickets[i].(work := Reserved));
    } else if s.tickets[i].work.Reserved? {
      a := ReservedOnward(s);
    } else {
      a := InsertMem(i);
      StageFalls(s, Apply(s, a), s.tickets[i].(work := Applied));
    }
  }

  lemma {:induction false} TurnGoesOn(s: State) returns (a: Action)
    requires Ordered(s) && s.served < |s.tickets| && (s.tickets[s.served].turn.Waiting? ==> Ready(s.tickets[s.served]))
    ensures Enabled(s, a) && Onward(s, Apply(s, a))
  {
    var i := s.served;
    if s.tickets[i].turn.Waiting? {
      a := LeaveSpin(i);
      StageFalls(s, Apply(s, a), s.tickets[i].(turn := Entered));
    } else if s.tickets[i].turn.Entered? {
      a := Publish(i);
      StageFalls(s, Apply(s, a), s.tickets[i].(turn := Published));
    } else {
      a := Release(i);
    }
  }

  /** The oldest writer that is not done has a step that brings it on. */
  lemma {:induction false} FrontGoesOn(s: State) returns (a: Action)
    requires Inv(s) && s.served < |s.tickets|
    ensures Enabled(s, a) && Onward(s, Apply(s, a))
  {
    if s.tickets[s.served].turn.Waiting? && !Ready(s.tickets[s.served]) {
      a := WorkGoesOn(s);
    } else {
      a := TurnGoesOn(s);
    }
  }

  // ----- to the end

  /** Every writer has published and released its turn, and all but the failed ones have
      their batches in a memtable. */
  ghost predicate AllDone(s: State, s': State) {
    && |s'.tickets| == |s.tickets|
    && forall i :: 0 <= i < |s.tickets| ==> DoneAs(s.tickets[i], s'.tickets[i])
  }

  ghost predicate DoneAs(t: Ticket, t': Ticket) {
    SameWriter(t, t') && t'.turn.Released? && (!t.work.Failed? ==> Shown(t'))
  }

  lemma {:induction false} ServedIsDone(s: State)
    requires Ordered(s) && s.served >= |s.tickets|
    ensures AllDone(s, s)
  {
  }

  lemma {:induction false} DoneLater(s: State, s': State, s'': State)
    requires Onward(s, s') && AllDone(s', s'')
    ensures AllDone(s, s'')
  {
    forall i | 0 <= i < |s.tickets|
      ensures DoneAs(s.tickets[i], s''.tickets[i])
    {
      assert SameWriter(s.tickets[i], s'.tickets[i]) && DoneAs(s'.tickets[i], s''.tickets[i]);
    }
  }

  lemma {:induction false} StepsBefore(s: State, states: seq<State>)
    requires Steps(states) && Step(s, states[0])
    ensures Steps([s] + states)
  {
    var all := [s] + states;
    forall i | 0 <= i < |all| - 1
      ensures StepAt(all, i)
    {
      assert i > 0 ==> StepAt(states, i - 1);
    }
  }

  lemma {:induction false} RunsOut(s: State) returns (states: seq<State>)
    requires Inv(s)
    ensures Steps(states) && states[0] == s && AllDone(s, states[|states| - 1])
    decreases |s.tickets| - s.served, StageOf(s, s.served), Holes(s, s.served)
  {
    if s.served >= |s.tickets| {
      ServedIsDone(s);
      states := [s];
    } else {
      var a := FrontGoesOn(s);
      var s' := Apply(s, a);
      StepKeepsInv(s, a);
      var rest := RunsOut(s');
      DoneLater(s, s', rest[|rest| - 1]);
      assert Step(s, s');
      StepsBefore(s, rest);
      states := [s] + rest;
    }
  }

  lemma {:induction false} StepsJoin(before: seq<State>, after: seq<State>)
    requires Steps(before) && Steps(after) && after[0] == before[|before| - 1]
    ensures Steps(before + after[1..])
  {
    var all, n := before + after[1..], |before|;
    forall i | 0 <= i < |all| - 1
      ensures StepAt(all, i)
    {
      if i < n - 1 {
        assert StepAt(before, i);
      } else {
        assert StepAt(after, i - n + 1);
        assert all[i] == after[i - n + 1] && all[i + 1] == after[i - n + 2];
      }
    }
  }

  /** Every run can go on, by writers' own steps and no new writer, until all writers are
      done and every batch whose log append did not fail is published. */
  lemma {:induction false} EveryWriterCanFinish(states: seq<State>) returns (more: seq<State>)
    requires Run(states)
    ensures Run(more) && states <= more && AllDone(states[|states| - 1], more[|more| - 1])
  {
    RunKeepsFull(states);
    var rest := RunsOut(states[|states| - 1]);
    StepsJoin(states, rest);
    more := states + rest[1..];
    assert more[|more| - 1] == rest[|rest| - 1];
  }

  /** And then the immutable memtable can be flushed, and the next switch can come. */
  lemma {:induction false} EveryRunCanFlush(states: seq<State>) returns (more: seq<State>)
    requires Run(states)
    ensures Run(more) && states <= more && AllDone(states[|states| - 1], more[|more| - 1])
    ensures more[|more| - 1].imm.NoImm? && Enabled(more[|more| - 1], SwitchMemTable)
  {
    more := EveryWriterCanFinish(states);
    var s := more[|more| - 1];
    if s.imm.Imm? {
      forall i | 0 <= i < |s.tickets|
        ensures s.tickets[i].turn.Released?
      {
        assert DoneAs(states[|states| - 1].tickets[i], s.tickets[i]);
      }
      var s' := Apply(s, FlushMemTable);
      assert Step(s, s') && StepAt([s, s'], 0);
      StepsJoin(more, [s, s']);
      more := more + [s, s'][1..];
      assert more[|more| - 1] == s' && s'.tickets == s.tickets;
    }
  }
}
