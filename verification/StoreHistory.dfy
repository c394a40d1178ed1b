/** What a run of the engine was asked to do, told from its list of actions alone, and
    that every state agrees with it. */
module StoreHistory {
  import opened Entries
  import opened Levels
  import opened Store
  import opened StoreInvariant

  ghost predicate StepBy(s: State, a: Action, s': State) {
    && |s.files| == NUM_LEVELS
    && (forall j :: j in s.jobs ==> j.rules.level + 1 < NUM_LEVELS)
    && Enabled(s, a) && s' == Apply(s, a)
  }

  ghost predicate StepAt(states: seq<State>, acts: seq<Action>, i: int) {
    0 <= i < |acts| && i + 1 < |states| ==> StepBy(states[i], acts[i], states[i + 1])
  }

  /** The run that these actions make. */
  ghost predicate RunBy(states: seq<State>, acts: seq<Action>) {
    && |states| == |acts| + 1
    && Init(states[0])
    && forall i :: StepAt(states, acts, i)
  }

  lemma {:induction false} RunOf(states: seq<State>, acts: seq<Action>)
    requires RunBy(states, acts)
    ensures Run(states)
  {
    forall i | 0 <= i < |states| - 1
      ensures Step(states[i], states[i + 1])
    {
      assert StepAt(states, acts, i);
    }
  }

  // ----- the history

  /** Every entry of every batch. */
  ghost function WrittenBy(acts: seq<Action>): set<Entry> {
    set i, e | 0 <= i < |acts| && acts[i].Write? && e in acts[i].batch :: e
  }

  /** The last sequence given out. */
  ghost function LastBy(base: nat, acts: seq<Action>): nat {
    if acts == [] then base
    else
      var n := |acts| - 1;
      if acts[n].Write? then acts[n].last else LastBy(base, acts[..n])
  }

  /** The snapshots taken, each at the last sequence of its time, and not released. */
  ghost function SnapshotsBy(base: nat, acts: seq<Action>): multiset<nat> {
    if acts == [] then multiset{}
    else
      var n := |acts| - 1;
      var before := SnapshotsBy(base, acts[..n]);
      match acts[n]
      case TakeSnapshot => before + multiset{LastBy(base, acts[..n])}
      case ReleaseSnapshot(q) => before - multiset{q}
      case _ => before
  }

  /** A reader can hold this snapshot after the run, or ask for the newest state. */
  ghost predicate LiveAfter(base: nat, acts: seq<Action>, n: nat) {
    n >= LastBy(base, acts) || exists q :: q in SnapshotsBy(base, acts) && q <= n
  }

  lemma {:induction false} WrittenStep(acts: seq<Action>)
    requires acts != []
    ensures var n := |acts| - 1;
            WrittenBy(acts) == WrittenBy(acts[..n]) + if acts[n].Write? then acts[n].batch else {}
  {
    var n := |acts| - 1;
    var front := acts[..n];
    forall e
      ensures e in WrittenBy(acts) <==> e in WrittenBy(front) || (acts[n].Write? && e in acts[n].batch)
    {
      if e in WrittenBy(acts) {
        var i :| 0 <= i < |acts| && acts[i].Write? && e in acts[i].batch;
        assert i < n ==> front[i] == acts[i];
      }
      if e in WrittenBy(front) {
        var i :| 0 <= i < |front| && front[i].Write? && e in front[i].batch;
        assert acts[i] == front[i];
      }
    }
  }

  lemma {:induction false} RunFront(states: seq<State>, acts: seq<Action>)
    requires RunBy(states, acts) && acts != []
    ensures RunBy(states[..|acts|], acts[..|acts| - 1])
    ensures StepBy(states[|acts| - 1], acts[|acts| - 1], states[|acts|])
  {
    var n := |acts| - 1;
    var before, front := states[..n + 1], acts[..n];
    forall i
      ensures StepAt(before, front, i)
    {
      assert StepAt(states, acts, i);
    }
    assert StepAt(states, acts, n);
  }

  /** What one action adds. */
  lemma {:induction false} HistoryOfStep(s: State, a: Action, s': State)
    requires StepBy(s, a, s')
    ensures s'.written == s.written + if a.Write? then a.batch else {}
    ensures s'.lastSequence == if a.Write? then a.last else s.lastSequence
    ensures s'.snapshots == match a
              case TakeSnapshot => s.snapshots + multiset{s.lastSequence}
              case ReleaseSnapshot(q) => s.snapshots - multiset{q}
              case _ => s.snapshots
  {
  }

  /** In the last state of every run, what reads are measured against is the union of
      the batches of its writes, and the last sequence and the snapshots are those the
      actions gave out. */
  lemma {:induction false} HistoryOfRun(states: seq<State>, acts: seq<Action>)
    requires RunBy(states, acts)
    ensures var s := states[|acts|];
            && s.written == WrittenBy(acts)
            && s.lastSequence == LastBy(states[0].lastSequence, acts)
            && s.snapshots == SnapshotsBy(states[0].lastSequence, acts)
    decreases |acts|
  {
    if acts != [] {
      var n := |acts| - 1;
      RunFront(states, acts);
      HistoryOfRun(states[..n + 1], acts[..n]);
      assert states[..n + 1][n] == states[n] && states[..n + 1][0] == states[0];
      HistoryOfStep(states[n], acts[n], states[n + 1]);
      WrittenStep(acts);
    }
  }

  lemma {:induction false} LiveOfRun(states: seq<State>, acts: seq<Action>, n: nat)
    requires RunBy(states, acts)
    ensures Live(states[|acts|], n) <==> LiveAfter(states[0].lastSequence, acts, n)
  {
    HistoryOfRun(states, acts);
  }

  // ----- one more action

  lemma {:induction false} OneMore(states: seq<State>, acts: seq<Action>, a: Action) returns (more: seq<State>)
    requires RunBy(states, acts) && Enabled(states[|acts|], a)
    ensures RunBy(more, acts + [a]) && more[0] == states[0]
  {
    RunOf(states, acts);
    RunKeepsInv(states);
    var s := states[|acts|];
    more := states + [Apply(s, a)];
    forall i
      ensures StepAt(more, acts + [a], i)
    {
      assert StepAt(states, acts, i);
    }
  }

  /** Any batch can be written at any moment, if it is numbered with the next sequences,
      and a read at its last sequence then returns what it says about a key. */
  lemma {:induction false} WriteIsRead(states: seq<State>, acts: seq<Action>, batch: set<Entry>, last: nat, k: UserKey)
    returns (more: seq<State>)
    requires RunBy(states, acts) && UniqueTags(batch)
    requires LastBy(states[0].lastSequence, acts) <= last < MAX_SEQUENCE
    requires forall e :: e in batch ==> LastBy(states[0].lastSequence, acts) < e.seqno <= last
    ensures RunBy(more, acts + [Write(batch, last)]) && more[0] == states[0]
    ensures Read(Contents(more[|acts| + 1]), k, last) ==
            if HasVisible(batch, k, last) then Read(batch, k, last) else Read(WrittenBy(acts), k, last)
  {
    HistoryOfRun(states, acts);
    RunOf(states, acts);
    RunKeepsInv(states);
    var s := states[|acts|];
    more := OneMore(states, acts, Write(batch, last));
    RunOf(more, acts + [Write(batch, last)]);
    RunKeepsInv(more);
    HistoryOfRun(more, acts + [Write(batch, last)]);
    WrittenStep(acts + [Write(batch, last)]);
    assert (acts + [Write(batch, last)])[..|acts|] == acts;
    assert Live(more[|acts| + 1], last);
    ReadWithBatch(WrittenBy(acts), batch, k, last);
  }
}
