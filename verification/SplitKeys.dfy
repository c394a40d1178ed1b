/** Why output tables must not share a user key: a run of the engine up to a
    running compaction, the tables its loop writes, the trivial move that
    PickCompaction then makes, and the older value that Get returns. */
module SplitKeys {
  import opened Entries
  import opened Levels
  import opened Lookups
  import opened Compactions
  import opened Placement
  import opened Store
  import opened StoreInvariant
  import DbIters
  import opened Picking

  /** Four writes of two keys.  "y" is written first, then "older" and "x"
      together, then, after a snapshot, "newer". */
  datatype Writes = Writes(y: Entry, older: Entry, x: Entry, newer: Entry)

  ghost predicate InSequence(w: Writes, base: int) {
    && w.newer.key == w.older.key < w.x.key == w.y.key
    && w.older.kind.Put? && w.x.kind.Put?
    && w.y.seqno == base + 1 && w.older.seqno == base + 2 && w.x.seqno == base + 3
    && w.newer.seqno == base + 4 < MAX_SEQUENCE
  }

  // ----- building the run

  lemma {:induction false} Then(states: seq<State>, a: Action) returns (more: seq<State>)
    requires Run(states) && Enabled(states[|states| - 1], a)
    ensures Inv(states[|states| - 1])
    ensures Run(more) && more[0] == states[0] && more[|more| - 1] == Apply(states[|states| - 1], a)
  {
    RunKeepsInv(states);
    var s := states[|states| - 1];
    more := states + [Apply(s, a)];
    assert Step(s, Apply(s, a));
    forall i | 0 <= i < |more| - 1
      ensures Step(more[i], more[i + 1])
    {
      assert i < |states| - 1 ==> Step(states[i], states[i + 1]);
    }
  }

  /** A quiet state: nothing in memory, nothing running. */
  ghost predicate Quiet(s: State) {
    s.mem == {} && s.imm == NoImm && s.jobs == {} && |s.files| == NUM_LEVELS
  }

  /** Write a batch, switch the memtable, flush it. */
  ghost function AfterFlush(s: State, v: Version, rows: seq<Entry>, last: nat): State
    requires |v| == NUM_LEVELS == |s.files| && rows != []
  {
    var t: Table := Table(s.nextFile, rows);
    var level := QuietLevel(v, t.Lo(), t.Hi());
    s.(written := s.written + Elements(rows), lastSequence := last,
       nextFile := s.nextFile + 1, files := s.files[level := s.files[level] + {t}])
  }

  lemma {:induction false} WriteAndFlush(states: seq<State>, v: Version, rows: seq<Entry>, last: nat) returns (more: seq<State>)
    requires Run(states)
    requires var s := states[|states| - 1];
             && Quiet(s) && Lists(v, s.files)
             && rows != [] && Sorted(rows)
             && s.lastSequence <= last < MAX_SEQUENCE
             && forall e :: e in rows ==> s.lastSequence < e.seqno <= last
    ensures Run(more) && more[0] == states[0]
    ensures more[|more| - 1] == AfterFlush(states[|states| - 1], v, rows, last)
  {
    var s := states[|states| - 1];
    DbIters.SortedUnique(rows);
    more := Then(states, Write(Elements(rows), last));
    assert {} + Elements(rows) == Elements(rows);
    more := Then(more, SwitchMemTable);
    assert Locked({}) == {};
    more := Then(more, Flush(v, rows));
  }

  function Deep(a: seq<Table>, b: seq<Table>, c: seq<Table>): Version {
    [a, b, c, [], [], [], []]
  }

  ghost function DeepSets(a: set<Table>, b: set<Table>, c: set<Table>): Files {
    [a, b, c, {}, {}, {}, {}]
  }

  lemma {:induction false} DeepLists(a: seq<Table>, b: seq<Table>, c: seq<Table>)
    requires AllSorted(a) && AllSorted(b) && AllSorted(c) && |a| <= 1 && |b| <= 1 && Disjoint(c)
    ensures Lists(Deep(a, b, c), DeepSets(SetOf(a), SetOf(b), SetOf(c)))
  {
  }

  // ----- the run up to the compaction

  /** The four tables of the story, numbered from "first". */
  function TableC(w: Writes, first: nat): Table {
    Table(first, [w.y])
  }

  function TableLow(w: Writes, first: nat): Table {
    Table(first + 1, [w.older, w.x])
  }

  function TableTop(w: Writes, first: nat): Table {
    Table(first + 2, [w.newer])
  }

  lemma {:induction false} FlushDeep(states: seq<State>, a: seq<Table>, b: seq<Table>, c: seq<Table>, rows: seq<Entry>, last: nat, level: nat)
    returns (more: seq<State>)
    requires Run(states) && rows != [] && Sorted(rows)
    requires AllSorted(a) && AllSorted(b) && AllSorted(c) && |a| <= 1 && |b| <= 1 && Disjoint(c)
    requires var s := states[|states| - 1];
             && Quiet(s) && s.files == DeepSets(SetOf(a), SetOf(b), SetOf(c))
             && s.lastSequence <= last < MAX_SEQUENCE
             && forall e :: e in rows ==> s.lastSequence < e.seqno <= last
    requires level == QuietLevel(Deep(a, b, c), rows[0].key, rows[|rows| - 1].key)
    ensures Run(more) && more[0] == states[0]
    ensures var s := states[|states| - 1];
            more[|more| - 1] ==
              s.(written := s.written + Elements(rows), lastSequence := last, nextFile := s.nextFile + 1,
                 files := s.files[level := s.files[level] + {Table(s.nextFile, rows)}])
  {
    DeepLists(a, b, c);
    more := WriteAndFlush(states, Deep(a, b, c), rows, last);
  }

  lemma {:induction false} OneTable(t: Table)
    ensures SetOf([t]) == {t} && SetOf([]) == {}
  {
    assert t in [t];
  }

  /** "y" goes to level 2, where nothing is in its way. */
  lemma {:induction false} FirstFlush(s: State, w: Writes) returns (states: seq<State>)
    requires Init(s) && InSequence(w, s.lastSequence)
    ensures Run(states) && states[0] == s
    ensures states[|states| - 1] ==
              s.(written := {w.y}, lastSequence := w.y.seqno, nextFile := s.nextFile + 1,
                 files := DeepSets({}, {}, {TableC(w, s.nextFile)}))
  {
    OneTable(TableC(w, s.nextFile));
    assert s.files == DeepSets(SetOf([]), SetOf([]), SetOf([]));
    states := FlushDeep([s], [], [], [], [w.y], w.y.seqno, 2);
    assert {} + Elements([w.y]) == {w.y};
    assert {} + {TableC(w, s.nextFile)} == {TableC(w, s.nextFile)};
  }

  /** "older" and "x" overlap it and stay at level 1. */
  lemma {:induction false} SecondFlush(before: seq<State>, w: Writes, first: nat) returns (states: seq<State>)
    requires Run(before) && InSequence(w, w.y.seqno - 1)
    requires var s := before[|before| - 1];
             && Quiet(s) && s.written == {w.y} && s.lastSequence == w.y.seqno && s.nextFile == first + 1
             && s.files == DeepSets({}, {}, {TableC(w, first)})
    ensures Run(states) && states[0] == before[0]
    ensures states[|states| - 1] ==
              before[|before| - 1].(written := {w.y, w.older, w.x}, lastSequence := w.x.seqno, nextFile := first + 2,
                                    files := DeepSets({}, {TableLow(w, first)}, {TableC(w, first)}))
  {
    var c := TableC(w, first);
    OneTable(c);
    assert c in [c] && Overlaps(c, w.older.key, w.x.key);
    states := FlushDeep(before, [], [], [c], [w.older, w.x], w.x.seqno, 1);
    assert {w.y} + Elements([w.older, w.x]) == {w.y, w.older, w.x};
    assert {} + {TableLow(w, first)} == {TableLow(w, first)};
  }

  /** "newer" overlaps that and stays at level 0. */
  lemma {:induction false} ThirdFlush(before: seq<State>, w: Writes, first: nat) returns (states: seq<State>)
    requires Run(before) && InSequence(w, w.y.seqno - 1)
    requires var s := before[|before| - 1];
             && Quiet(s) && s.written == {w.y, w.older, w.x} && s.lastSequence == w.x.seqno && s.nextFile == first + 2
             && s.files == DeepSets({}, {TableLow(w, first)}, {TableC(w, first)})
    ensures Run(states) && states[0] == before[0]
    ensures states[|states| - 1] ==
              before[|before| - 1].(written := {w.y, w.older, w.x, w.newer}, lastSequence := w.newer.seqno, nextFile := first + 3,
                                    files := DeepSets({TableTop(w, first)}, {TableLow(w, first)}, {TableC(w, first)}))
  {
    var c, low := TableC(w, first), TableLow(w, first);
    OneTable(c);
    OneTable(low);
    assert low in [low] && Overlaps(low, w.newer.key, w.newer.key);
    states := FlushDeep(before, [], [low], [c], [w.newer], w.newer.seqno, 0);
    assert {w.y, w.older, w.x} + Elements([w.newer]) == {w.y, w.older, w.x, w.newer};
    assert {} + {TableTop(w, first)} == {TableTop(w, first)};
  }

  /** The state after the three flushes and the snapshot. */
  ghost function Placed(s: State, w: Writes): State {
    s.(written := {w.y, w.older, w.x, w.newer}, lastSequence := w.newer.seqno, nextFile := s.nextFile + 3,
       snapshots := multiset{w.x.seqno},
       files := DeepSets({TableTop(w, s.nextFile)}, {TableLow(w, s.nextFile)}, {TableC(w, s.nextFile)}))
  }

  lemma {:induction false} PlacedByRun(s: State, w: Writes) returns (states: seq<State>)
    requires Init(s) && InSequence(w, s.lastSequence)
    ensures Run(states) && states[0] == s && states[|states| - 1] == Placed(s, w)
  {
    states := FirstFlush(s, w);
    states := SecondFlush(states, w, s.nextFile);
    states := Then(states, TakeSnapshot);
    states := ThirdFlush(states, w, s.nextFile);
  }

  // ----- the compaction, the move and the read

  /** The compaction of level 0 that is running then. */
  ghost function JobOf(w: Writes, first: nat, cutoff: nat): Job {
    Job({TableTop(w, first)}, {TableLow(w, first)},
        Rules(Deep([TableTop(w, first)], [TableLow(w, first)], [TableC(w, first)]), 0, w.x.seqno, cutoff))
  }

  lemma {:induction false} JobBegins(before: seq<State>, w: Writes, first: nat, cutoff: nat) returns (states: seq<State>)
    requires Run(before) && InSequence(w, w.y.seqno - 1)
    requires var s := before[|before| - 1];
             && s.jobs == {} && s.snapshots == multiset{w.x.seqno}
             && s.files == DeepSets({TableTop(w, first)}, {TableLow(w, first)}, {TableC(w, first)})
    ensures Run(states) && states[0] == before[0]
    ensures states[|states| - 1] == before[|before| - 1].(jobs := {JobOf(w, first, cutoff)})
  {
    var c, low, top := TableC(w, first), TableLow(w, first), TableTop(w, first);
    var s, j := before[|before| - 1], JobOf(w, first, cutoff);
    OneTable(c);
    OneTable(low);
    OneTable(top);
    DeepLists([top], [low], [c]);
    assert Hull({top}, w.newer.key, w.newer.key);
    assert {low} == set t | t in s.files[1] && Overlaps(t, w.newer.key, w.newer.key);
    assert Picked(s.files, 0, {top}, {low});
    assert Locked({}) == {};
    states := Then(before, BeginCompaction(j.rules.version, j));
    assert {} + {j} == {j};
  }

  lemma {:induction false} InputRows(w: Writes, first: nat, inputs: set<Table>)
    requires inputs == {TableTop(w, first), TableLow(w, first)}
    ensures Rows(inputs) == Elements([w.newer, w.older, w.x])
  {
    var top, low := TableTop(w, first), TableLow(w, first);
    assert w.newer in top.rows && w.older in low.rows && w.x in low.rows;
    assert w.newer in Rows(inputs) && w.older in Rows(inputs) && w.x in Rows(inputs);
  }

  lemma {:induction false} LoopFinished(s: State, w: Writes, first: nat, cutoff: nat, outputs: seq<seq<Entry>>)
    requires InSequence(w, w.y.seqno - 1) && s.jobs == {JobOf(w, first, cutoff)}
    requires outputs == [[w.newer], [w.older, w.x]]
    ensures Finished(s, JobOf(w, first, cutoff), [w.newer, w.older, w.x], outputs)
  {
    var input, j := [w.newer, w.older, w.x], JobOf(w, first, cutoff);
    InputRows(w, first, j.upper + j.lower);
    assert !Drops(j.rules, input, 0) && !Drops(j.rules, input, 1) && !Drops(j.rules, input, 2);
    assert Kept(j.rules, input, 0) == [] && Kept(j.rules, input, 1) == [w.newer];
    assert Kept(j.rules, input, 2) == [w.newer, w.older] && Kept(j.rules, input, 3) == input;
    assert outputs[..1] == [[w.newer]] && Concat([[w.newer]]) == [w.newer];
    assert Concat(outputs) == [w.newer] + [w.older, w.x];
  }

  /** Level 1 then holds both outputs, and the second overlaps level 2. */
  lemma {:induction false} AfterInstall(s: State, w: Writes, first: nat, cutoff: nat, outputs: seq<seq<Entry>>, a: Table, b: Table)
    requires s.jobs == {JobOf(w, first, cutoff)} && s.nextFile == first + 3
    requires s.files == DeepSets({TableTop(w, first)}, {TableLow(w, first)}, {TableC(w, first)})
    requires outputs == [[w.newer], [w.older, w.x]] && a == Table(first + 3, outputs[0]) && b == Table(first + 4, outputs[1])
    ensures Installed(s, JobOf(w, first, cutoff), outputs) ==
            s.(jobs := {}, nextFile := first + 5, files := DeepSets({}, {a, b}, {TableC(w, first)}))
  {
    assert OutputTables(first + 3, outputs) == {a, b};
    assert {TableTop(w, first)} - {TableTop(w, first)} == {};
    assert {TableLow(w, first)} - {TableLow(w, first)} + {a, b} == {a, b};
  }

  lemma {:induction false} AfterMove(s: State, a: Table, b: Table, c: Table)
    requires s.files == DeepSets({}, {a, b}, {c}) && s.jobs == {} && a != b
    requires !Overlaps(c, a.Lo(), a.Hi())
    ensures Enabled(s, TrivialMove(1, {a}))
    ensures Apply(s, TrivialMove(1, {a})) == s.(files := DeepSets({}, {b}, {a, c}))
  {
    assert Locked({}) == {};
    assert {a, b} - {a} == {b} && {c} - {} + {a} == {a, c};
  }

  /** From the state s1, in which the job runs: the outputs are installed, the picked
      tables are moved down, and v lists what is then stored. */
  ghost predicate LeadsTo(s1: State, j: Job, input: seq<Entry>, outputs: seq<seq<Entry>>, moved: set<Table>, v: Version) {
    && |s1.files| == NUM_LEVELS && j.rules.level + 1 < NUM_LEVELS
    && Finished(s1, j, input, outputs)
    && var s2 := Installed(s1, j, outputs);
       && s2.jobs == {} && Enabled(s2, TrivialMove(1, moved))
       && Lists(v, Apply(s2, TrivialMove(1, moved)).files)
  }

  /** With any size limit that "newer" reaches and "older" and "x" do not, any file
      sizes and any limit on the size of a compaction: the loop writes two tables that
      share a key, PickCompaction moves the first and only the first, and Get, at the
      last sequence, returns "older". */
  method SplitKeyBreaksGet(w: Writes, first: nat, cutoff: nat, full: seq<Entry> -> bool, size: Table -> nat, limit: nat, ghost s: State)
    returns (outputs: seq<seq<Entry>>, pick: Pick, v: Version, r: Lookup, ghost states: seq<State>)
    requires Init(s) && InSequence(w, s.lastSequence) && s.nextFile == first
    requires full([w.newer]) && !full([w.older]) && !full([w.older, w.x])
    requires forall t :: size(t) > 0
    ensures Run(states) && states[0] == s && states[|states| - 1].lastSequence == w.newer.seqno
    ensures pick.Move?
    ensures LeadsTo(states[|states| - 1], JobOf(w, first, cutoff), [w.newer, w.older, w.x], outputs, SetOf(pick.tables), v)
    ensures IsNewest(states[|states| - 1].written, w.newer.key, w.newer.seqno, w.newer) && r == Hit(w.older)
  {
    outputs := CompactLevelZero(w, first, cutoff, full);
    var a, b := Table(first + 3, outputs[0]), Table(first + 4, outputs[1]);
    pick, v, r := MoveAndGet(w, a, b, TableC(w, first), size, limit);
    states := Story(s, w, cutoff, outputs, a, b);
  }

  /** The running compaction's loop. */
  method CompactLevelZero(w: Writes, first: nat, cutoff: nat, full: seq<Entry> -> bool) returns (outputs: seq<seq<Entry>>)
    requires InSequence(w, w.y.seqno - 1)
    requires full([w.newer]) && !full([w.older]) && !full([w.older, w.x])
    ensures outputs == [[w.newer], [w.older, w.x]]
  {
    var c, low, top := TableC(w, first), TableLow(w, first), TableTop(w, first);
    DeepLists([top], [low], [c]);
    var compaction := new Compaction(0, Deep([top], [low], [c]));
    outputs := LoopSplitsKey(compaction, w.newer, w.older, w.x, w.x.seqno, cutoff, full);
  }

  /** The next pick at level 1, and a read of the version it leads to. */
  method MoveAndGet(w: Writes, a: Table, b: Table, c: Table, size: Table -> nat, limit: nat)
    returns (pick: Pick, v: Version, r: Lookup)
    requires InSequence(w, w.y.seqno - 1) && a.rows == [w.newer] && b.rows == [w.older, w.x] && c.rows == [w.y]
    requires forall t :: size(t) > 0
    ensures pick.Move? && SetOf(pick.tables) == {a} && v == Deep([], [b], [a, c]) && r == Hit(w.older)
  {
    pick := PickCompaction(1, [a, b], [c], size, limit);
    OnlyFirstIsFree(w, a, b, c, pick);
    v := Deep([], [b], [a, c]);
    DeepLists([], [b], [a, c]);
    r := Lookups.Get(v, w.newer.key, w.newer.seqno);
    OlderAnswers(w, a, b, c, r);
  }

  lemma {:induction false} Story(s: State, w: Writes, cutoff: nat, outputs: seq<seq<Entry>>, a: Table, b: Table) returns (states: seq<State>)
    requires Init(s) && InSequence(w, s.lastSequence)
    requires outputs == [[w.newer], [w.older, w.x]] && a == Table(s.nextFile + 3, outputs[0]) && b == Table(s.nextFile + 4, outputs[1])
    ensures Run(states) && states[0] == s && states[|states| - 1].lastSequence == w.newer.seqno
    ensures states[|states| - 1].written == {w.y, w.older, w.x, w.newer}
    ensures LeadsTo(states[|states| - 1], JobOf(w, s.nextFile, cutoff), [w.newer, w.older, w.x], outputs, {a},
                    Deep([], [b], [a, TableC(w, s.nextFile)]))
  {
    var first := s.nextFile;
    states := PlacedByRun(s, w);
    states := JobBegins(states, w, first, cutoff);
    EndOfStory(states[|states| - 1], w, first, cutoff, outputs, a, b);
  }

  lemma {:induction false} EndOfStory(s: State, w: Writes, first: nat, cutoff: nat, outputs: seq<seq<Entry>>, a: Table, b: Table)
    requires InSequence(w, w.y.seqno - 1) && s.jobs == {JobOf(w, first, cutoff)} && s.nextFile == first + 3
    requires s.files == DeepSets({TableTop(w, first)}, {TableLow(w, first)}, {TableC(w, first)})
    requires outputs == [[w.newer], [w.older, w.x]] && a == Table(first + 3, outputs[0]) && b == Table(first + 4, outputs[1])
    ensures LeadsTo(s, JobOf(w, first, cutoff), [w.newer, w.older, w.x], outputs, {a}, Deep([], [b], [a, TableC(w, first)]))
  {
    var c := TableC(w, first);
    LoopFinished(s, w, first, cutoff, outputs);
    AfterInstall(s, w, first, cutoff, outputs, a, b);
    AfterMove(Installed(s, JobOf(w, first, cutoff), outputs), a, b, c);
    OneTable(b);
    assert SetOf([a, c]) == {a, c};
    DeepLists([], [b], [a, c]);
  }

  lemma {:induction false} OnlyFirstIsFree(w: Writes, a: Table, b: Table, c: Table, pick: Pick)
    requires InSequence(w, w.y.seqno - 1) && a.rows == [w.newer] && b.rows == [w.older, w.x] && c.rows == [w.y]
    requires pick.Move? <==> exists t :: t in [a, b] && FreeOf([c], t)
    requires pick.Move? ==> forall t :: t in pick.tables <==> t in [a, b] && FreeOf([c], t)
    ensures pick.Move? && SetOf(pick.tables) == {a}
  {
    assert c in [c] && Overlaps(c, b.Lo(), b.Hi()) && !FreeOf([c], b);
    assert a in [a, b] && FreeOf([c], a);
  }

  lemma {:induction false} OneTableLevel(t: Table)
    ensures LevelContents([t]) == t.Contents()
  {
    assert [t][0] == t;
  }

  lemma {:induction false} OlderAnswers(w: Writes, a: Table, b: Table, c: Table, r: Lookup)
    requires InSequence(w, w.y.seqno - 1) && a.rows == [w.newer] && b.rows == [w.older, w.x] && c.rows == [w.y]
    requires SearchAnswer(Deep([], [b], [a, c]), w.newer.key, w.newer.seqno, r)
    ensures r == Hit(w.older)
  {
    var v, k, n := Deep([], [b], [a, c]), w.newer.key, w.newer.seqno;
    OneTableLevel(b);
    assert w.older in b.rows;
    assert w.older in LevelContents(v[1]) && w.older in VersionContents(v) && Visible(w.older, k, n);
    var l :| HitLevel(v, l, k, n, r.entry);
    assert l == 1;
  }
}
