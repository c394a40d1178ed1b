/** Crashes of the storage engine.

    A crash loses both memtables, the snapshots and the running compactions.
    What is left is the last recorded version, with the sequence recorded in it,
    and what the logs give back.  Recovery turns the replayed entries into
    level-0 tables. */
module StoreRecovery {
  import opened Entries
  import opened Levels
  import opened Compactions
  import opened Store
  import opened StoreInvariant
  import LogReplay
  import Placement
  import StoreReads

  /** "recorded" is the last sequence in the manifest. */
  datatype Disk = Disk(s: State, recorded: nat)

  /** What was written and no longer waits in a memtable. */
  ghost function Settled(s: State): set<Entry> {
    s.written - s.mem - ImmEntries(s.imm)
  }

  /** The files alone show the settled writes, at the recorded sequence and
      after it, and hold nothing newer than that sequence. */
  ghost predicate FilesOk(d: Disk) {
    && d.recorded <= d.s.lastSequence
    && (forall e :: e in Settled(d.s) ==> e.seqno <= d.recorded)
    && AllNewer(d.s.mem, Settled(d.s))
    && AllNewer(ImmEntries(d.s.imm), Settled(d.s))
    && FileReads(d.s, d.recorded)
  }

  ghost predicate FileReads(s: State, from: nat) {
    forall k, n: nat :: n >= from ==> Read(FileContents(s.files), k, n) == Read(Settled(s), k, n)
  }

  ghost predicate Full(d: Disk) {
    Inv(d.s) && FilesOk(d)
  }

  /** The steps that record a new version record the last sequence with it. */
  predicate Records(a: Action) {
    a.Flush? || a.InstallCompaction? || a.TrivialMove?
  }

  ghost function Next(d: Disk, a: Action): Disk
    requires |d.s.files| == NUM_LEVELS
    requires Enabled(d.s, a)
    requires forall j :: j in d.s.jobs ==> j.rules.level + 1 < NUM_LEVELS
  {
    Disk(Apply(d.s, a), if Records(a) then d.s.lastSequence else d.recorded)
  }

  // ----- every ordinary step

  lemma {:induction false} WriteFiles(d: Disk, a: Action)
    requires Full(d) && Enabled(d.s, a) && a.Write?
    ensures FilesOk(Next(d, a))
  {
    assert Settled(Apply(d.s, a)) == Settled(d.s);
  }

  lemma {:induction false} SwitchFiles(d: Disk, a: Action)
    requires Full(d) && Enabled(d.s, a) && a.SwitchMemTable?
    ensures FilesOk(Next(d, a))
  {
    assert Settled(Apply(d.s, a)) == Settled(d.s);
  }

  lemma {:induction false} FlushFiles(d: Disk, a: Action)
    requires Full(d) && Enabled(d.s, a) && a.Flush?
    ensures FilesOk(Next(d, a))
  {
    var s' := Apply(d.s, a);
    if a.rows == [] {
      assert d.s.imm.entries == {};
    } else {
      var t := Table(d.s.nextFile, a.rows);
      FlushContents(d.s.files, t, Placement.Unlocked(Placement.QuietLevel(a.v, t.Lo(), t.Hi()), Locked(d.s.jobs)));
    }
    assert FileContents(s'.files) == FileContents(d.s.files) + d.s.imm.entries;
    FlushSettles(d.s, s');
    BatchReads(d.s, d.recorded, FileContents(d.s.files), Settled(d.s), d.s.imm.entries);
  }

  lemma {:induction false} FlushSettles(s: State, s': State)
    requires HistoryOk(s) && MemoryNewest(s) && s.imm.Imm?
    requires s'.written == s.written && s'.mem == s.mem && s'.imm == NoImm
    ensures Settled(s') == Settled(s) + s.imm.entries
  {
  }

  /** Adding the same newer entries to two sets that read alike keeps them alike. */
  lemma {:induction false} BatchReads(s: State, from: nat, es: set<Entry>, fs: set<Entry>, batch: set<Entry>)
    requires UniqueTags(s.written) && es <= s.written && fs <= s.written && batch <= s.written
    requires AllNewer(batch, es) && AllNewer(batch, fs)
    requires forall k, n: nat :: n >= from ==> Read(es, k, n) == Read(fs, k, n)
    ensures forall k, n: nat :: n >= from ==> Read(es + batch, k, n) == Read(fs + batch, k, n)
  {
    forall k, n: nat | n >= from
      ensures Read(es + batch, k, n) == Read(fs + batch, k, n)
    {
      ReadWithBatch(es, batch, k, n);
      ReadWithBatch(fs, batch, k, n);
    }
  }

  lemma {:induction false} InstallFilesOk(d: Disk, a: Action)
    requires Full(d) && Enabled(d.s, a) && a.InstallCompaction?
    ensures FilesOk(Next(d, a))
  {
    var s := d.s;
    var j := a.job;
    var kept := Kept(j.rules, a.input, |a.input|);
    var outs := OutputTables(s.nextFile, a.outputs);
    assert JobOk(s.files, j);
    KeptSorted(j.rules, a.input, |a.input|);
    OutputsOk(s.nextFile, a.outputs, kept);
    PutBackContents(s.files, j.rules.level, j.upper, j.lower);
    ReplaceContents(s.files, j.rules.level, j.upper, j.lower, outs);
    JobRestIsNewer(s, j, a.input);
    InstallFileReads(s, Apply(s, a), j, a.input, FileContents(Replace(s.files, j.rules.level, j.upper, j.lower, {})));
  }

  lemma {:induction false} InstallFileReads(s: State, s': State, j: Job, input: seq<Entry>, rest: set<Entry>)
    requires |s.files| == NUM_LEVELS == |j.rules.version| && j.rules.level + 1 < NUM_LEVELS
    requires HistoryOk(s) && JobsOk(s) && j in s.jobs && Sorted(input)
    requires s'.written == s.written && s'.mem == s.mem && s'.imm == s.imm
    requires FileContents(s.files) == rest + Elements(input)
    requires FileContents(s'.files) == rest + Elements(Kept(j.rules, input, |input|))
    requires rest <= RestOf(s, j) && RestIsNewer(j.rules, input, RestOf(s, j))
    requires FileReads(s, s.lastSequence)
    ensures FileReads(s', s.lastSequence)
  {
    forall k, n: nat | n >= s.lastSequence
      ensures Read(FileContents(s'.files), k, n) == Read(Settled(s'), k, n)
    {
      assert Elements(input) + rest == FileContents(s.files);
      assert Elements(Kept(j.rules, input, |input|)) + rest == FileContents(s'.files);
      CompactionPreservesReads(j.rules, input, rest, k, n);
    }
  }

  lemma {:induction false} MoveFiles(d: Disk, a: Action)
    requires Full(d) && Enabled(d.s, a) && a.TrivialMove?
    ensures FilesOk(Next(d, a))
  {
    MoveContents(d.s.files, a.level, a.tables);
  }

  lemma {:induction false} QuietFiles(d: Disk, a: Action)
    requires Full(d) && Enabled(d.s, a)
    requires a.BeginCompaction? || a.AbandonCompaction? || a.TakeSnapshot? || a.ReleaseSnapshot?
    ensures FilesOk(Next(d, a))
  {
  }

  lemma {:induction false} StepKeepsFull(d: Disk, a: Action)
    requires Full(d) && Enabled(d.s, a)
    ensures Full(Next(d, a))
  {
    StepKeepsInv(d.s, a);
    StepKeepsFiles(d, a);
  }

  lemma {:induction false} StepKeepsFiles(d: Disk, a: Action)
    requires Full(d) && Enabled(d.s, a)
    ensures FilesOk(Next(d, a))
  {
    match a
    case Write(_, _) => WriteFiles(d, a);
    case SwitchMemTable => SwitchFiles(d, a);
    case Flush(_, _) => FlushFiles(d, a);
    case InstallCompaction(_, _, _) => InstallFilesOk(d, a);
    case TrivialMove(_, _) => MoveFiles(d, a);
    case BeginCompaction(_, _) => QuietFiles(d, a);
    case AbandonCompaction(_) => QuietFiles(d, a);
    case TakeSnapshot => QuietFiles(d, a);
    case ReleaseSnapshot(_) => QuietFiles(d, a);
  }

  // ----- a crash and the recovery after it

  /** What the logs gave back: "parts" are the rows of the tables recovery
      writes, in the order it writes them, and "last" the largest sequence it
      saw, in the manifest or in a log. */
  datatype Replay = Replay(parts: seq<seq<Entry>>, last: nat)

  ghost function PartSets(parts: seq<seq<Entry>>): seq<set<Entry>> {
    seq(|parts|, i requires 0 <= i < |parts| => Elements(parts[i]))
  }

  ghost function Back(r: Replay): set<Entry> {
    set i, e | 0 <= i < |r.parts| && e in r.parts[i] :: e
  }

  /** The logs hold nothing but what was in the memtables; they may have lost any
      part of it. */
  ghost predicate MayRecover(d: Disk, r: Replay) {
    && (forall i :: 0 <= i < |r.parts| ==> r.parts[i] != [] && Sorted(r.parts[i]))
    && Back(r) <= d.s.mem + ImmEntries(d.s.imm)
    && d.recorded <= r.last < MAX_SEQUENCE
    && (forall e :: e in Back(r) ==> e.seqno <= r.last)
  }

  ghost function Recovered(d: Disk, r: Replay): Disk
    requires |d.s.files| == NUM_LEVELS
    requires forall i :: 0 <= i < |r.parts| ==> r.parts[i] != []
  {
    Disk(
      State({}, NoImm,
            d.s.files[0 := d.s.files[0] + OutputTables(d.s.nextFile, r.parts)],
            d.s.nextFile + |r.parts|,
            r.last, multiset{}, {},
            Settled(d.s) + Back(r)),
      r.last)
  }

  lemma {:induction false} BackRows(first: nat, r: Replay)
    requires forall i :: 0 <= i < |r.parts| ==> r.parts[i] != []
    ensures Rows(OutputTables(first, r.parts)) == Back(r)
  {
    var outs := OutputTables(first, r.parts);
    forall e | e in Back(r)
      ensures e in Rows(outs)
    {
      var i :| 0 <= i < |r.parts| && e in r.parts[i];
      assert Table(first + i, r.parts[i]) in outs;
    }
  }

  /** The files are settled writes, and the memtables are newer. */
  lemma {:induction false} BackIsNewer(d: Disk, r: Replay)
    requires Full(d) && MayRecover(d, r)
    ensures FileContents(d.s.files) <= Settled(d.s)
    ensures AllNewer(Back(r), Settled(d.s))
    ensures AllNewer(Back(r), FileContents(d.s.files))
  {
  }

  lemma {:induction false} RecoveredFiles(files: Files, nextFile: nat, parts: seq<seq<Entry>>)
    requires Shaped(files, nextFile) && Aged(files)
    requires forall i :: 0 <= i < |parts| ==> parts[i] != [] && Sorted(parts[i])
    requires AllNewer(Rows(OutputTables(nextFile, parts)), FileContents(files))
    ensures Shaped(files[0 := files[0] + OutputTables(nextFile, parts)], nextFile + |parts|)
    ensures Aged(files[0 := files[0] + OutputTables(nextFile, parts)])
  {
    var outs := OutputTables(nextFile, parts);
    var files' := files[0 := files[0] + outs];
    forall l, m, e, f | l < m && StoredAt(files', l, e) && StoredAt(files', m, f) && e.key == f.key
      ensures e.seqno > f.seqno
    {
      assert StoredAt(files, m, f);
      StoredInContents(files, f);
      if !StoredAt(files, l, e) {
        var t: Table :| t in files'[l] && e in t.rows;
        assert e in Rows(outs);
      }
    }
  }

  /** Larger numbers are newer at level 0 if and only if the replayed tables
      were written in age order. */
  lemma {:induction false} NumbersTrustedIff(files: Files, nextFile: nat, parts: seq<seq<Entry>>)
    requires Shaped(files, nextFile) && AgedByNumber(files[0])
    requires forall i :: 0 <= i < |parts| ==> parts[i] != []
    requires AllNewer(Rows(OutputTables(nextFile, parts)), FileContents(files))
    ensures AgedByNumber(files[0] + OutputTables(nextFile, parts)) <==> LogReplay.InAgeOrder(PartSets(parts))
  {
    if LogReplay.InAgeOrder(PartSets(parts)) {
      NumbersTrusted(files, nextFile, parts);
    }
    if AgedByNumber(files[0] + OutputTables(nextFile, parts)) {
      PartsInOrder(files[0], nextFile, parts);
    }
  }

  lemma {:induction false} NumbersTrusted(files: Files, nextFile: nat, parts: seq<seq<Entry>>)
    requires Shaped(files, nextFile) && AgedByNumber(files[0])
    requires forall i :: 0 <= i < |parts| ==> parts[i] != []
    requires AllNewer(Rows(OutputTables(nextFile, parts)), FileContents(files))
    requires LogReplay.InAgeOrder(PartSets(parts))
    ensures AgedByNumber(files[0] + OutputTables(nextFile, parts))
  {
    var outs := OutputTables(nextFile, parts);
    forall t: Table, u: Table, e, f |
      t in files[0] + outs && u in files[0] + outs && t.number > u.number && e in t.rows && f in u.rows && e.key == f.key
      ensures e.seqno > f.seqno
    {
      if u in outs {
        assert t in outs;
        LaterPartIsNewer(nextFile, parts, u, t, e, f);
      } else if t in outs {
        OutputIsNewer(files, outs, t, u, e, f);
      }
    }
  }

  lemma {:induction false} OutputIsNewer(files: Files, outs: set<Table>, t: Table, u: Table, e: Entry, f: Entry)
    requires AllNewer(Rows(outs), FileContents(files))
    requires |files| > 0 && t in outs && u in files[0] && e in t.rows && f in u.rows
    ensures e.seqno > f.seqno
  {
    assert e in Rows(outs);
    assert StoredAt(files, 0, f);
    StoredInContents(files, f);
  }

  lemma {:induction false} LaterPartIsNewer(first: nat, parts: seq<seq<Entry>>, u: Table, t: Table, e: Entry, f: Entry)
    requires forall i :: 0 <= i < |parts| ==> parts[i] != []
    requires LogReplay.InAgeOrder(PartSets(parts))
    requires u in OutputTables(first, parts) && f in u.rows
    requires t in OutputTables(first, parts) && e in t.rows
    requires t.number > u.number && e.key == f.key
    ensures e.seqno > f.seqno
  {
    var i :| 0 <= i < |parts| && u == Table(first + i, parts[i]);
    var j :| 0 <= j < |parts| && t == Table(first + j, parts[j]);
    assert f in PartSets(parts)[i] && e in PartSets(parts)[j];
  }

  lemma {:induction false} PartsInOrder(tables: set<Table>, nextFile: nat, parts: seq<seq<Entry>>)
    requires forall i :: 0 <= i < |parts| ==> parts[i] != []
    requires AgedByNumber(tables + OutputTables(nextFile, parts))
    ensures LogReplay.InAgeOrder(PartSets(parts))
  {
    forall i, j, e, f | 0 <= i < j < |parts| && e in PartSets(parts)[i] && f in PartSets(parts)[j] && e.key == f.key
      ensures e.seqno < f.seqno
    {
      var t: Table, u: Table := Table(nextFile + j, parts[j]), Table(nextFile + i, parts[i]);
      assert t in OutputTables(nextFile, parts) && u in OutputTables(nextFile, parts);
      assert f in t.rows && e in u.rows;
    }
  }

  /** Recovery restores the whole invariant if and only if the tables it writes
      are in age order; whatever the logs lost. */
  lemma {:induction false} RecoverySafeIff(d: Disk, r: Replay)
    requires Full(d) && MayRecover(d, r)
    ensures Full(Recovered(d, r)) <==> LogReplay.InAgeOrder(PartSets(r.parts))
  {
    BackRows(d.s.nextFile, r);
    BackIsNewer(d, r);
    RecoveredFiles(d.s.files, d.s.nextFile, r.parts);
    NumbersTrustedIff(d.s.files, d.s.nextFile, r.parts);
    RecoveredHistory(d, r);
  }

  lemma {:induction false} RecoveredHistory(d: Disk, r: Replay)
    requires Full(d) && MayRecover(d, r)
    ensures FileContents(Recovered(d, r).s.files) == FileContents(d.s.files) + Back(r)
    ensures var d' := Recovered(d, r);
            MemoryNewest(d'.s) && HistoryOk(d'.s) && ReadsOk(d'.s) && FilesOk(d')
  {
    var d' := Recovered(d, r);
    BackRows(d.s.nextFile, r);
    BackIsNewer(d, r);
    UnionContents(d.s.files, 0, OutputTables(d.s.nextFile, r.parts));
    BatchReads(d.s, d.recorded, FileContents(d.s.files), Settled(d.s), Back(r));
    assert Settled(d'.s) == d'.s.written;
    assert Contents(d'.s) == FileContents(d'.s.files);
  }

  /** Logs in sequence order for each key, each closed by a table of its own, give
      tables in age order. */
  lemma {:induction false} OrderedLogsRecover(d: Disk, r: Replay, logs: seq<seq<set<Entry>>>, full: set<Entry> -> bool)
    requires Full(d) && MayRecover(d, r)
    requires PartSets(r.parts) == LogReplay.ReplayedLogs(logs, full)
    requires LogReplay.InAgeOrder(LogReplay.Flat(logs))
    ensures Full(Recovered(d, r))
  {
    LogReplay.OrderedLogsGiveOrderedTables(logs, full);
    RecoverySafeIff(d, r);
  }

  // ----- every run, with crashes

  ghost predicate Step(d: Disk, d': Disk) {
    && |d.s.files| == NUM_LEVELS
    && (forall j :: j in d.s.jobs ==> j.rules.level + 1 < NUM_LEVELS)
    && ((exists a :: Enabled(d.s, a) && d' == Next(d, a))
        || exists r :: MayRecover(d, r) && LogReplay.InAgeOrder(PartSets(r.parts)) && d' == Recovered(d, r))
  }

  ghost predicate StepAt(disks: seq<Disk>, i: int) {
    0 <= i < |disks| - 1 ==> Step(disks[i], disks[i + 1])
  }

  ghost predicate Run(disks: seq<Disk>) {
    && |disks| > 0
    && Init(disks[0].s)
    && disks[0].recorded == disks[0].s.lastSequence
    && forall i :: StepAt(disks, i)
  }

  lemma {:induction false} RunPrefix(disks: seq<Disk>)
    requires Run(disks) && |disks| > 1
    ensures Run(disks[..|disks| - 1])
    ensures Step(disks[|disks| - 2], disks[|disks| - 1])
  {
    var prefix := disks[..|disks| - 1];
    forall i
      ensures StepAt(prefix, i)
    {
      assert StepAt(disks, i);
    }
    assert StepAt(disks, |disks| - 2);
  }

  lemma {:induction false} InitFull(d: Disk)
    requires Init(d.s) && d.recorded == d.s.lastSequence
    ensures Full(d)
  {
    InitInv(d.s);
    assert forall l :: 0 <= l < NUM_LEVELS ==> d.s.files[l] == {};
    NothingStored(d.s.files);
    assert Settled(d.s) == {} == FileContents(d.s.files);
  }

  lemma {:induction false} RunKeepsFull(disks: seq<Disk>)
    requires Run(disks)
    ensures Full(disks[|disks| - 1])
    decreases |disks|
  {
    var n := |disks| - 1;
    if n == 0 {
      InitFull(disks[0]);
    } else {
      var prefix := disks[..n];
      RunPrefix(disks);
      RunKeepsFull(prefix);
      assert prefix[|prefix| - 1] == disks[n - 1];
      RunStepKeepsFull(disks[n - 1], disks[n]);
    }
  }

  lemma {:induction false} RunStepKeepsFull(d: Disk, d': Disk)
    requires Full(d) && Step(d, d')
    ensures Full(d')
  {
    if a :| Enabled(d.s, a) && d' == Next(d, a) {
      StepKeepsFull(d, a);
    } else {
      var r :| MayRecover(d, r) && LogReplay.InAgeOrder(PartSets(r.parts)) && d' == Recovered(d, r);
      RecoverySafeIff(d, r);
    }
  }

  // ----- what such a run was asked to do, told from its events alone

  datatype Event = Do(a: Action) | Crash(r: Replay)

  ghost predicate StepBy(d: Disk, e: Event, d': Disk) {
    && |d.s.files| == NUM_LEVELS
    && (forall j :: j in d.s.jobs ==> j.rules.level + 1 < NUM_LEVELS)
    && match e
       case Do(a) => Enabled(d.s, a) && d' == Next(d, a)
       case Crash(r) => MayRecover(d, r) && LogReplay.InAgeOrder(PartSets(r.parts)) && d' == Recovered(d, r)
  }

  ghost predicate EventAt(disks: seq<Disk>, events: seq<Event>, i: int) {
    0 <= i < |events| && i + 1 < |disks| ==> StepBy(disks[i], events[i], disks[i + 1])
  }

  ghost predicate RunBy(disks: seq<Disk>, events: seq<Event>) {
    && |disks| == |events| + 1
    && Init(disks[0].s)
    && disks[0].recorded == disks[0].s.lastSequence
    && forall i :: EventAt(disks, events, i)
  }

  lemma {:induction false} RunOf(disks: seq<Disk>, events: seq<Event>)
    requires RunBy(disks, events)
    ensures Run(disks)
  {
    forall i
      ensures StepAt(disks, i)
    {
      assert EventAt(disks, events, i);
      assert 0 <= i < |events| && events[i].Do? ==> Enabled(disks[i].s, events[i].a);
    }
  }

  /** "kept" is every entry written and not lost.  "young" are those of them that were
      written since the last memtable switch and "full" those of the memtable that was
      switched and not flushed yet: only these are in the logs alone.  "recorded" is the
      last sequence when a version was last recorded. */
  datatype Told = Told(kept: set<Entry>, young: set<Entry>, full: set<Entry>, last: nat, recorded: nat, snapshots: multiset<nat>)

  /** A crash loses what is in the logs alone and no log gives back. */
  ghost function Tell(h: Told, e: Event): Told {
    match e
    case Do(a) =>
      (match a
       case Write(batch, last) => h.(kept := h.kept + batch, young := h.young + batch, last := last)
       case SwitchMemTable => h.(young := {}, full := h.young)
       case Flush(_, _) => h.(full := {}, recorded := h.last)
       case InstallCompaction(_, _, _) => h.(recorded := h.last)
       case TrivialMove(_, _) => h.(recorded := h.last)
       case TakeSnapshot => h.(snapshots := h.snapshots + multiset{h.last})
       case ReleaseSnapshot(q) => h.(snapshots := h.snapshots - multiset{q})
       case _ => h)
    case Crash(r) =>
      Told(h.kept - (h.young + h.full - Back(r)), {}, {}, r.last, r.last, multiset{})
  }

  ghost function History(base: nat, events: seq<Event>): Told {
    if events == [] then Told({}, {}, {}, base, base, multiset{})
    else Tell(History(base, events[..|events| - 1]), events[|events| - 1])
  }

  ghost predicate LiveIn(h: Told, n: nat) {
    n >= h.last || exists q :: q in h.snapshots && q <= n
  }

  ghost predicate Agrees(d: Disk, h: Told) {
    && d.s.written == h.kept && d.s.mem == h.young && ImmEntries(d.s.imm) == h.full
    && d.s.lastSequence == h.last && d.recorded == h.recorded && d.s.snapshots == h.snapshots
  }

  lemma {:induction false} EventAgrees(d: Disk, e: Event, d': Disk, h: Told)
    requires Full(d) && StepBy(d, e, d') && Agrees(d, h)
    ensures Agrees(d', Tell(h, e))
  {
    if e.Crash? {
      assert Back(e.r) <= d.s.mem + ImmEntries(d.s.imm) <= d.s.written;
      assert Settled(d.s) + Back(e.r) == d.s.written - (d.s.mem + ImmEntries(d.s.imm) - Back(e.r));
    } else {
      ActionAgrees(d, e.a, h);
    }
  }

  lemma {:induction false} ActionAgrees(d: Disk, a: Action, h: Told)
    requires |d.s.files| == NUM_LEVELS && Enabled(d.s, a) && Agrees(d, h)
    requires forall j :: j in d.s.jobs ==> j.rules.level + 1 < NUM_LEVELS
    ensures Agrees(Next(d, a), Tell(h, Do(a)))
  {
  }

  lemma {:induction false} RunFront(disks: seq<Disk>, events: seq<Event>)
    requires RunBy(disks, events) && events != []
    ensures RunBy(disks[..|events|], events[..|events| - 1])
    ensures StepBy(disks[|events| - 1], events[|events| - 1], disks[|events|])
  {
    var n := |events| - 1;
    var before, front := disks[..n + 1], events[..n];
    forall i
      ensures EventAt(before, front, i)
    {
      assert EventAt(disks, events, i);
    }
    assert EventAt(disks, events, n);
  }

  /** The last state of every run agrees with the history of its events. */
  lemma {:induction false} HistoryOfRun(disks: seq<Disk>, events: seq<Event>)
    requires RunBy(disks, events)
    ensures Agrees(disks[|events|], History(disks[0].s.lastSequence, events))
    decreases |events|
  {
    if events != [] {
      var n := |events| - 1;
      var before := disks[..n + 1];
      RunFront(disks, events);
      HistoryOfRun(before, events[..n]);
      assert before[n] == disks[n] && before[0] == disks[0];
      RunOf(before, events[..n]);
      RunKeepsFull(before);
      EventAgrees(disks[n], events[n], disks[n + 1], History(disks[0].s.lastSequence, events[..n]));
    }
  }

  /** DBImpl::Get after any number of crashes: what the batches of the run's writes say,
      less what no log gave back. */
  method Get(mem: seq<Entry>, hasImm: bool, imm: seq<Entry>, current: Version,
             k: UserKey, snapshot: nat, ghost run: seq<Disk>, ghost events: seq<Event>)
    returns (result: ReadResult)
    requires RunBy(run, events) && LiveIn(History(run[0].s.lastSequence, events), snapshot)
    requires var s := run[|events|].s;
             && Sorted(mem) && Elements(mem) == s.mem
             && (hasImm <==> s.imm.Imm?)
             && Sorted(imm) && Elements(imm) == ImmEntries(s.imm)
             && Lists(current, s.files)
    ensures result == Read(History(run[0].s.lastSequence, events).kept, k, snapshot)
  {
    RunOf(run, events);
    RunKeepsFull(run);
    HistoryOfRun(run, events);
    result := StoreReads.GetIn(mem, hasImm, imm, current, k, snapshot, run[|events|].s);
  }

  /** If the logs gave everything back, the newest reads are what they were. */
  lemma {:induction false} CompleteLogRestoresReads(d: Disk, r: Replay, k: UserKey, n: nat)
    requires Full(d) && MayRecover(d, r)
    requires Back(r) == d.s.mem + ImmEntries(d.s.imm)
    requires n >= d.s.lastSequence
    ensures Read(Contents(Recovered(d, r).s), k, n) == Read(d.s.written, k, n)
    ensures Recovered(d, r).s.written == d.s.written
  {
    BackIsNewer(d, r);
    RecoveredHistory(d, r);
    assert Settled(d.s) + Back(r) == d.s.written;
    BatchReads(d.s, d.recorded, FileContents(d.s.files), Settled(d.s), Back(r));
    assert Contents(Recovered(d, r).s) == FileContents(d.s.files) + Back(r);
  }
}
