/** The storage engine as a state machine.

    Writers fill the memtable; a full memtable becomes immutable and is flushed;
    compactions run in the background, each between taking and releasing the
    locks of two levels, while flushes, other compactions and trivial moves go
    on; snapshots come and go.  The invariant says that in every reachable state
    each read at a live snapshot shows what was written. */
module Store {
  import opened Entries
  import opened Levels
  import opened Lookups
  import opened Compactions
  import opened Placement

  datatype Imm = NoImm | Imm(entries: set<Entry>)

  /** A running compaction: inputs_[0], inputs_[1] and what its loop decides with. */
  datatype Job = Job(upper: set<Table>, lower: set<Table>, rules: Rules)

  type Files = seq<set<Table>>

  /** "written" is history: every entry ever written.  It is not part of the
      engine, only what reads are measured against. */
  datatype State = State(
    mem: set<Entry>,
    imm: Imm,
    files: Files,
    nextFile: nat,
    lastSequence: nat,
    snapshots: multiset<nat>,
    jobs: set<Job>,
    written: set<Entry>)

  // ----- views of a state

  ghost predicate Stored(tables: set<Table>, e: Entry) {
    exists t :: t in tables && e in t.rows
  }

  ghost predicate StoredAt(files: Files, l: int, e: Entry) {
    0 <= l < |files| && Stored(files[l], e)
  }

  ghost function Rows(tables: set<Table>): set<Entry> {
    set t, e | t in tables && e in t.rows :: e
  }

  ghost function FileContents(files: Files): set<Entry> {
    set l, e | 0 <= l < |files| && e in Rows(files[l]) :: e
  }

  function ImmEntries(imm: Imm): set<Entry> {
    match imm case NoImm => {} case Imm(es) => es
  }

  ghost function Contents(s: State): set<Entry> {
    s.mem + ImmEntries(s.imm) + FileContents(s.files)
  }

  function JobLevels(j: Job): set<nat> {
    {j.rules.level, j.rules.level + 1}
  }

  function Locked(jobs: set<Job>): set<nat> {
    set j, l | j in jobs && l in JobLevels(j) :: l
  }

  /** A snapshot a reader may still hold, or the newest state, is at or below n. */
  ghost predicate Live(s: State, n: nat) {
    n >= s.lastSequence || exists q :: q in s.snapshots && q <= n
  }

  /** The vector form of a level set: what a Version object lists. */
  ghost predicate Lists(v: Version, files: Files) {
    && ValidVersion(v)
    && |files| == NUM_LEVELS
    && (forall l :: 0 <= l < NUM_LEVELS ==> files[l] == set t | t in v[l])
    && (forall l, i, j :: 0 <= l < NUM_LEVELS && 0 <= i < j < |v[l]| ==> v[l][i] != v[l][j])
  }

  // ----- steps

  /** smallest_snapshot: the oldest live snapshot, or the last sequence. */
  ghost predicate OldestSnapshot(s: State, n: nat) {
    if s.snapshots == multiset{} then n == s.lastSequence
    else n in s.snapshots && forall q :: q in s.snapshots ==> n <= q
  }

  ghost predicate Hull(tables: set<Table>, lo: UserKey, hi: UserKey) {
    && (exists t :: t in tables && t.Lo() == lo)
    && (exists t :: t in tables && t.Hi() == hi)
    && (forall t :: t in tables ==> lo <= t.Lo() && t.Hi() <= hi)
  }

  /** What PickCompaction and SetupOtherInputs hand to DoCompactionWork: some
      tables of a level (at level 0 the oldest ones) and exactly the tables of
      the next level that overlap their range. */
  ghost predicate Picked(files: Files, level: nat, upper: set<Table>, lower: set<Table>) {
    && level + 1 < NUM_LEVELS == |files|
    && upper <= files[level]
    && (level == 0 ==> forall t, u :: t in files[0] - upper && u in upper ==> t.number > u.number)
    && exists lo, hi ::
         && Hull(upper, lo, hi)
         && lower == set t | t in files[level + 1] && Overlaps(t, lo, hi)
  }

  datatype Action =
    | Write(batch: set<Entry>, last: nat)
    | SwitchMemTable
    | Flush(v: Version, rows: seq<Entry>)
    | BeginCompaction(v: Version, job: Job)
    | InstallCompaction(job: Job, input: seq<Entry>, outputs: seq<seq<Entry>>)
    | AbandonCompaction(job: Job)
    | TrivialMove(level: nat, tables: set<Table>)
    | TakeSnapshot
    | ReleaseSnapshot(snapshot: nat)

  ghost predicate Init(s: State) {
    && s.mem == {} && s.imm == NoImm && s.written == {}
    && s.files == [{}, {}, {}, {}, {}, {}, {}]
    && s.jobs == {} && s.snapshots == multiset{}
    && s.lastSequence < MAX_SEQUENCE
  }

  /** The outputs are what the loop of the job leaves of its inputs, split anywhere. */
  ghost predicate Finished(s: State, j: Job, input: seq<Entry>, outputs: seq<seq<Entry>>) {
    && j in s.jobs
    && |j.rules.version| == NUM_LEVELS
    && Sorted(input)
    && Elements(input) == Rows(j.upper + j.lower)
    && SplitOf(outputs, Kept(j.rules, input, |input|))
  }

  ghost predicate Enabled(s: State, a: Action) {
    match a
    case Write(batch, last) =>
      && s.lastSequence <= last < MAX_SEQUENCE
      && UniqueTags(batch)
      && forall e :: e in batch ==> s.lastSequence < e.seqno <= last
    case SwitchMemTable =>
      s.imm.NoImm?
    case Flush(v, rows) =>
      && s.imm.Imm?
      && Lists(v, s.files)
      && Sorted(rows)
      && Elements(rows) == s.imm.entries
    case BeginCompaction(v, j) =>
      && Lists(v, s.files)
      && j.rules.version == v
      && Picked(s.files, j.rules.level, j.upper, j.lower)
      && OldestSnapshot(s, j.rules.smallestSnapshot)
      && JobLevels(j) !! Locked(s.jobs)
    case InstallCompaction(j, input, outputs) =>
      Finished(s, j, input, outputs) && KeyAligned(outputs)
    case AbandonCompaction(j) =>
      j in s.jobs
    case TrivialMove(level, tables) =>
      && 1 <= level && level + 1 < NUM_LEVELS == |s.files|
      && tables <= s.files[level]
      && {level, level + 1} !! Locked(s.jobs)
      && forall t, u :: t in tables && u in s.files[level + 1] ==> !Overlaps(u, t.Lo(), t.Hi())
    case TakeSnapshot => true
    case ReleaseSnapshot(n) => n in s.snapshots
  }

  ghost function AddFlushed(files: Files, jobs: set<Job>, v: Version, t: Table): Files
    requires |v| == NUM_LEVELS == |files|
  {
    var level := Unlocked(QuietLevel(v, t.Lo(), t.Hi()), Locked(jobs));
    files[level := files[level] + {t}]
  }

  ghost function OutputTables(first: nat, outputs: seq<seq<Entry>>): set<Table>
    requires forall i :: 0 <= i < |outputs| ==> outputs[i] != []
  {
    set i | 0 <= i < |outputs| :: Table(first + i, outputs[i])
  }

  ghost function Replace(files: Files, level: nat, upper: set<Table>, lower: set<Table>, outs: set<Table>): Files
    requires level + 1 < |files|
  {
    files[level := files[level] - upper][level + 1 := files[level + 1] - lower + outs]
  }

  ghost function Installed(s: State, j: Job, outputs: seq<seq<Entry>>): State
    requires j.rules.level + 1 < |s.files|
    requires forall i :: 0 <= i < |outputs| ==> outputs[i] != []
  {
    s.(jobs := s.jobs - {j},
       nextFile := s.nextFile + |outputs|,
       files := Replace(s.files, j.rules.level, j.upper, j.lower, OutputTables(s.nextFile, outputs)))
  }

  ghost function Apply(s: State, a: Action): State
    requires |s.files| == NUM_LEVELS
    requires Enabled(s, a)
    requires forall j :: j in s.jobs ==> j.rules.level + 1 < NUM_LEVELS
  {
    match a
    case Write(batch, last) =>
      s.(mem := s.mem + batch, written := s.written + batch, lastSequence := last)
    case SwitchMemTable =>
      s.(imm := Imm(s.mem), mem := {})
    case Flush(v, rows) =>
      if rows == [] then s.(imm := NoImm)
      else s.(imm := NoImm,
              nextFile := s.nextFile + 1,
              files := AddFlushed(s.files, s.jobs, v, Table(s.nextFile, rows)))
    case BeginCompaction(v, j) =>
      s.(jobs := s.jobs + {j})
    case InstallCompaction(j, input, outputs) =>
      Installed(s, j, outputs)
    case AbandonCompaction(j) =>
      s.(jobs := s.jobs - {j})
    case TrivialMove(level, tables) =>
      s.(files := Replace(s.files, level, tables, {}, tables))
    case TakeSnapshot =>
      s.(snapshots := s.snapshots + multiset{s.lastSequence})
    case ReleaseSnapshot(n) =>
      s.(snapshots := s.snapshots - multiset{n})
  }
}
