/** What every step of the storage engine keeps. */
module StoreInvariant {
  import opened Entries
  import opened Levels
  import opened Lookups
  import opened Compactions
  import opened Placement
  import opened Store

  predicate Apart(t: Table, u: Table) {
    t.Hi() < u.Lo() || u.Hi() < t.Lo()
  }

  /** Tables are sorted; below level 0 no two tables of a level share a key
      range; level-0 tables have different numbers. */
  ghost predicate Shaped(files: Files, nextFile: nat) {
    && |files| == NUM_LEVELS
    && (forall l, t :: 0 <= l < NUM_LEVELS && t in files[l] ==> Sorted(t.rows) && t.number < nextFile)
    && (forall l, t, u :: 1 <= l < NUM_LEVELS && t in files[l] && u in files[l] && t != u ==> Apart(t, u))
    && (forall t, u :: t in files[0] && u in files[0] && t != u ==> t.number != u.number)
  }

  /** For one user key, lower levels are newer. */
  ghost predicate Aged(files: Files) {
    forall l, m, e, f :: l < m && StoredAt(files, l, e) && StoredAt(files, m, f) && e.key == f.key
      ==> e.seqno > f.seqno
  }

  /** For one user key, level-0 tables with larger numbers are newer. */
  ghost predicate AgedByNumber(tables: set<Table>) {
    forall t, u :: t in tables && u in tables && t.number > u.number ==> NewerRows(t, u)
  }

  ghost predicate NewerRows(t: Table, u: Table) {
    forall e, f :: e in t.rows && f in u.rows && e.key == f.key ==> e.seqno > f.seqno
  }

  /** Everything in "es" is newer than everything in "fs". */
  ghost predicate AllNewer(es: set<Entry>, fs: set<Entry>) {
    forall e, f :: e in es && f in fs ==> e.seqno > f.seqno
  }

  ghost predicate MemoryNewest(s: State) {
    && AllNewer(s.mem, ImmEntries(s.imm))
    && AllNewer(s.mem, FileContents(s.files))
    && AllNewer(ImmEntries(s.imm), FileContents(s.files))
  }

  ghost predicate HistoryOk(s: State) {
    && Contents(s) <= s.written
    && UniqueTags(s.written)
    && (forall e :: e in s.written ==> e.seqno <= s.lastSequence)
    && s.lastSequence < MAX_SEQUENCE
    && (forall q :: q in s.snapshots ==> q <= s.lastSequence)
  }

  /** "t" lies wholly on one side of all the inputs. */
  ghost predicate Outside(t: Table, inputs: set<Table>) {
    || (forall u :: u in inputs ==> t.Hi() < u.Lo())
    || (forall u :: u in inputs ==> u.Hi() < t.Lo())
  }

  /** The inputs of a running compaction are still there, nothing that stays can
      come between them, and the keys its loop treats as base-level have not
      appeared below. */
  ghost predicate JobOk(files: Files, j: Job)
    requires |files| == NUM_LEVELS
  {
    var level := j.rules.level;
    && level + 1 < NUM_LEVELS == |j.rules.version|
    && j.upper <= files[level]
    && j.lower <= files[level + 1]
    && (forall t :: t in files[level + 1] - j.lower ==> Outside(t, j.upper + j.lower))
    && (level == 0 ==> forall t, u :: t in files[0] - j.upper && u in j.upper ==> t.number > u.number)
    && (forall l, e, f :: level + 2 <= l && StoredAt(files, l, f) && Stored(j.upper + j.lower, e) && e.key == f.key
          ==> !IsBaseLevel(j.rules.version, level, e.key))
  }

  ghost predicate JobsOk(s: State)
    requires |s.files| == NUM_LEVELS
  {
    && (forall j :: j in s.jobs ==> JobOk(s.files, j))
    && (forall j, i :: j in s.jobs && i in s.jobs && i != j ==> JobLevels(i) !! JobLevels(j))
    && (forall j :: j in s.jobs ==> j.rules.smallestSnapshot <= s.lastSequence)
    && (forall j, q :: j in s.jobs && q in s.snapshots ==> j.rules.smallestSnapshot <= q)
  }

  /** Every live snapshot shows exactly what was written. */
  ghost predicate ReadsOk(s: State) {
    forall k, n :: Live(s, n) ==> Read(Contents(s), k, n) == Read(s.written, k, n)
  }

  ghost predicate Inv(s: State) {
    && Shaped(s.files, s.nextFile)
    && Aged(s.files)
    && AgedByNumber(s.files[0])
    && MemoryNewest(s)
    && HistoryOk(s)
    && JobsOk(s)
    && ReadsOk(s)
  }

  lemma {:induction false} InitInv(s: State)
    requires Init(s)
    ensures Inv(s)
  {
    assert forall l :: 0 <= l < NUM_LEVELS ==> s.files[l] == {};
    NothingStored(s.files);
    assert Contents(s) == s.written;
  }

  lemma {:induction false} NothingStored(files: Files)
    requires forall l :: 0 <= l < |files| ==> files[l] == {}
    ensures forall l, e :: !StoredAt(files, l, e)
    ensures FileContents(files) == {}
  {
  }

  // ----- snapshots, writing and switching memtables

  lemma {:induction false} SnapshotStep(s: State, a: Action)
    requires Inv(s) && Enabled(s, a)
    requires a.TakeSnapshot? || a.ReleaseSnapshot? || a.AbandonCompaction?
    ensures Inv(Apply(s, a))
  {
    var s' := Apply(s, a);
    assert Contents(s') == Contents(s);
    assert JobsOk(s');
    assert forall n: nat :: Live(s', n) ==> Live(s, n);
  }

  lemma {:induction false} WriteStep(s: State, a: Action)
    requires Inv(s) && Enabled(s, a) && a.Write?
    ensures Inv(Apply(s, a))
  {
    var s' := Apply(s, a);
    var b := a.batch;
    assert Contents(s') == Contents(s) + b;
    forall k, n | Live(s', n)
      ensures Read(Contents(s'), k, n) == Read(s'.written, k, n)
    {
      assert Live(s, n);
      ReadWithBatch(Contents(s), b, k, n);
      ReadWithBatch(s.written, b, k, n);
    }
  }

  /** A newer batch decides a read if it has the key, and otherwise changes nothing. */
  lemma {:induction false} ReadWithBatch(es: set<Entry>, batch: set<Entry>, k: UserKey, n: nat)
    requires UniqueTags(es) && UniqueTags(batch) && AllNewer(batch, es)
    ensures Read(es + batch, k, n) == if HasVisible(batch, k, n) then Read(batch, k, n) else Read(es, k, n)
  {
    if HasVisible(batch, k, n) {
      NewestExists(batch, k, n);
      var e :| IsNewest(batch, k, n, e);
      assert IsNewest(es + batch, k, n, e);
      ReadNewest(batch, k, n, e);
      ReadNewest(es + batch, k, n, e);
    } else {
      ReadSubset(es, es + batch, k, n);
    }
  }

  lemma {:induction false} SwitchStep(s: State, a: Action)
    requires Inv(s) && Enabled(s, a) && a.SwitchMemTable?
    ensures Inv(Apply(s, a))
  {
    var s' := Apply(s, a);
    assert Contents(s') == Contents(s);
  }

  // ----- flushing the immutable memtable

  /** Where the flush puts its table: no level down to there overlaps it. */
  lemma {:induction false} FlushLevelIsQuiet(s: State, v: Version, t: Table, level: nat)
    requires Lists(v, s.files)
    requires level == Unlocked(QuietLevel(v, t.Lo(), t.Hi()), Locked(s.jobs))
    ensures level < NUM_LEVELS
    ensures level > 0 ==> level !in Locked(s.jobs)
    ensures forall l, u :: level > 0 && 0 <= l <= level && u in s.files[l] ==> !Overlaps(u, t.Lo(), t.Hi())
  {
  }

  /** Tables whose ranges do not overlap share no key. */
  lemma {:induction false} NoSharedKey(t: Table, u: Table, e: Entry, f: Entry)
    requires Sorted(t.rows) && Sorted(u.rows)
    requires e in t.rows && f in u.rows
    requires Apart(t, u)
    ensures e.key != f.key
  {
    RowsInRange(t, e);
    RowsInRange(u, f);
  }

  lemma {:induction false} StoredAfterAdd(files: Files, level: nat, t: Table, l: int, e: Entry)
    requires level < |files|
    ensures StoredAt(files[level := files[level] + {t}], l, e) <==> StoredAt(files, l, e) || (l == level && e in t.rows)
  {
  }

  lemma {:induction false} FlushAged(s: State, t: Table, level: nat)
    requires Shaped(s.files, s.nextFile) && Aged(s.files)
    requires level < NUM_LEVELS
    requires Sorted(t.rows)
    requires AllNewer(t.Contents(), FileContents(s.files))
    requires forall l, u :: level > 0 && 0 <= l <= level && u in s.files[l] ==> !Overlaps(u, t.Lo(), t.Hi())
    ensures Aged(s.files[level := s.files[level] + {t}])
  {
    var files' := s.files[level := s.files[level] + {t}];
    forall l, m, e, f | l < m && StoredAt(files', l, e) && StoredAt(files', m, f) && e.key == f.key
      ensures e.seqno > f.seqno
    {
      StoredAfterAdd(s.files, level, t, l, e);
      StoredAfterAdd(s.files, level, t, m, f);
      if !StoredAt(s.files, l, e) {
        StoredInContents(s.files, f);
        assert e in t.Contents();
      } else if !StoredAt(s.files, m, f) {
        var u :| u in s.files[l] && e in u.rows;
        assert !Overlaps(u, t.Lo(), t.Hi());
        NoSharedKey(u, t, e, f);
      }
    }
  }

  lemma {:induction false} FlushJobs(s: State, t: Table, level: nat)
    requires Shaped(s.files, s.nextFile) && JobsOk(s)
    requires t.number == s.nextFile
    requires level < NUM_LEVELS
    requires Sorted(t.rows)
    requires level > 0 ==> level !in Locked(s.jobs)
    requires forall l, u :: level > 0 && 0 <= l <= level && u in s.files[l] ==> !Overlaps(u, t.Lo(), t.Hi())
    ensures forall j :: j in s.jobs ==> JobOk(s.files[level := s.files[level] + {t}], j)
  {
    forall j | j in s.jobs
      ensures JobOk(s.files[level := s.files[level] + {t}], j)
    {
      assert j.rules.level in JobLevels(j) && j.rules.level + 1 in JobLevels(j);
      assert j.rules.level in Locked(s.jobs) && j.rules.level + 1 in Locked(s.jobs);
      FlushJob(s.files, s.nextFile, t, level, j);
    }
  }

  lemma {:induction false} FlushJob(files: Files, nextFile: nat, t: Table, level: nat, j: Job)
    requires Shaped(files, nextFile) && JobOk(files, j)
    requires t.number == nextFile
    requires level < NUM_LEVELS
    requires Sorted(t.rows)
    requires level > 0 ==> level != j.rules.level && level != j.rules.level + 1
    requires forall l, u :: level > 0 && 0 <= l <= level && u in files[l] ==> !Overlaps(u, t.Lo(), t.Hi())
    ensures JobOk(files[level := files[level] + {t}], j)
  {
    var files' := files[level := files[level] + {t}];
    var at := j.rules.level;
    forall l, e, f | at + 2 <= l && StoredAt(files', l, f) && Stored(j.upper + j.lower, e) && e.key == f.key
      ensures !IsBaseLevel(j.rules.version, at, e.key)
    {
      StoredAfterAdd(files, level, t, l, f);
      if !StoredAt(files, l, f) {
        var u :| u in j.upper + j.lower && e in u.rows;
        assert u in files[at] || u in files[at + 1];
        assert !Overlaps(u, t.Lo(), t.Hi());
        NoSharedKey(u, t, e, f);
      }
    }
  }

  lemma {:induction false} FlushStep(s: State, a: Action)
    requires Inv(s) && Enabled(s, a) && a.Flush?
    ensures Inv(Apply(s, a))
  {
    var s' := Apply(s, a);
    if a.rows == [] {
      assert s.imm.entries == {};
      assert Contents(s') == Contents(s);
    } else {
      var t := Table(s.nextFile, a.rows);
      var level := Unlocked(QuietLevel(a.v, t.Lo(), t.Hi()), Locked(s.jobs));
      FlushLevelIsQuiet(s, a.v, t, level);
      InstallFlushed(s, s', t, level);
    }
  }

  lemma {:induction false} InstallFlushed(s: State, s': State, t: Table, level: nat)
    requires Inv(s)
    requires Sorted(t.rows) && t.number == s.nextFile
    requires s.imm == Imm(t.Contents())
    requires level < NUM_LEVELS
    requires level > 0 ==> level !in Locked(s.jobs)
    requires forall l, u :: level > 0 && 0 <= l <= level && u in s.files[l] ==> !Overlaps(u, t.Lo(), t.Hi())
    requires s' == s.(imm := NoImm, nextFile := s.nextFile + 1, files := s.files[level := s.files[level] + {t}])
    ensures Inv(s')
  {
    InstallFlushedFiles(s, t, level);
    FlushJobs(s, t, level);
    assert JobsOk(s');
    FlushContents(s.files, t, level);
    SameContentsKeepsReads(s, s');
  }

  lemma {:induction false} InstallFlushedFiles(s: State, t: Table, level: nat)
    requires Shaped(s.files, s.nextFile) && Aged(s.files) && AgedByNumber(s.files[0])
    requires AllNewer(t.Contents(), FileContents(s.files))
    requires Sorted(t.rows) && t.number == s.nextFile && level < NUM_LEVELS
    requires forall l, u :: level > 0 && 0 <= l <= level && u in s.files[l] ==> !Overlaps(u, t.Lo(), t.Hi())
    ensures var files' := s.files[level := s.files[level] + {t}];
      Shaped(files', s.nextFile + 1) && Aged(files') && AgedByNumber(files'[0])
  {
    FlushAged(s, t, level);
    FlushShaped(s, t, level);
    FlushAgedByNumber(s, t);
  }

  lemma {:induction false} SameContentsKeepsReads(s: State, s': State)
    requires MemoryNewest(s) && HistoryOk(s) && ReadsOk(s)
    requires s.imm.Imm? && s' == s.(imm := NoImm, nextFile := s'.nextFile, files := s'.files)
    requires FileContents(s'.files) == FileContents(s.files) + s.imm.entries
    ensures MemoryNewest(s') && HistoryOk(s') && ReadsOk(s')
  {
    assert Contents(s') == Contents(s);
    assert forall n :: Live(s', n) <==> Live(s, n);
  }

  lemma {:induction false} FlushContents(files: Files, t: Table, level: nat)
    requires level < |files|
    ensures FileContents(files[level := files[level] + {t}]) == FileContents(files) + t.Contents()
  {
    var files' := files[level := files[level] + {t}];
    forall e
      ensures e in FileContents(files') <==> e in FileContents(files) + t.Contents()
    {
      StoredInContents(files, e);
      StoredInContents(files', e);
      StoredAfterAdd(files, level, t, level, e);
      if l: int :| StoredAt(files, l, e) {
        StoredAfterAdd(files, level, t, l, e);
      }
      if l: int :| StoredAt(files', l, e) {
        StoredAfterAdd(files, level, t, l, e);
      }
    }
  }

  lemma {:induction false} StoredInContents(files: Files, e: Entry)
    ensures e in FileContents(files) <==> exists l: int :: StoredAt(files, l, e)
  {
    if l :| StoredAt(files, l, e) {
      assert e in Rows(files[l]);
    }
    if e in FileContents(files) {
      var l :| 0 <= l < |files| && e in Rows(files[l]);
      assert StoredAt(files, l, e);
    }
  }

  lemma {:induction false} FlushShaped(s: State, t: Table, level: nat)
    requires Shaped(s.files, s.nextFile)
    requires level < NUM_LEVELS
    requires Sorted(t.rows) && t.number == s.nextFile
    requires forall l, u :: level > 0 && 0 <= l <= level && u in s.files[l] ==> !Overlaps(u, t.Lo(), t.Hi())
    ensures Shaped(s.files[level := s.files[level] + {t}], s.nextFile + 1)
  {
    var files' := s.files[level := s.files[level] + {t}];
    forall l, x, y | 1 <= l < NUM_LEVELS && x in files'[l] && y in files'[l] && x != y
      ensures Apart(x, y)
    {
      assert x != t && l == level ==> !Overlaps(x, t.Lo(), t.Hi());
      assert y != t && l == level ==> !Overlaps(y, t.Lo(), t.Hi());
    }
  }

  lemma {:induction false} FlushAgedByNumber(s: State, t: Table)
    requires Shaped(s.files, s.nextFile) && AgedByNumber(s.files[0])
    requires t.number == s.nextFile
    requires AllNewer(t.Contents(), FileContents(s.files))
    ensures AgedByNumber(s.files[0] + {t})
  {
    forall x: Table, y: Table, e, f |
      x in s.files[0] + {t} && y in s.files[0] + {t} && x.number > y.number && e in x.rows && f in y.rows && e.key == f.key
      ensures e.seqno > f.seqno
    {
      if x == t {
        assert e in t.Contents();
        assert StoredAt(s.files, 0, f);
        StoredInContents(s.files, f);
      }
    }
  }

  // ----- replacing tables of two adjacent levels by tables of the lower one

  /** What a merge compaction and a trivial move have in common: "outs" go to
      level + 1, hold only rows of the tables they replace, and meet nothing
      that stays there. */
  ghost predicate Replaceable(files: Files, level: nat, upper: set<Table>, lower: set<Table>, outs: set<Table>) {
    && level + 1 < NUM_LEVELS == |files|
    && upper <= files[level]
    && lower <= files[level + 1]
    && (level == 0 ==> forall t, u :: t in files[0] - upper && u in upper ==> t.number > u.number)
    && (forall o :: o in outs ==> Sorted(o.rows))
    && (forall o, p :: o in outs && p in outs && o != p ==> Apart(o, p))
    && (forall o, t :: o in outs && t in files[level + 1] - lower ==> Apart(o, t))
    && (forall e :: Stored(outs, e) ==> Stored(upper, e) || Stored(lower, e))
  }

  lemma {:induction false} StoredMono(small: set<Table>, big: set<Table>, e: Entry)
    requires small <= big && Stored(small, e)
    ensures Stored(big, e)
  {
  }

  /** Where a row found after the replacement was before. */
  lemma {:induction false} StoredAfterReplace(files: Files, level: nat, upper: set<Table>, lower: set<Table>, outs: set<Table>, l: int, e: Entry)
    requires Replaceable(files, level, upper, lower, outs)
    requires StoredAt(Replace(files, level, upper, lower, outs), l, e)
    ensures StoredAt(files, l, e) || (l == level + 1 && Stored(upper, e))
    ensures l == level ==> Stored(files[level] - upper, e)
  {
  }

  lemma {:induction false} ReplaceAged(files: Files, nextFile: nat, level: nat, upper: set<Table>, lower: set<Table>, outs: set<Table>)
    requires Shaped(files, nextFile) && Aged(files) && AgedByNumber(files[0])
    requires Replaceable(files, level, upper, lower, outs)
    ensures Aged(Replace(files, level, upper, lower, outs))
  {
    var files' := Replace(files, level, upper, lower, outs);
    forall l, m, e, f | l < m && StoredAt(files', l, e) && StoredAt(files', m, f) && e.key == f.key
      ensures e.seqno > f.seqno
    {
      StoredAfterReplace(files, level, upper, lower, outs, l, e);
      StoredAfterReplace(files, level, upper, lower, outs, m, f);
      WasNewer(files, nextFile, level, upper, l, m, e, f);
    }
  }

  lemma {:induction false} WasNewer(files: Files, nextFile: nat, level: nat, upper: set<Table>, l: int, m: int, e: Entry, f: Entry)
    requires Shaped(files, nextFile) && Aged(files) && AgedByNumber(files[0])
    requires level + 1 < NUM_LEVELS && upper <= files[level]
    requires level == 0 ==> forall t, u :: t in files[0] - upper && u in upper ==> t.number > u.number
    requires l < m && e.key == f.key
    requires StoredAt(files, l, e) || (l == level + 1 && Stored(upper, e))
    requires l == level ==> Stored(files[level] - upper, e)
    requires StoredAt(files, m, f) || (m == level + 1 && Stored(upper, f))
    ensures e.seqno > f.seqno
  {
    if !StoredAt(files, l, e) {
      StoredMono(upper, files[level], e);
      assert StoredAt(files, level, e);
    } else if !StoredAt(files, m, f) {
      StoredMono(upper, files[level], f);
      assert StoredAt(files, level, f);
      if l == level {
        SameLevelNewer(files[level], upper, level == 0, e, f);
      }
    }
  }

  /** What stays in the upper level is newer than what leaves it. */
  lemma {:induction false} SameLevelNewer(tables: set<Table>, upper: set<Table>, zero: bool, e: Entry, f: Entry)
    requires upper <= tables
    requires forall t :: t in tables ==> Sorted(t.rows)
    requires if zero then AgedByNumber(tables) else forall t, u :: t in tables && u in tables && t != u ==> Apart(t, u)
    requires zero ==> forall t, u :: t in tables - upper && u in upper ==> t.number > u.number
    requires Stored(tables - upper, e) && Stored(upper, f) && e.key == f.key
    ensures e.seqno > f.seqno
  {
    var t :| t in tables - upper && e in t.rows;
    var u :| u in upper && f in u.rows;
    if !zero {
      NoSharedKey(t, u, e, f);
    }
  }

  lemma {:induction false} ReplaceShaped(files: Files, nextFile: nat, nextFile': nat, level: nat,
                      upper: set<Table>, lower: set<Table>, outs: set<Table>)
    requires Shaped(files, nextFile) && AgedByNumber(files[0])
    requires Replaceable(files, level, upper, lower, outs)
    requires nextFile <= nextFile' && forall o :: o in outs ==> o.number < nextFile'
    ensures Shaped(Replace(files, level, upper, lower, outs), nextFile')
    ensures AgedByNumber(Replace(files, level, upper, lower, outs)[0])
  {
    var files' := Replace(files, level, upper, lower, outs);
    assert files'[0] <= files[0];
    forall l, x, y | 1 <= l < NUM_LEVELS && x in files'[l] && y in files'[l] && x != y
      ensures Apart(x, y)
    {
      if l == level + 1 {
        assert x !in outs ==> x in files[l] - lower;
        assert y !in outs ==> y in files[l] - lower;
        assert x in outs && y !in outs ==> Apart(x, y);
        assert y in outs && x !in outs ==> Apart(y, x);
      } else {
        assert x in files[l] && y in files[l];
      }
    }
  }

  /** A compaction that holds locks on other levels is not disturbed. */
  lemma {:induction false} ReplaceKeepsJob(files: Files, level: nat, upper: set<Table>, lower: set<Table>, outs: set<Table>, j: Job)
    requires Replaceable(files, level, upper, lower, outs)
    requires JobOk(files, j)
    requires JobLevels(j) !! {level, level + 1}
    ensures JobOk(Replace(files, level, upper, lower, outs), j)
  {
    var files' := Replace(files, level, upper, lower, outs);
    var at := j.rules.level;
    assert at in JobLevels(j) && at + 1 in JobLevels(j);
    assert at !in {level, level + 1} && at + 1 !in {level, level + 1};
    assert files'[at] == files[at] && files'[at + 1] == files[at + 1];
    forall l, e, f | at + 2 <= l && StoredAt(files', l, f) && Stored(j.upper + j.lower, e) && e.key == f.key
      ensures !IsBaseLevel(j.rules.version, at, e.key)
    {
      StoredAfterReplace(files, level, upper, lower, outs, l, f);
      if !StoredAt(files, l, f) {
        StoredMono(upper, files[level], f);
        assert StoredAt(files, level, f);
      }
    }
  }

  // ----- trivial moves

  lemma {:induction false} TrivialMoveStep(s: State, a: Action)
    requires Inv(s) && Enabled(s, a) && a.TrivialMove?
    ensures Inv(Apply(s, a))
  {
    MoveTables(s, Apply(s, a), a.level, a.tables);
  }

  lemma {:induction false} MoveTables(s: State, s': State, level: nat, tables: set<Table>)
    requires Inv(s)
    requires 1 <= level && level + 1 < NUM_LEVELS && tables <= s.files[level]
    requires {level, level + 1} !! Locked(s.jobs)
    requires forall t, u :: t in tables && u in s.files[level + 1] ==> !Overlaps(u, t.Lo(), t.Hi())
    requires s' == s.(files := Replace(s.files, level, tables, {}, tables))
    ensures Inv(s')
  {
    MoveReplaceable(s.files, s.nextFile, level, tables);
    ReplaceAged(s.files, s.nextFile, level, tables, {}, tables);
    ReplaceShaped(s.files, s.nextFile, s.nextFile, level, tables, {}, tables);
    OtherJobsKept(s, s', level, tables, {}, tables);
    MoveContents(s.files, level, tables);
    SameContents(s, s');
  }

  lemma {:induction false} SameContents(s: State, s': State)
    requires MemoryNewest(s) && HistoryOk(s) && ReadsOk(s)
    requires s' == s.(files := s'.files)
    requires FileContents(s'.files) == FileContents(s.files)
    ensures MemoryNewest(s') && HistoryOk(s') && ReadsOk(s')
  {
    assert Contents(s') == Contents(s);
    assert forall n :: Live(s', n) <==> Live(s, n);
  }

  lemma {:induction false} MoveReplaceable(files: Files, nextFile: nat, level: nat, tables: set<Table>)
    requires Shaped(files, nextFile)
    requires 1 <= level && level + 1 < NUM_LEVELS && tables <= files[level]
    requires forall t, u :: t in tables && u in files[level + 1] ==> !Overlaps(u, t.Lo(), t.Hi())
    ensures Replaceable(files, level, tables, {}, tables)
  {
    forall o, t | o in tables && t in files[level + 1] - {}
      ensures Apart(o, t)
    {
      assert !Overlaps(t, o.Lo(), o.Hi());
    }
  }

  lemma {:induction false} OtherJobsKept(s: State, s': State, level: nat, upper: set<Table>, lower: set<Table>, outs: set<Table>)
    requires |s.files| == NUM_LEVELS && JobsOk(s)
    requires Replaceable(s.files, level, upper, lower, outs)
    requires s'.files == Replace(s.files, level, upper, lower, outs)
    requires s'.jobs <= s.jobs && s'.snapshots == s.snapshots && s'.lastSequence == s.lastSequence
    requires {level, level + 1} !! Locked(s'.jobs)
    ensures JobsOk(s')
  {
    forall j | j in s'.jobs
      ensures JobOk(s'.files, j)
    {
      forall l | l in JobLevels(j)
        ensures l !in {level, level + 1}
      {
        assert l in Locked(s'.jobs);
      }
      ReplaceKeepsJob(s.files, level, upper, lower, outs, j);
    }
  }

  lemma {:induction false} MoveContents(files: Files, level: nat, tables: set<Table>)
    requires level + 1 < |files| && tables <= files[level]
    ensures FileContents(Replace(files, level, tables, {}, tables)) == FileContents(files)
  {
    var files' := Replace(files, level, tables, {}, tables);
    forall e
      ensures e in FileContents(files') <==> e in FileContents(files)
    {
      StoredInContents(files, e);
      StoredInContents(files', e);
      if l: int :| StoredAt(files, l, e) {
        var t :| t in files[l] && e in t.rows;
        assert if l == level && t in tables then StoredAt(files', level + 1, e) else StoredAt(files', l, e) by {
          assert if l == level && t in tables then t in files'[level + 1] else t in files'[l];
        }
      }
      if l: int :| StoredAt(files', l, e) {
        var t: Table :| t in files'[l] && e in t.rows;
        assert t in files[l] || t in files[level];
        assert StoredAt(files, l, e) || StoredAt(files, level, e);
      }
    }
  }

  // ----- starting a compaction

  /** The tables of the next level that were not picked lie on one side. */
  lemma {:induction false} PickedOutside(files: Files, nextFile: nat, level: nat, upper: set<Table>, lower: set<Table>, t: Table)
    requires Shaped(files, nextFile)
    requires Picked(files, level, upper, lower)
    requires t in files[level + 1] - lower
    ensures Outside(t, upper + lower)
  {
    var lo, hi :| Hull(upper, lo, hi) && lower == set u | u in files[level + 1] && Overlaps(u, lo, hi);
    assert !Overlaps(t, lo, hi);
    LoBelowHi(t);
    forall u | u in lower
      ensures if t.Hi() < lo then t.Hi() < u.Lo() else u.Hi() < t.Lo()
    {
      assert Apart(t, u);
      LoBelowHi(u);
    }
  }

  lemma {:induction false} LoBelowHi(t: Table)
    requires Sorted(t.rows)
    ensures t.Lo() <= t.Hi()
  {
    RowsInRange(t, t.Largest());
  }

  lemma {:induction false} BeginStep(s: State, a: Action)
    requires Inv(s) && Enabled(s, a) && a.BeginCompaction?
    ensures Inv(Apply(s, a))
  {
    var s' := Apply(s, a);
    var j := a.job;
    NewJobOk(s.files, s.nextFile, a.v, j);
    forall i | i in s.jobs
      ensures JobLevels(i) !! JobLevels(j)
    {
      forall l | l in JobLevels(i)
        ensures l !in JobLevels(j)
      {
        assert l in Locked(s.jobs);
      }
    }
    assert JobsOk(s');
    assert Contents(s') == Contents(s);
    assert forall n :: Live(s', n) <==> Live(s, n);
  }

  lemma {:induction false} NewJobOk(files: Files, nextFile: nat, v: Version, j: Job)
    requires Shaped(files, nextFile)
    requires Lists(v, files) && j.rules.version == v
    requires Picked(files, j.rules.level, j.upper, j.lower)
    ensures JobOk(files, j)
  {
    var level := j.rules.level;
    forall t | t in files[level + 1] - j.lower
      ensures Outside(t, j.upper + j.lower)
    {
      PickedOutside(files, nextFile, level, j.upper, j.lower, t);
    }
    forall l, e, f | level + 2 <= l && StoredAt(files, l, f) && Stored(j.upper + j.lower, e) && e.key == f.key
      ensures !IsBaseLevel(v, level, e.key)
    {
      var t :| t in files[l] && f in t.rows;
      RowsInRange(t, f);
      assert t in v[l];
      var i :| 0 <= i < |v[l]| && v[l][i] == t;
      assert InRange(v[l][i], e.key);
    }
  }

  // ----- installing a compaction

  lemma {:induction false} ConcatOrdered(tables: seq<seq<Entry>>, i: nat, j: nat, a: Entry, b: Entry)
    requires Sorted(Concat(tables))
    requires i < j < |tables| && a in tables[i] && b in tables[j]
    ensures Before(a, b)
    decreases |tables|
  {
    var n := |tables| - 1;
    var front := Concat(tables[..n]);
    assert Concat(tables) == front + tables[n];
    if j == n {
      assert tables[..n][i] == tables[i];
      ConcatHas(tables[..n], i, a);
      var x :| 0 <= x < |front| && front[x] == a;
      var y :| 0 <= y < |tables[n]| && tables[n][y] == b;
      assert Concat(tables)[x] == a && Concat(tables)[|front| + y] == b;
    } else {
      PrefixSorted(front, tables[n]);
      assert tables[..n][i] == tables[i] && tables[..n][j] == tables[j];
      ConcatOrdered(tables[..n], i, j, a, b);
    }
  }

  lemma {:induction false} PrefixSorted(a: seq<Entry>, b: seq<Entry>)
    requires Sorted(a + b)
    ensures Sorted(a) && Sorted(b)
  {
    assert forall i :: 0 <= i < |a| ==> a[i] == (a + b)[i];
    assert forall i :: 0 <= i < |b| ==> b[i] == (a + b)[|a| + i];
  }

  lemma {:induction false} ConcatParts(tables: seq<seq<Entry>>, i: nat)
    requires Sorted(Concat(tables))
    requires i < |tables|
    ensures Sorted(tables[i])
    decreases |tables|
  {
    var n := |tables| - 1;
    PrefixSorted(Concat(tables[..n]), tables[n]);
    if i < n {
      assert tables[..n][i] == tables[i];
      ConcatParts(tables[..n], i);
    }
  }

  lemma {:induction false} ConcatFrom(tables: seq<seq<Entry>>, e: Entry)
    requires e in Concat(tables)
    ensures exists i :: 0 <= i < |tables| && e in tables[i]
    decreases |tables|
  {
    var n := |tables| - 1;
    if e in tables[n] {
    } else {
      ConcatFrom(tables[..n], e);
      var i :| 0 <= i < n && e in tables[..n][i];
      assert e in tables[i];
    }
  }

  lemma {:induction false} OutputsApart(first: nat, outputs: seq<seq<Entry>>, kept: seq<Entry>, i: nat, j: nat)
    requires Sorted(kept) && SplitOf(outputs, kept) && KeyAligned(outputs)
    requires i < j < |outputs| && outputs[i] != [] && outputs[j] != []
    ensures Apart(Table(first + i, outputs[i]), Table(first + j, outputs[j]))
  {
    var o: Table, p: Table := Table(first + i, outputs[i]), Table(first + j, outputs[j]);
    assert o.Largest() in o.rows && p.Smallest() in p.rows;
    ConcatOrdered(outputs, i, j, o.Largest(), p.Smallest());
  }

  lemma {:induction false} OutputRows(first: nat, outputs: seq<seq<Entry>>, kept: seq<Entry>, e: Entry)
    requires SplitOf(outputs, kept)
    ensures e in Rows(OutputTables(first, outputs)) <==> e in Elements(kept)
  {
    var outs := OutputTables(first, outputs);
    if e in Rows(outs) {
      var o :| o in outs && e in o.rows;
      var i :| 0 <= i < |outputs| && o == Table(first + i, outputs[i]);
      ConcatHas(outputs, i, e);
    }
    if e in Elements(kept) {
      ConcatFrom(outputs, e);
      var i :| 0 <= i < |outputs| && e in outputs[i];
      assert Table(first + i, outputs[i]) in outs;
    }
  }

  /** The tables DoCompactionWork leaves, cut between user keys. */
  lemma {:induction false} OutputsOk(first: nat, outputs: seq<seq<Entry>>, kept: seq<Entry>)
    requires Sorted(kept) && SplitOf(outputs, kept) && KeyAligned(outputs)
    ensures var outs := OutputTables(first, outputs);
            && (forall o :: o in outs ==> Sorted(o.rows) && o.number < first + |outputs|)
            && (forall o, p :: o in outs && p in outs && o != p ==> Apart(o, p))
            && Rows(outs) == Elements(kept)
  {
    var outs := OutputTables(first, outputs);
    forall o | o in outs
      ensures Sorted(o.rows) && o.number < first + |outputs|
    {
      var i :| 0 <= i < |outputs| && o == Table(first + i, outputs[i]);
      ConcatParts(outputs, i);
    }
    forall o, p | o in outs && p in outs && o != p
      ensures Apart(o, p)
    {
      var i :| 0 <= i < |outputs| && o == Table(first + i, outputs[i]);
      var j :| 0 <= j < |outputs| && p == Table(first + j, outputs[j]);
      if i < j {
        OutputsApart(first, outputs, kept, i, j);
      } else {
        OutputsApart(first, outputs, kept, j, i);
      }
    }
    forall e
      ensures e in Rows(outs) <==> e in Elements(kept)
    {
      OutputRows(first, outputs, kept, e);
    }
  }

  /** Everything outside the inputs of a job. */
  ghost function RestOf(s: State, j: Job): set<Entry>
    requires j.rules.level + 1 < |s.files|
  {
    s.mem + ImmEntries(s.imm) + FileContents(Replace(s.files, j.rules.level, j.upper, j.lower, {}))
  }

  lemma {:induction false} ReplaceContents(files: Files, level: nat, upper: set<Table>, lower: set<Table>, outs: set<Table>)
    requires level + 1 < |files|
    ensures FileContents(Replace(files, level, upper, lower, outs))
         == FileContents(Replace(files, level, upper, lower, {})) + Rows(outs)
  {
    var with := Replace(files, level, upper, lower, outs);
    var without := Replace(files, level, upper, lower, {});
    assert with[level + 1] == without[level + 1] + outs;
    assert with == without[level + 1 := without[level + 1] + outs];
    UnionContents(without, level + 1, outs);
  }

  lemma {:induction false} UnionContents(files: Files, l: nat, more: set<Table>)
    requires l < |files|
    ensures FileContents(files[l := files[l] + more]) == FileContents(files) + Rows(more)
  {
    var files' := files[l := files[l] + more];
    assert forall m :: 0 <= m < |files| && m != l ==> files'[m] == files[m];
    assert Rows(files'[l]) == Rows(files[l]) + Rows(more);
    assert forall e :: e in Rows(more) ==> e in Rows(files'[l]);
    forall e | e in FileContents(files)
      ensures e in FileContents(files')
    {
      var m :| 0 <= m < |files| && e in Rows(files[m]);
      assert e in Rows(files'[m]);
    }
  }

  lemma {:induction false} PutBackContents(files: Files, level: nat, upper: set<Table>, lower: set<Table>)
    requires level + 1 < |files| && upper <= files[level] && lower <= files[level + 1]
    ensures FileContents(files) == FileContents(Replace(files, level, upper, lower, {})) + Rows(upper + lower)
  {
    var without := Replace(files, level, upper, lower, {});
    UnionContents(without, level, upper);
    var half := without[level := without[level] + upper];
    UnionContents(half, level + 1, lower);
    assert half[level + 1 := half[level + 1] + lower] == files by {
      assert files[level] - upper + upper == files[level];
      assert files[level + 1] - lower + {} + lower == files[level + 1];
    }
    assert Rows(upper + lower) == Rows(upper) + Rows(lower);
  }

  /** Whatever stays is newer, for every key the job treats as base-level. */
  lemma {:induction false} JobRestIsNewer(s: State, j: Job, input: seq<Entry>)
    requires Inv(s) && j in s.jobs
    requires Elements(input) == Rows(j.upper + j.lower)
    ensures RestIsNewer(j.rules, input, RestOf(s, j))
  {
    var level := j.rules.level;
    assert JobOk(s.files, j);
    var without := Replace(s.files, level, j.upper, j.lower, {});
    PutBackContents(s.files, level, j.upper, j.lower);
    forall i, f | 0 <= i < |input| && f in RestOf(s, j) && f.key == input[i].key && IsBaseLevel(j.rules.version, level, f.key)
      ensures f.seqno > input[i].seqno
    {
      assert input[i] in Elements(input);
      assert input[i] in FileContents(s.files);
      if f in FileContents(without) {
        StoredInContents(without, f);
        var l: int :| StoredAt(without, l, f);
        assert Stored(j.upper + j.lower, input[i]);
        StayingRowIsNewer(s.files, s.nextFile, j, l, f, input[i]);
      }
    }
  }

  lemma {:induction false} StayingRowIsNewer(files: Files, nextFile: nat, j: Job, l: int, f: Entry, e: Entry)
    requires Shaped(files, nextFile) && Aged(files) && AgedByNumber(files[0])
    requires JobOk(files, j)
    requires StoredAt(Replace(files, j.rules.level, j.upper, j.lower, {}), l, f)
    requires Stored(j.upper + j.lower, e) && e.key == f.key
    requires IsBaseLevel(j.rules.version, j.rules.level, f.key)
    ensures f.seqno > e.seqno
  {
    StoredAfterRemoval(files, j.rules.level, j.upper, j.lower, l, f);
    StayingLevel(files, nextFile, j, l, f, e);
    InputOrigin(j, e);
    StayingAbove(files, nextFile, j, l, f, e);
  }

  /** A staying row of an input's key is not below the job's upper level. */
  lemma {:induction false} StayingLevel(files: Files, nextFile: nat, j: Job, l: int, f: Entry, e: Entry)
    requires Shaped(files, nextFile) && JobOk(files, j)
    requires StoredAt(files, l, f) && (l == j.rules.level + 1 ==> Stored(files[l] - j.lower, f))
    requires Stored(j.upper + j.lower, e) && e.key == f.key
    requires IsBaseLevel(j.rules.version, j.rules.level, f.key)
    ensures l <= j.rules.level
  {
    if l == j.rules.level + 1 {
      UnpickedRow(files, nextFile, j, f, e);
    }
  }

  lemma {:induction false} StoredAfterRemoval(files: Files, level: nat, upper: set<Table>, lower: set<Table>, l: int, e: Entry)
    requires level + 1 < |files|
    requires StoredAt(Replace(files, level, upper, lower, {}), l, e)
    ensures StoredAt(files, l, e)
    ensures l == level ==> Stored(files[level] - upper, e)
    ensures l == level + 1 ==> Stored(files[level + 1] - lower, e)
  {
    var t: Table :| t in Replace(files, level, upper, lower, {})[l] && e in t.rows;
    assert t in files[l];
  }

  lemma {:induction false} InputOrigin(j: Job, e: Entry)
    requires Stored(j.upper + j.lower, e)
    ensures Stored(j.upper, e) || Stored(j.lower, e)
  {
    var u :| u in j.upper + j.lower && e in u.rows;
    assert u in j.upper || u in j.lower;
  }

  lemma {:induction false} StayingAbove(files: Files, nextFile: nat, j: Job, l: int, f: Entry, e: Entry)
    requires Shaped(files, nextFile) && Aged(files) && AgedByNumber(files[0])
    requires JobOk(files, j)
    requires l <= j.rules.level && StoredAt(files, l, f)
    requires l == j.rules.level ==> Stored(files[l] - j.upper, f)
    requires Stored(j.upper, e) || Stored(j.lower, e)
    requires e.key == f.key
    ensures f.seqno > e.seqno
  {
    var level := j.rules.level;
    if Stored(j.lower, e) {
      StoredMono(j.lower, files[level + 1], e);
      assert StoredAt(files, level + 1, e);
    } else if l == level {
      SameLevelNewer(files[level], j.upper, level == 0, f, e);
    } else {
      StoredMono(j.upper, files[level], e);
      assert StoredAt(files, level, e);
    }
  }

  lemma {:induction false} UnpickedRow(files: Files, nextFile: nat, j: Job, f: Entry, e: Entry)
    requires Shaped(files, nextFile)
    requires JobOk(files, j)
    requires Stored(files[j.rules.level + 1] - j.lower, f)
    requires Stored(j.upper + j.lower, e)
    ensures e.key != f.key
  {
    var level := j.rules.level;
    var t :| t in files[level + 1] - j.lower && f in t.rows;
    var u :| u in j.upper + j.lower && e in u.rows;
    assert Outside(t, j.upper + j.lower);
    assert Apart(t, u);
    NoSharedKey(t, u, f, e);
  }

  lemma {:induction false} InstallStep(s: State, a: Action)
    requires Inv(s) && Enabled(s, a) && a.InstallCompaction?
    ensures Inv(Apply(s, a))
  {
    var kept := Kept(a.job.rules, a.input, |a.input|);
    var outs := OutputTables(s.nextFile, a.outputs);
    KeptSorted(a.job.rules, a.input, |a.input|);
    OutputsOk(s.nextFile, a.outputs, kept);
    KeptFromInput(a.job.rules, a.input);
    InstallOutputs(s, Apply(s, a), a.job, a.input, outs);
  }

  lemma {:induction false} KeptFromInput(r: Rules, input: seq<Entry>)
    requires |r.version| == NUM_LEVELS
    ensures Elements(Kept(r, input, |input|)) <= Elements(input)
  {
    forall e | e in Kept(r, input, |input|)
      ensures e in input
    {
      KeptElements(r, input, |input|, e);
    }
  }

  lemma {:induction false} InstallReplaceable(files: Files, nextFile: nat, j: Job, input: seq<Entry>, outs: set<Table>)
    requires Shaped(files, nextFile)
    requires JobOk(files, j)
    requires Elements(input) == Rows(j.upper + j.lower)
    requires Rows(outs) <= Elements(input)
    requires forall o :: o in outs ==> Sorted(o.rows)
    requires forall o, p :: o in outs && p in outs && o != p ==> Apart(o, p)
    ensures Replaceable(files, j.rules.level, j.upper, j.lower, outs)
  {
    var level := j.rules.level;
    forall o, t | o in outs && t in files[level + 1] - j.lower
      ensures Apart(o, t)
    {
      assert o.Smallest() in o.rows && o.Largest() in o.rows;
      assert o.Smallest() in Rows(outs) && o.Largest() in Rows(outs);
      var u :| u in j.upper + j.lower && o.Smallest() in u.rows;
      var w :| w in j.upper + j.lower && o.Largest() in w.rows;
      RowsInRange(u, o.Smallest());
      RowsInRange(w, o.Largest());
      assert Outside(t, j.upper + j.lower);
    }
    forall e | Stored(outs, e)
      ensures Stored(j.upper, e) || Stored(j.lower, e)
    {
      assert e in Rows(outs);
      var u :| u in j.upper + j.lower && e in u.rows;
      assert u in j.upper || u in j.lower;
    }
  }

  lemma {:induction false} InstallOutputs(s: State, s': State, j: Job, input: seq<Entry>, outs: set<Table>)
    requires Inv(s) && j in s.jobs
    requires Sorted(input) && Elements(input) == Rows(j.upper + j.lower)
    requires Rows(outs) == Elements(Kept(j.rules, input, |input|)) <= Elements(input)
    requires s.nextFile <= s'.nextFile
    requires forall o :: o in outs ==> Sorted(o.rows) && o.number < s'.nextFile
    requires forall o, p :: o in outs && p in outs && o != p ==> Apart(o, p)
    requires s' == s.(jobs := s.jobs - {j}, nextFile := s'.nextFile,
                      files := Replace(s.files, j.rules.level, j.upper, j.lower, outs))
    ensures Inv(s')
  {
    assert JobOk(s.files, j);
    InstallReplaceable(s.files, s.nextFile, j, input, outs);
    InstallFiles(s, s', j, outs);
    InstallContents(s, s', j, outs);
    JobRestIsNewer(s, j, input);
    InstallReads(s, s', j, input, outs);
  }

  lemma {:induction false} InstallFiles(s: State, s': State, j: Job, outs: set<Table>)
    requires Shaped(s.files, s.nextFile) && Aged(s.files) && AgedByNumber(s.files[0]) && JobsOk(s)
    requires j in s.jobs
    requires Replaceable(s.files, j.rules.level, j.upper, j.lower, outs)
    requires s.nextFile <= s'.nextFile && forall o :: o in outs ==> o.number < s'.nextFile
    requires s' == s.(jobs := s.jobs - {j}, nextFile := s'.nextFile,
                      files := Replace(s.files, j.rules.level, j.upper, j.lower, outs))
    ensures Shaped(s'.files, s'.nextFile) && Aged(s'.files) && AgedByNumber(s'.files[0]) && JobsOk(s')
  {
    var level := j.rules.level;
    ReplaceAged(s.files, s.nextFile, level, j.upper, j.lower, outs);
    ReplaceShaped(s.files, s.nextFile, s'.nextFile, level, j.upper, j.lower, outs);
    OwnLocksFree(s, j);
    OtherJobsKept(s, s', level, j.upper, j.lower, outs);
  }

  lemma {:induction false} OwnLocksFree(s: State, j: Job)
    requires |s.files| == NUM_LEVELS && JobsOk(s) && j in s.jobs
    ensures {j.rules.level, j.rules.level + 1} !! Locked(s.jobs - {j})
  {
  }

  lemma {:induction false} InstallContents(s: State, s': State, j: Job, outs: set<Table>)
    requires |s.files| == NUM_LEVELS && JobOk(s.files, j)
    requires s' == s.(jobs := s.jobs - {j}, nextFile := s'.nextFile,
                      files := Replace(s.files, j.rules.level, j.upper, j.lower, outs))
    requires Rows(outs) <= Rows(j.upper + j.lower)
    ensures Contents(s) == Rows(j.upper + j.lower) + RestOf(s, j)
    ensures Contents(s') == Rows(outs) + RestOf(s, j)
    ensures FileContents(s'.files) <= FileContents(s.files)
  {
    PutBackContents(s.files, j.rules.level, j.upper, j.lower);
    ReplaceContents(s.files, j.rules.level, j.upper, j.lower, outs);
  }

  lemma {:induction false} InstallReads(s: State, s': State, j: Job, input: seq<Entry>, outs: set<Table>)
    requires |s.files| == NUM_LEVELS == |j.rules.version| && j.rules.level + 1 < NUM_LEVELS
    requires MemoryNewest(s) && HistoryOk(s) && ReadsOk(s) && JobsOk(s) && j in s.jobs
    requires Sorted(input)
    requires Rows(outs) == Elements(Kept(j.rules, input, |input|)) <= Elements(input)
    requires s' == s.(jobs := s.jobs - {j}, nextFile := s'.nextFile, files := s'.files)
    requires RestIsNewer(j.rules, input, RestOf(s, j))
    requires Contents(s) == Elements(input) + RestOf(s, j)
    requires Contents(s') == Rows(outs) + RestOf(s, j)
    requires FileContents(s'.files) <= FileContents(s.files)
    ensures MemoryNewest(s') && HistoryOk(s') && ReadsOk(s')
  {
    forall k, n | Live(s', n)
      ensures Read(Contents(s'), k, n) == Read(s'.written, k, n)
    {
      assert Live(s, n);
      CompactionPreservesReads(j.rules, input, RestOf(s, j), k, n);
    }
  }

  // ----- every run

  lemma {:induction false} StepKeepsInv(s: State, a: Action)
    requires Inv(s) && Enabled(s, a)
    ensures Inv(Apply(s, a))
  {
    match a
    case Write(_, _) => WriteStep(s, a);
    case SwitchMemTable => SwitchStep(s, a);
    case Flush(_, _) => FlushStep(s, a);
    case BeginCompaction(_, _) => BeginStep(s, a);
    case InstallCompaction(_, _, _) => InstallStep(s, a);
    case AbandonCompaction(_) => SnapshotStep(s, a);
    case TrivialMove(_, _) => TrivialMoveStep(s, a);
    case TakeSnapshot => SnapshotStep(s, a);
    case ReleaseSnapshot(_) => SnapshotStep(s, a);
  }

  ghost predicate Step(s: State, s': State) {
    && |s.files| == NUM_LEVELS
    && (forall j :: j in s.jobs ==> j.rules.level + 1 < NUM_LEVELS)
    && exists a :: Enabled(s, a) && s' == Apply(s, a)
  }

  ghost predicate Run(states: seq<State>) {
    && |states| > 0
    && Init(states[0])
    && forall i :: 0 <= i < |states| - 1 ==> Step(states[i], states[i + 1])
  }

  lemma {:induction false} RunStepKeepsInv(s: State, s': State)
    requires Inv(s) && Step(s, s')
    ensures Inv(s')
  {
    var a :| Enabled(s, a) && s' == Apply(s, a);
    StepKeepsInv(s, a);
  }

  lemma {:induction false} RunPrefix(states: seq<State>)
    requires Run(states) && |states| > 1
    ensures Run(states[..|states| - 1])
    ensures Step(states[|states| - 2], states[|states| - 1])
  {
  }

  /** The invariant holds after every run, whatever the interleaving. */
  lemma {:induction false} RunKeepsInv(states: seq<State>)
    requires Run(states)
    ensures Inv(states[|states| - 1])
    decreases |states|
  {
    var n := |states| - 1;
    if n == 0 {
      InitInv(states[0]);
    } else {
      RunPrefix(states);
      RunKeepsInv(states[..n]);
      RunStepKeepsInv(states[n - 1], states[n]);
    }
  }

  /** The snapshot a compaction takes is never the sentinel that the loop starts
      every key with, so no run meets the case of SentinelSnapshotLosesData. */
  lemma {:induction false} OldestSnapshotIsReal(states: seq<State>, n: nat)
    requires Run(states) && OldestSnapshot(states[|states| - 1], n)
    ensures n < MAX_SEQUENCE
  {
    RunKeepsInv(states);
  }
}
