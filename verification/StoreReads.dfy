/** Reads against a reachable state: memtable, then immutable memtable, then the
    current version, stopping at the first answer. */
module StoreReads {
  import opened Entries
  import opened Levels
  import opened Lookups
  import opened Store
  import opened StoreInvariant
  import opened StoreHistory

  /** A memtable is searched like a table: first row at or after the lookup
      key, accepted if its user key matches. */
  function MemGet(rows: seq<Entry>, k: UserKey, snapshot: nat): Lookup {
    var n := SeekRow(rows, k, snapshot);
    if n < |rows| && rows[n].key == k then Hit(rows[n]) else Miss
  }

  lemma {:induction false} MemGetAnswers(rows: seq<Entry>, k: UserKey, snapshot: nat)
    requires Sorted(rows)
    ensures Answers(Elements(rows), k, snapshot, MemGet(rows, k, snapshot))
  {
  }

  /** The level vectors of a reachable state have what the level-by-level search
      relies on. */
  lemma {:induction false} VersionByAge(v: Version, s: State)
    requires Inv(s) && Lists(v, s.files)
    ensures LevelsByAge(v) && NumbersByAge(v[0])
    ensures VersionContents(v) == FileContents(s.files)
  {
    ListedLevels(v, s.files);
    ListedNumbers(v[0], s.files[0]);
    ListedContents(v, s.files);
  }

  lemma {:induction false} ListedLevels(v: Version, files: Files)
    requires Lists(v, files) && Aged(files)
    ensures LevelsByAge(v)
  {
    forall l, m, e, f | 0 <= l < m < |v| && InLevel(v[l], e) && InLevel(v[m], f) && e.key == f.key
      ensures e.seqno > f.seqno
    {
      ListedRows(v[l], files[l], e);
      ListedRows(v[m], files[m], f);
      assert StoredAt(files, l, e) && StoredAt(files, m, f);
    }
  }

  lemma {:induction false} ListedContents(v: Version, files: Files)
    requires Lists(v, files)
    ensures VersionContents(v) == FileContents(files)
  {
    forall e
      ensures e in VersionContents(v) <==> e in FileContents(files)
    {
      StoredInContents(files, e);
      if l: int :| StoredAt(files, l, e) {
        ListedRows(v[l], files[l], e);
        var i :| 0 <= i < |v[l]| && e in v[l][i].rows;
      }
      if e in VersionContents(v) {
        var l, i :| 0 <= l < |v| && 0 <= i < |v[l]| && e in v[l][i].rows;
        ListedRows(v[l], files[l], e);
        assert StoredAt(files, l, e);
      }
    }
  }

  lemma {:induction false} ListedRows(files: seq<Table>, tables: set<Table>, e: Entry)
    requires tables == set t | t in files
    ensures InLevel(files, e) <==> Stored(tables, e)
  {
  }

  lemma {:induction false} ListedNumbers(files: seq<Table>, tables: set<Table>)
    requires tables == set t | t in files
    requires forall i, j :: 0 <= i < j < |files| ==> files[i] != files[j]
    requires forall t, u :: t in tables && u in tables && t != u ==> t.number != u.number
    requires AgedByNumber(tables)
    ensures NumbersByAge(files)
  {
    assert forall i :: 0 <= i < |files| ==> files[i] in tables;
  }

  /** DBImpl::Get in the last state of any run: what the batches of the run's writes
      say, at a snapshot that was taken in the run and not released, or at or after the
      last sequence. */
  method Get(mem: seq<Entry>, hasImm: bool, imm: seq<Entry>, current: Version,
             k: UserKey, snapshot: nat, ghost run: seq<State>, ghost acts: seq<Action>)
    returns (result: ReadResult)
    requires RunBy(run, acts) && LiveAfter(run[0].lastSequence, acts, snapshot)
    requires var s := run[|acts|];
             && Sorted(mem) && Elements(mem) == s.mem
             && (hasImm <==> s.imm.Imm?)
             && Sorted(imm) && Elements(imm) == ImmEntries(s.imm)
             && Lists(current, s.files)
    ensures result == Read(WrittenBy(acts), k, snapshot)
  {
    RunOf(run, acts);
    RunKeepsInv(run);
    HistoryOfRun(run, acts);
    LiveOfRun(run, acts, snapshot);
    result := GetIn(mem, hasImm, imm, current, k, snapshot, run[|acts|]);
  }

  /** The search itself needs only the invariant. */
  method GetIn(mem: seq<Entry>, hasImm: bool, imm: seq<Entry>, current: Version,
               k: UserKey, snapshot: nat, ghost s: State)
    returns (result: ReadResult)
    requires Inv(s)
    requires Sorted(mem) && Elements(mem) == s.mem
    requires hasImm <==> s.imm.Imm?
    requires Sorted(imm) && Elements(imm) == ImmEntries(s.imm)
    requires Lists(current, s.files)
    requires Live(s, snapshot)
    ensures result == Read(s.written, k, snapshot)
  {
    var r := MemGet(mem, k, snapshot);
    MemGetAnswers(mem, k, snapshot);
    if r.Miss? && hasImm {
      r := MemGet(imm, k, snapshot);
      MemGetAnswers(imm, k, snapshot);
    }
    if r.Miss? {
      VersionByAge(current, s);
      r := Lookups.Get(current, k, snapshot);
    }
    AnswerIsRead(s, k, snapshot, r);
    result := if r.Hit? then ResultOf(r.entry) else NotFound;
  }

  lemma {:induction false} AnswerIsRead(s: State, k: UserKey, snapshot: nat, r: Lookup)
    requires HistoryOk(s) && ReadsOk(s) && Live(s, snapshot)
    requires MemoryNewest(s)
    requires if HasVisible(s.mem, k, snapshot) then Answers(s.mem, k, snapshot, r)
             else if HasVisible(ImmEntries(s.imm), k, snapshot) then Answers(ImmEntries(s.imm), k, snapshot, r)
             else Answers(FileContents(s.files), k, snapshot, r)
    ensures Read(s.written, k, snapshot) == if r.Hit? then ResultOf(r.entry) else NotFound
  {
    match r
    case Hit(e) =>
      assert IsNewest(Contents(s), k, snapshot, e);
      ReadNewest(Contents(s), k, snapshot, e);
    case Miss =>
      assert !HasVisible(Contents(s), k, snapshot);
      ReadNone(Contents(s), k, snapshot);
  }
}
