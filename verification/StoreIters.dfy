/** Iterating over a reachable state: the memtables, every level-0 table and one
    joined iterator for each deeper level are merged, and the user's iterator
    moves over the merge. */
module StoreIters {
  import opened Entries
  import opened Levels
  import opened Lookups
  import opened Store
  import opened StoreInvariant
  import DbIters
  import InternalIters
  import Mergers
  import StoreReads
  import StoreRecovery

  /** No user key has the same sequence in both. */
  ghost predicate Separate(es: set<Entry>, fs: set<Entry>) {
    forall e, f :: e in es && f in fs && e.key == f.key ==> e.seqno != f.seqno
  }

  /** What the merging iterator asks of its children. */
  ghost predicate Mergeable(list: seq<seq<Entry>>) {
    && (forall i :: 0 <= i < |list| ==> Sorted(list[i]))
    && Mergers.Distinct(list)
  }

  lemma {:induction false} ChildAdded(list: seq<seq<Entry>>, child: seq<Entry>)
    requires Mergeable(list) && Sorted(child)
    requires Separate(Mergers.Union(list), Elements(child))
    ensures Mergeable(list + [child])
    ensures Mergers.Union(list + [child]) == Mergers.Union(list) + Elements(child)
  {
    var longer := list + [child];
    forall i, j
      ensures Mergers.Apart(longer, i, j)
    {
      if 0 <= i < j < |longer| {
        assert Mergers.Apart(list, i, j);
        forall a, b | a in longer[i] && b in longer[j]
          ensures Before(a, b) || Before(b, a)
        {
          if j == |list| {
            assert a in Mergers.Union(list) && b in Elements(child);
          }
        }
      }
    }
    forall e | e in Mergers.Union(list) + Elements(child)
      ensures e in Mergers.Union(longer)
    {
      if e in Mergers.Union(list) {
        var i :| 0 <= i < |list| && e in list[i];
        assert longer[i] == list[i];
      } else {
        assert longer[|list|] == child;
      }
    }
  }

  // ----- one child for each level-0 table

  method AddLevelZero(given: seq<seq<Entry>>, files: seq<Table>) returns (list: seq<seq<Entry>>)
    requires Mergeable(given) && AllSorted(files) && NumbersByAge(files)
    requires Separate(Mergers.Union(given), LevelContents(files))
    ensures Mergeable(list)
    ensures Mergers.Union(list) == Mergers.Union(given) + LevelContents(files)
  {
    list := given;
    assert LevelContents(files[..0]) == {};
    var i := 0;
    while i < |files|
      invariant 0 <= i <= |files|
      invariant Mergeable(list)
      invariant Mergers.Union(list) == Mergers.Union(given) + LevelContents(files[..i])
    {
      OneMoreTable(files, i);
      ChildAdded(list, files[i].rows);
      list := list + [files[i].rows];
      i := i + 1;
    }
    assert files[..|files|] == files;
  }

  lemma {:induction false} OneMoreTable(files: seq<Table>, i: nat)
    requires i < |files| && NumbersByAge(files)
    ensures LevelContents(files[..i + 1]) == LevelContents(files[..i]) + Elements(files[i].rows)
    ensures Elements(files[i].rows) <= LevelContents(files)
    ensures Separate(LevelContents(files[..i]), Elements(files[i].rows))
  {
    TableRows(files, i);
    forall e, f | e in LevelContents(files[..i]) && f in Elements(files[i].rows) && e.key == f.key
      ensures e.seqno != f.seqno
    {
      var j :| 0 <= j < i && e in files[..i][j].rows;
      assert files[..i][j] == files[j] && files[j].number != files[i].number;
    }
  }

  lemma {:induction false} TableRows(files: seq<Table>, i: nat)
    requires i < |files|
    ensures LevelContents(files[..i + 1]) == LevelContents(files[..i]) + Elements(files[i].rows)
  {
    forall e | e in LevelContents(files[..i]) + Elements(files[i].rows)
      ensures e in LevelContents(files[..i + 1])
    {
      if e in LevelContents(files[..i]) {
        var j :| 0 <= j < i && e in files[..i][j].rows;
        assert files[..i + 1][j] == files[..i][j];
      } else {
        assert files[..i + 1][i] == files[i];
      }
    }
    forall e | e in LevelContents(files[..i + 1])
      ensures e in LevelContents(files[..i]) + Elements(files[i].rows)
    {
      var j :| 0 <= j < i + 1 && e in files[..i + 1][j].rows;
      assert j < i ==> files[..i][j] == files[..i + 1][j];
    }
  }

  // ----- one child for each deeper level

  /** What a concatenating iterator shows: the rows of the tables in order. */
  function Joined(files: seq<Table>): seq<Entry> {
    if files == [] then [] else Joined(files[..|files| - 1]) + files[|files| - 1].rows
  }

  lemma {:induction false} JoinedIsLevel(files: seq<Table>)
    requires AllSorted(files) && Disjoint(files)
    ensures Sorted(Joined(files))
    ensures Elements(Joined(files)) == LevelContents(files)
    decreases |files|
  {
    if files != [] {
      var n := |files| - 1;
      var front := files[..n];
      JoinedIsLevel(front);
      TableRows(files, n);
      assert files[..n + 1] == files;
      forall e, f | e in Joined(front) && f in files[n].rows
        ensures Before(e, f)
      {
        assert e in LevelContents(front);
        var j :| 0 <= j < n && e in front[j].rows;
        RowsInRange(files[j], e);
        RowsInRange(files[n], f);
      }
      JoinSorted(Joined(front), files[n].rows);
    }
  }

  lemma {:induction false} JoinSorted(a: seq<Entry>, b: seq<Entry>)
    requires Sorted(a) && Sorted(b)
    requires forall e, f :: e in a && f in b ==> Before(e, f)
    ensures Sorted(a + b) && Elements(a + b) == Elements(a) + Elements(b)
  {
    forall i, j | 0 <= i < j < |a + b|
      ensures Before((a + b)[i], (a + b)[j])
    {
      if i < |a| <= j {
        assert (a + b)[i] in a && (a + b)[j] in b;
      }
    }
  }

  lemma {:induction false} LevelAdded(list: seq<seq<Entry>>, files: seq<Table>)
    requires Mergeable(list) && AllSorted(files) && Disjoint(files)
    requires Separate(Mergers.Union(list), LevelContents(files))
    ensures Mergeable(list + [Joined(files)])
    ensures Mergers.Union(list + [Joined(files)]) == Mergers.Union(list) + LevelContents(files)
  {
    JoinedIsLevel(files);
    ChildAdded(list, Joined(files));
  }

  lemma {:induction false} DeeperStep(list: seq<seq<Entry>>, given: set<Entry>, v: Version, level: nat)
    requires ValidVersion(v) && LevelsByAge(v) && 1 <= level < NUM_LEVELS
    requires Mergeable(list) && Mergers.Union(list) == given + DeeperContents(v, level)
    requires Separate(given, LevelContents(v[level]))
    ensures v[level] == [] ==> Mergers.Union(list) == given + DeeperContents(v, level + 1)
    ensures v[level] != [] ==> Mergeable(list + [Joined(v[level])])
    ensures v[level] != [] ==> Mergers.Union(list + [Joined(v[level])]) == given + DeeperContents(v, level + 1)
  {
    OneMoreLevel(v, level);
    LevelAdded(list, v[level]);
  }

  method AddDeeper(given: seq<seq<Entry>>, v: Version) returns (list: seq<seq<Entry>>)
    requires ValidVersion(v) && LevelsByAge(v)
    requires Mergeable(given)
    requires forall l :: 1 <= l < NUM_LEVELS ==> Separate(Mergers.Union(given), LevelContents(v[l]))
    ensures Mergeable(list)
    ensures Mergers.Union(list) == Mergers.Union(given) + DeeperContents(v, NUM_LEVELS)
  {
    list := given;
    var level := 1;
    while level < NUM_LEVELS
      invariant 1 <= level <= NUM_LEVELS
      invariant Mergeable(list)
      invariant Mergers.Union(list) == Mergers.Union(given) + DeeperContents(v, level)
    {
      DeeperStep(list, Mergers.Union(given), v, level);
      if v[level] != [] {
        list := list + [Joined(v[level])];
      }
      level := level + 1;
    }
  }

  /** The levels from 1 up to, not including, n. */
  ghost function DeeperContents(v: Version, n: nat): set<Entry>
    requires n <= |v|
  {
    set l, e | 1 <= l < n && e in LevelContents(v[l]) :: e
  }

  lemma {:induction false} OneMoreLevel(v: Version, level: nat)
    requires 1 <= level < |v| && LevelsByAge(v)
    ensures DeeperContents(v, level + 1) == DeeperContents(v, level) + LevelContents(v[level])
    ensures Separate(DeeperContents(v, level), LevelContents(v[level]))
  {
    forall e, f | e in DeeperContents(v, level) && f in LevelContents(v[level]) && e.key == f.key
      ensures e.seqno != f.seqno
    {
      var l :| 1 <= l < level && e in LevelContents(v[l]);
      assert InLevel(v[l], e) && InLevel(v[level], f);
    }
  }

  // ----- the whole store

  lemma {:induction false} VersionParts(v: Version)
    requires |v| == NUM_LEVELS
    ensures VersionContents(v) == LevelContents(v[0]) + DeeperContents(v, NUM_LEVELS)
  {
    forall e | e in LevelContents(v[0]) + DeeperContents(v, NUM_LEVELS)
      ensures e in VersionContents(v)
    {
      if e in LevelContents(v[0]) {
        var i :| 0 <= i < |v[0]| && e in v[0][i].rows;
      } else {
        var l :| 1 <= l < NUM_LEVELS && e in LevelContents(v[l]);
        var i :| 0 <= i < |v[l]| && e in v[l][i].rows;
      }
    }
    forall e | e in VersionContents(v)
      ensures e in LevelContents(v[0]) + DeeperContents(v, NUM_LEVELS)
    {
      var l, i :| 0 <= l < |v| && 0 <= i < |v[l]| && e in v[l][i].rows;
      assert e in LevelContents(v[l]);
    }
  }

  lemma {:induction false} ZeroApartFromDeeper(v: Version, l: nat)
    requires LevelsByAge(v) && 1 <= l < |v|
    ensures Separate(LevelContents(v[0]), LevelContents(v[l]))
  {
    forall e, f | e in LevelContents(v[0]) && f in LevelContents(v[l]) && e.key == f.key
      ensures e.seqno != f.seqno
    {
      assert InLevel(v[0], e) && InLevel(v[l], f);
    }
  }

  lemma {:induction false} LevelsApart(memory: set<Entry>, v: Version)
    requires ValidVersion(v) && LevelsByAge(v)
    requires AllNewer(memory, VersionContents(v))
    ensures Separate(memory, LevelContents(v[0]))
    ensures forall l :: 1 <= l < NUM_LEVELS ==> Separate(memory + LevelContents(v[0]), LevelContents(v[l]))
  {
    VersionParts(v);
    forall l | 1 <= l < NUM_LEVELS
      ensures Separate(memory + LevelContents(v[0]), LevelContents(v[l]))
    {
      ZeroApartFromDeeper(v, l);
      assert LevelContents(v[l]) <= DeeperContents(v, NUM_LEVELS);
    }
  }

  /** DBImpl::NewInternalIterator and Version::AddIterators: the children can be
      merged, and together they show exactly what the store holds. */
  method NewInternalIterator(mem: seq<Entry>, hasImm: bool, imm: seq<Entry>, current: Version, ghost s: State)
    returns (list: seq<seq<Entry>>)
    requires Inv(s)
    requires Sorted(mem) && Elements(mem) == s.mem
    requires hasImm <==> s.imm.Imm?
    requires Sorted(imm) && Elements(imm) == ImmEntries(s.imm)
    requires Lists(current, s.files)
    ensures Mergeable(list)
    ensures Mergers.Union(list) == Contents(s)
  {
    StoreReads.VersionByAge(current, s);
    VersionParts(current);
    list := Memtables(mem, hasImm, imm, s);
    LevelsApart(s.mem + ImmEntries(s.imm), current);
    list := AddLevelZero(list, current[0]);
    list := AddDeeper(list, current);
  }

  method Memtables(mem: seq<Entry>, hasImm: bool, imm: seq<Entry>, ghost s: State) returns (list: seq<seq<Entry>>)
    requires MemoryNewest(s)
    requires Sorted(mem) && Elements(mem) == s.mem
    requires hasImm <==> s.imm.Imm?
    requires Sorted(imm) && Elements(imm) == ImmEntries(s.imm)
    ensures Mergeable(list)
    ensures Mergers.Union(list) == s.mem + ImmEntries(s.imm)
  {
    list := [];
    assert Mergers.Union(list) == {};
    ChildAdded(list, mem);
    list := list + [mem];
    if hasImm {
      ChildAdded(list, imm);
      list := list + [imm];
    }
  }

  /** Cursors over sets that read alike move alike. */
  lemma {:induction false} SameReadsSameMoves(es: set<Entry>, fs: set<Entry>, snapshot: nat, op: DbIters.Op, c: DbIters.Cursor, c': DbIters.Cursor)
    requires forall k :: Read(es, k, snapshot) == Read(fs, k, snapshot)
    requires DbIters.Moves(es, snapshot, op, c, c')
    ensures DbIters.Moves(fs, snapshot, op, c, c')
  {
    assert forall k :: DbIters.Absent(es, snapshot, k) <==> DbIters.Absent(fs, snapshot, k);
  }

  /** DBImpl::NewIterator, then any operations on the iterator, which drives the merging
      iterator over the children: it moves over exactly the keys that were written and
      not deleted, with their newest values, in the last state of any run, with crashes. */
  method Iterate(mem: seq<Entry>, hasImm: bool, imm: seq<Entry>, current: Version, snapshot: nat,
                 ops: seq<DbIters.Op>, ghost run: seq<StoreRecovery.Disk>, ghost events: seq<StoreRecovery.Event>)
    returns (trace: seq<DbIters.Cursor>)
    requires StoreRecovery.RunBy(run, events)
    requires StoreRecovery.LiveIn(StoreRecovery.History(run[0].s.lastSequence, events), snapshot)
    requires var s := run[|events|].s;
             && Sorted(mem) && Elements(mem) == s.mem
             && (hasImm <==> s.imm.Imm?)
             && Sorted(imm) && Elements(imm) == ImmEntries(s.imm)
             && Lists(current, s.files)
    ensures |trace| == |ops| + 1 && trace[0] == DbIters.Nowhere
    ensures forall i :: 0 <= i < |ops| ==>
              DbIters.Moves(StoreRecovery.History(run[0].s.lastSequence, events).kept, snapshot, ops[i], trace[i], trace[i + 1])
  {
    ghost var s := run[|events|].s;
    StoreRecovery.RunOf(run, events);
    StoreRecovery.RunKeepsFull(run);
    StoreRecovery.HistoryOfRun(run, events);
    var list := NewInternalIterator(mem, hasImm, imm, current, s);
    ghost var merged := Mergers.MergeExists(list);
    var merging := new Mergers.MergingIterator(list, merged);
    var iter := new InternalIters.InternalIter(merging);
    var it := new DbIters.DbIter(iter, snapshot);
    trace := DbIters.Replay(it, ops);
    forall i | 0 <= i < |ops|
      ensures DbIters.Moves(s.written, snapshot, ops[i], trace[i], trace[i + 1])
    {
      SameReadsSameMoves(Contents(s), s.written, snapshot, ops[i], trace[i], trace[i + 1]);
    }
  }
}
