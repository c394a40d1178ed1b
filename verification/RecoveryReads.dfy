/** Reads after a recovery whose tables need not be in age order: what the search
    returns, and exactly when that is right. */
module RecoveryReads {
  import opened Entries
  import opened Levels
  import opened Lookups
  import opened Store
  import opened StoreInvariant
  import opened StoreRecovery
  import opened LogReplay
  import StoreReads

  // ----- the last part that holds a key, by its place

  ghost predicate LastAt(parts: seq<set<Entry>>, k: UserKey, j: int) {
    && 0 <= j < |parts|
    && HoldsKey(parts[j], k)
    && forall i :: j < i < |parts| ==> !HoldsKey(parts[i], k)
  }

  lemma {:induction false} LastPlace(parts: seq<set<Entry>>, k: UserKey, none: set<Entry>) returns (j: int)
    ensures j >= 0 ==> LastAt(parts, k, j) && LastHolding(parts, k, none) == parts[j]
    ensures j < 0 ==> LastHolding(parts, k, none) == none && forall i :: 0 <= i < |parts| ==> !HoldsKey(parts[i], k)
    decreases |parts|
  {
    j := -1;
    if parts != [] {
      var rest := parts[1..];
      j := LastPlace(rest, k, if HoldsKey(parts[0], k) then parts[0] else none);
      assert forall i :: 0 <= i < |rest| ==> rest[i] == parts[i + 1];
      assert forall i :: 0 < i < |parts| ==> parts[i] == rest[i - 1];
      if j >= 0 {
        j := j + 1;
      } else if HoldsKey(parts[0], k) {
        j := 0;
      }
    }
  }

  /** Keys of the parts are keys of what came back. */
  lemma {:induction false} BackKey(r: Replay, k: UserKey)
    ensures HoldsKey(Back(r), k) <==> exists i :: 0 <= i < |r.parts| && HoldsKey(PartSets(r.parts)[i], k)
    ensures Union(PartSets(r.parts)) == Back(r)
  {
    var parts := PartSets(r.parts);
    forall e
      ensures e in Union(parts) <==> e in Back(r)
    {
      InUnion(parts, e);
      if i :| 0 <= i < |parts| && e in parts[i] {
        assert e in r.parts[i];
      }
      if e in Back(r) {
        var i :| 0 <= i < |r.parts| && e in r.parts[i];
        assert e in parts[i];
      }
    }
    if HoldsKey(Back(r), k) {
      var e :| e in Back(r) && e.key == k;
      var i :| 0 <= i < |r.parts| && e in r.parts[i];
      assert e in parts[i];
    }
    if i :| 0 <= i < |r.parts| && HoldsKey(parts[i], k) {
      var e: Entry :| e in parts[i] && e.key == k;
      assert e in r.parts[i];
    }
  }

  // ----- level 0 after the recovery

  /** Old tables, and one for each part with a larger number. */
  ghost predicate Zero(files: seq<Table>, base: set<Table>, first: nat, parts: seq<seq<Entry>>) {
    && (forall i :: 0 <= i < |parts| ==> parts[i] != [])
    && (forall t :: t in base ==> t.number < first)
    && (set t | t in files) == base + OutputTables(first, parts)
  }

  lemma {:induction false} ZeroAfter(d: Disk, r: Replay, v: Version)
    requires Full(d) && MayRecover(d, r) && Lists(v, Recovered(d, r).s.files)
    ensures Zero(v[0], d.s.files[0], d.s.nextFile, r.parts)
  {
    assert Recovered(d, r).s.files[0] == set t | t in v[0];
  }

  /** Where the table of a part is listed. */
  lemma {:induction false} PartListed(files: seq<Table>, base: set<Table>, first: nat, parts: seq<seq<Entry>>, j: nat) returns (i: nat)
    requires Zero(files, base, first, parts) && j < |parts|
    ensures i < |files| && files[i] == Table(first + j, parts[j])
  {
    var t: Table := Table(first + j, parts[j]);
    assert t in OutputTables(first, parts);
    assert t in (set t | t in files);
    i :| 0 <= i < |files| && files[i] == t;
  }

  /** A listed table is an old one or that of a part. */
  lemma {:induction false} ListedOrigin(files: seq<Table>, base: set<Table>, first: nat, parts: seq<seq<Entry>>, i: nat) returns (j: int)
    requires Zero(files, base, first, parts) && i < |files|
    ensures j < 0 ==> files[i] in base && files[i].number < first
    ensures j >= 0 ==> j < |parts| && files[i] == Table(first + j, parts[j])
  {
    assert files[i] in (set t | t in files);
    j := -1;
    if files[i] !in base {
      j :| 0 <= j < |parts| && files[i] == Table(first + j, parts[j]);
    }
  }

  lemma {:induction false} RecoveredNumbersDiffer(d: Disk, r: Replay, v: Version)
    requires Full(d) && MayRecover(d, r) && Lists(v, Recovered(d, r).s.files)
    ensures NumbersDiffer(v[0])
  {
    ZeroAfter(d, r, v);
    forall i, j | 0 <= i < j < |v[0]|
      ensures v[0][i].number != v[0][j].number
    {
      var x := ListedOrigin(v[0], d.s.files[0], d.s.nextFile, r.parts, i);
      var y := ListedOrigin(v[0], d.s.files[0], d.s.nextFile, r.parts, j);
      assert v[0][i] != v[0][j];
    }
  }

  /** A key that came back is answered by the last part that holds it. */
  lemma {:induction false} LastPartAnswers(files: seq<Table>, base: set<Table>, first: nat, parts: seq<seq<Entry>>, k: UserKey, n: nat, j: nat, e: Entry)
    requires Zero(files, base, first, parts)
    requires LastAt(PartSets(parts), k, j) && IsNewest(Elements(parts[j]), k, n, e)
    ensures ZeroAnswer(files, k, n, Hit(e))
  {
    var i := PartListed(files, base, first, parts, j);
    forall m | 0 <= m < |files| && files[m].number > files[i].number
      ensures !HasVisible(files[m].Contents(), k, n)
    {
      var x := ListedOrigin(files, base, first, parts, m);
      assert x > j && !HoldsKey(PartSets(parts)[x], k);
    }
    assert HitAt(files, i, k, n, e);
  }

  /** And by nothing else. */
  lemma {:induction false} OnlyLastPartAnswers(files: seq<Table>, base: set<Table>, first: nat, parts: seq<seq<Entry>>, k: UserKey, n: nat, j: nat, e: Entry)
    requires Zero(files, base, first, parts)
    requires LastAt(PartSets(parts), k, j) && HasVisible(Elements(parts[j]), k, n) && ZeroAnswer(files, k, n, Hit(e))
    ensures IsNewest(Elements(parts[j]), k, n, e)
  {
    var i := PartListed(files, base, first, parts, j);
    var m :| HitAt(files, m, k, n, e);
    assert files[i].number <= files[m].number;
    var x := ListedOrigin(files, base, first, parts, m);
    assert x >= j;
    assert e in files[m].rows && e in PartSets(parts)[x] && HoldsKey(PartSets(parts)[x], k);
    assert x == j;
  }

  /** The whole search then never goes below level 0. */
  lemma {:induction false} AnsweredAtZero(v: Version, k: UserKey, n: nat, i: nat, a: Lookup)
    requires |v| > 0 && i < |v[0]| && HasVisible(v[0][i].Contents(), k, n) && SearchAnswer(v, k, n, a)
    ensures a.Hit? && ZeroAnswer(v[0], k, n, a)
  {
    var e :| e in v[0][i].Contents() && Visible(e, k, n);
    assert e in LevelContents(v[0]) && e in VersionContents(v);
    assert HasVisible(LevelContents(v[0]), k, n) && HasVisible(VersionContents(v), k, n);
    var l :| HitLevel(v, l, k, n, a.entry);
    assert l == 0;
  }

  /** So a key that came back has one answer: the newest entry of the last part
      that holds it. */
  lemma {:induction false} AnswerOfBack(d: Disk, r: Replay, v: Version, k: UserKey, n: nat, j: nat, a: Lookup)
    requires Full(d) && MayRecover(d, r) && Lists(v, Recovered(d, r).s.files)
    requires n >= r.last && LastAt(PartSets(r.parts), k, j)
    ensures SearchAnswer(v, k, n, a) <==> a.Hit? && IsNewest(Elements(r.parts[j]), k, n, a.entry)
    ensures Elements(r.parts[j]) == PartSets(r.parts)[j] <= Back(r)
  {
    ZeroAfter(d, r, v);
    LastIsVisible(r, k, n, j);
    var i := PartListed(v[0], d.s.files[0], d.s.nextFile, r.parts, j);
    if SearchAnswer(v, k, n, a) {
      AnsweredAtZero(v, k, n, i, a);
      OnlyLastPartAnswers(v[0], d.s.files[0], d.s.nextFile, r.parts, k, n, j, a.entry);
    }
    if a.Hit? && IsNewest(Elements(r.parts[j]), k, n, a.entry) {
      LastPartAnswers(v[0], d.s.files[0], d.s.nextFile, r.parts, k, n, j, a.entry);
      assert HitLevel(v, 0, k, n, a.entry);
    }
  }

  lemma {:induction false} LastIsVisible(r: Replay, k: UserKey, n: nat, j: nat)
    requires AllSeen(Back(r), n) && LastAt(PartSets(r.parts), k, j)
    ensures HasVisible(Elements(r.parts[j]), k, n)
    ensures Elements(r.parts[j]) == PartSets(r.parts)[j] <= Back(r)
  {
    var e: Entry :| e in PartSets(r.parts)[j] && e.key == k;
    assert e in Back(r);
  }

  /** A key that did not come back is answered by the files as before the crash. */
  lemma {:induction false} OldFilesAnswer(d: Disk, r: Replay, v: Version, k: UserKey, n: nat, a: Lookup)
    requires Full(d) && MayRecover(d, r) && Lists(v, Recovered(d, r).s.files)
    requires !HoldsKey(Back(r), k) && SearchAnswer(v, k, n, a)
    ensures Answers(FileContents(Recovered(d, r).s.files), k, n, a)
  {
    var files' := Recovered(d, r).s.files;
    BackRows(d.s.nextFile, r);
    BackIsNewer(d, r);
    RecoveredFiles(d.s.files, d.s.nextFile, r.parts);
    StoreReads.ListedLevels(v, files');
    StoreReads.ListedContents(v, files');
    OldNumbersByAge(d, r, v, k);
    SearchIsRight(v, k, n, a);
  }

  lemma {:induction false} OldNumbersByAge(d: Disk, r: Replay, v: Version, k: UserKey)
    requires Full(d) && MayRecover(d, r) && Lists(v, Recovered(d, r).s.files)
    requires !HoldsKey(Back(r), k)
    ensures NumbersByAgeFor(v[0], k)
  {
    RecoveredNumbersDiffer(d, r, v);
    forall i, j, e, f | 0 <= i < |v[0]| && 0 <= j < |v[0]| && v[0][i].number > v[0][j].number
      && e in v[0][i].rows && f in v[0][j].rows && e.key == f.key == k
      ensures e.seqno > f.seqno
    {
      HoldsOldKey(d, r, v, i, e);
      HoldsOldKey(d, r, v, j, f);
    }
  }

  lemma {:induction false} HoldsOldKey(d: Disk, r: Replay, v: Version, i: nat, e: Entry)
    requires Full(d) && MayRecover(d, r) && Lists(v, Recovered(d, r).s.files)
    requires i < |v[0]| && e in v[0][i].rows && !HoldsKey(Back(r), e.key)
    ensures v[0][i] in d.s.files[0]
  {
    ZeroAfter(d, r, v);
    var x := ListedOrigin(v[0], d.s.files[0], d.s.nextFile, r.parts, i);
    assert x >= 0 ==> e in Back(r);
  }

  // ----- when the answers are right

  /** The search is right for every key at every snapshot a reader can have after
      the recovery. */
  ghost predicate SearchRight(v: Version, contents: set<Entry>, last: nat) {
    forall k, n: nat, a :: n >= last && SearchAnswer(v, k, n, a) ==> Answers(contents, k, n, a)
  }

  /** After any recovery, whatever was lost and in whatever order the tables were
      written, the search returns a newest entry for every key if and only if the
      last part that holds a key holds its newest entry. */
  lemma {:induction false} RecoveryReadsIff(d: Disk, r: Replay, v: Version)
    requires Full(d) && MayRecover(d, r) && Lists(v, Recovered(d, r).s.files)
    ensures SearchRight(v, FileContents(Recovered(d, r).s.files), r.last) <==> LastIsNewest(PartSets(r.parts))
  {
    if LastIsNewest(PartSets(r.parts)) {
      forall k, n: nat, a | n >= r.last && SearchAnswer(v, k, n, a)
        ensures Answers(FileContents(Recovered(d, r).s.files), k, n, a)
      {
        RightAnswer(d, r, v, k, n, a);
      }
    } else {
      BackKey(r, 0);
      var e: Entry :| e in Union(PartSets(r.parts)) && !Tops(LastHolding(PartSets(r.parts), e.key, {}), e);
      WrongAnswer(d, r, v, e);
    }
  }

  lemma {:induction false} RightAnswer(d: Disk, r: Replay, v: Version, k: UserKey, n: nat, a: Lookup)
    requires Full(d) && MayRecover(d, r) && Lists(v, Recovered(d, r).s.files)
    requires LastIsNewest(PartSets(r.parts)) && n >= r.last && SearchAnswer(v, k, n, a)
    ensures Answers(FileContents(Recovered(d, r).s.files), k, n, a)
  {
    BackKey(r, k);
    var j := LastPlace(PartSets(r.parts), k, {});
    if j < 0 {
      OldFilesAnswer(d, r, v, k, n, a);
    } else {
      LastTops(PartSets(r.parts), k, PartSets(r.parts)[j]);
      RightAnswerOfBack(d, r, v, k, n, j, a);
    }
  }

  lemma {:induction false} LastTops(parts: seq<set<Entry>>, k: UserKey, last: set<Entry>)
    requires LastIsNewest(parts) && LastHolding(parts, k, {}) == last
    ensures AllTopped(Union(parts), k, last)
  {
  }

  ghost predicate AllTopped(es: set<Entry>, k: UserKey, last: set<Entry>) {
    forall f :: f in es && f.key == k ==> Tops(last, f)
  }

  lemma {:induction false} RightAnswerOfBack(d: Disk, r: Replay, v: Version, k: UserKey, n: nat, j: nat, a: Lookup)
    requires Full(d) && MayRecover(d, r) && Lists(v, Recovered(d, r).s.files)
    requires n >= r.last && SearchAnswer(v, k, n, a)
    requires LastAt(PartSets(r.parts), k, j) && AllTopped(Back(r), k, PartSets(r.parts)[j])
    ensures Answers(FileContents(Recovered(d, r).s.files), k, n, a)
  {
    AnswerOfBack(d, r, v, k, n, j, a);
    RecoveredContents(d, r, n);
    NewestOfAll(FileContents(d.s.files), Back(r), PartSets(r.parts)[j], k, n, a.entry);
  }

  lemma {:induction false} RecoveredContents(d: Disk, r: Replay, n: nat)
    requires Full(d) && MayRecover(d, r) && n >= r.last
    ensures FileContents(Recovered(d, r).s.files) == FileContents(d.s.files) + Back(r)
    ensures AllNewer(Back(r), FileContents(d.s.files)) && AllSeen(Back(r), n)
  {
    BackIsNewer(d, r);
    RecoveredHistory(d, r);
  }

  ghost predicate AllSeen(es: set<Entry>, n: nat) {
    forall f :: f in es ==> f.seqno <= n
  }

  lemma {:induction false} NewestOfAll(base: set<Entry>, back: set<Entry>, last: set<Entry>, k: UserKey, n: nat, e: Entry)
    requires AllNewer(back, base) && last <= back && IsNewest(last, k, n, e)
    requires AllSeen(back, n)
    requires AllTopped(back, k, last)
    ensures IsNewest(base + back, k, n, e)
  {
    forall f | f in back && Visible(f, k, n)
      ensures f.seqno <= e.seqno
    {
      assert Tops(last, f);
    }
  }

  /** An entry that is newer than all of its key in the last part hides behind it. */
  lemma {:induction false} WrongAnswer(d: Disk, r: Replay, v: Version, e: Entry)
    requires Full(d) && MayRecover(d, r) && Lists(v, Recovered(d, r).s.files)
    requires e in Back(r) && !Tops(LastHolding(PartSets(r.parts), e.key, {}), e)
    ensures !SearchRight(v, FileContents(Recovered(d, r).s.files), r.last)
  {
    var j, f := NewestOfLast(r, e);
    AnswerOfBack(d, r, v, e.key, r.last, j, Hit(f));
    RecoveredHistory(d, r);
    OlderIsWrong(v, FileContents(Recovered(d, r).s.files), r.last, e, f);
  }

  lemma {:induction false} OlderIsWrong(v: Version, contents: set<Entry>, last: nat, e: Entry, f: Entry)
    requires SearchAnswer(v, e.key, last, Hit(f)) && e in contents && f.seqno < e.seqno <= last
    ensures !SearchRight(v, contents, last)
  {
    assert Visible(e, e.key, last);
  }

  lemma {:induction false} NewestOfLast(r: Replay, e: Entry) returns (j: nat, f: Entry)
    requires e in Back(r) && !Tops(LastHolding(PartSets(r.parts), e.key, {}), e)
    requires AllSeen(Back(r), r.last)
    ensures LastAt(PartSets(r.parts), e.key, j) && IsNewest(Elements(r.parts[j]), e.key, r.last, f) && f.seqno < e.seqno
  {
    BackKey(r, e.key);
    var at := LastPlace(PartSets(r.parts), e.key, {});
    assert HoldsKey(Back(r), e.key);
    j := at;
    LastIsVisible(r, e.key, r.last, j);
    NewestExists(Elements(r.parts[j]), e.key, r.last);
    f :| IsNewest(Elements(r.parts[j]), e.key, r.last, f);
  }

  function ResultOfLookup(a: Lookup): ReadResult {
    if a.Hit? then ResultOf(a.entry) else NotFound
  }

  /** The value a read returns is right if and only if the last part that holds the
      key reads as all that came back does. */
  lemma {:induction false} RecoveredValueIff(d: Disk, r: Replay, v: Version, k: UserKey, n: nat, a: Lookup)
    requires Full(d) && MayRecover(d, r) && Lists(v, Recovered(d, r).s.files)
    requires n >= r.last && SearchAnswer(v, k, n, a)
    ensures ResultOfLookup(a) == Read(Recovered(d, r).s.written, k, n) <==>
            (HoldsKey(Back(r), k) ==> Read(LastHolding(PartSets(r.parts), k, {}), k, n) == Read(Back(r), k, n))
  {
    BackKey(r, k);
    var j := LastPlace(PartSets(r.parts), k, {});
    if j < 0 {
      OldFilesAnswer(d, r, v, k, n, a);
      RecoveredReads(d, r, k, n);
      AnswerReads(FileContents(Recovered(d, r).s.files), k, n, a);
    } else {
      AnswerOfBack(d, r, v, k, n, j, a);
      BackIsNewer(d, r);
      LastValueIff(Settled(d.s), r, k, n, j, a);
    }
  }

  lemma {:induction false} LastValueIff(settled: set<Entry>, r: Replay, k: UserKey, n: nat, j: nat, a: Lookup)
    requires UniqueTags(settled) && UniqueTags(Back(r)) && AllNewer(Back(r), settled)
    requires AllSeen(Back(r), n) && LastAt(PartSets(r.parts), k, j)
    requires LastHolding(PartSets(r.parts), k, {}) == PartSets(r.parts)[j]
    requires a.Hit? && IsNewest(Elements(r.parts[j]), k, n, a.entry)
    ensures HoldsKey(Back(r), k)
    ensures ResultOfLookup(a) == Read(settled + Back(r), k, n) <==>
            Read(LastHolding(PartSets(r.parts), k, {}), k, n) == Read(Back(r), k, n)
  {
    BackKey(r, k);
    LastIsVisible(r, k, n, j);
    AnswerReads(Elements(r.parts[j]), k, n, a);
    assert a.entry in Back(r) && HasVisible(Back(r), k, n);
    ReadWithBatch(settled, Back(r), k, n);
  }

  lemma {:induction false} RecoveredReads(d: Disk, r: Replay, k: UserKey, n: nat)
    requires Full(d) && MayRecover(d, r) && n >= r.last
    ensures Read(FileContents(Recovered(d, r).s.files), k, n) == Read(Recovered(d, r).s.written, k, n)
    ensures UniqueTags(FileContents(Recovered(d, r).s.files))
  {
    RecoveredHistory(d, r);
    assert Contents(Recovered(d, r).s) == FileContents(Recovered(d, r).s.files);
  }

  lemma {:induction false} AnswerReads(es: set<Entry>, k: UserKey, n: nat, a: Lookup)
    requires UniqueTags(es) && Answers(es, k, n, a)
    ensures Read(es, k, n) == ResultOfLookup(a)
  {
    if a.Hit? {
      ReadNewest(es, k, n, a.entry);
    } else {
      ReadNone(es, k, n);
    }
  }

  // ----- the same for the logs that were replayed

  /** Logs whose last record of each key holds its newest entry are read right,
      whatever the buffer limit; other logs are read wrong with some limit. */
  lemma {:induction false} RecoveredLogsReadIff(d: Disk, r: Replay, v: Version, logs: seq<seq<set<Entry>>>, full: set<Entry> -> bool)
    requires Full(d) && MayRecover(d, r) && Lists(v, Recovered(d, r).s.files)
    requires PartSets(r.parts) == ReplayedLogs(logs, full)
    ensures LastIsNewest(Flat(logs)) ==> SearchRight(v, FileContents(Recovered(d, r).s.files), r.last)
    ensures (forall m :: full(m)) ==>
            (SearchRight(v, FileContents(Recovered(d, r).s.files), r.last) <==> LastIsNewest(Flat(logs)))
  {
    RecoveryReadsIff(d, r, v);
    if LastIsNewest(Flat(logs)) {
      TablesLastIsNewest(logs, full);
    } else if (forall m :: full(m)) && LastIsNewest(ReplayedLogs(logs, full)) {
      RecordsLastIsNewest(logs, full);
    }
  }

  lemma {:induction false} TwoWrites(d: Disk, e: Entry, f: Entry) returns (run: seq<Disk>)
    requires Init(d.s) && d.recorded == d.s.lastSequence
    requires e.seqno == d.s.lastSequence + 1 && f.seqno == e.seqno + 1 < MAX_SEQUENCE
    ensures StoreRecovery.Run(run) && run[0] == d
    ensures run[|run| - 1] == Disk(d.s.(mem := {e, f}, written := {e, f}, lastSequence := f.seqno), d.recorded)
  {
    var one, two := Write({e}, e.seqno), Write({f}, f.seqno);
    var d1 := Next(d, one);
    var d2 := Next(d1, two);
    run := [d, d1, d2];
    assert StoreRecovery.Step(d, d1) && StoreRecovery.Step(d1, d2);
    assert {} + {e} + {f} == {e, f};
  }

  /** A log that holds them in reverse, with a limit each of them reaches. */
  lemma {:induction false} ReversedReplay(d: Disk, e: Entry, f: Entry) returns (r: Replay)
    requires d.s.mem == {e, f} == d.s.written && d.s.imm == NoImm && |d.s.files| == NUM_LEVELS
    requires d.recorded <= f.seqno < MAX_SEQUENCE && e.seqno < f.seqno
    ensures r == Replay([[f], [e]], f.seqno) && MayRecover(d, r) && Back(r) == {e, f}
    ensures Recovered(d, r).s.written == {e, f}
    ensures PartSets(r.parts) == [{f}, {e}]
  {
    r := Replay([[f], [e]], f.seqno);
    assert r.parts[0] == [f] && r.parts[1] == [e];
    assert f in r.parts[0] && e in r.parts[1];
    assert Back(r) == {e, f} by {
      assert forall x :: x in Back(r) ==> x == e || x == f;
      assert e in Back(r) && f in Back(r);
    }
    assert PartSets(r.parts)[0] == {f} && PartSets(r.parts)[1] == {e};
    assert Settled(d.s) == {};
  }

  /** After two writes of one key and a crash, recovery from a log that holds them
      in reverse, into a table each, makes Version::Get return the older one. */
  method ReversedLogBreaksGet(e: Entry, f: Entry, number: nat, ghost d: Disk)
    returns (v: Version, a: Lookup, ghost run: seq<Disk>, ghost r: Replay)
    requires Init(d.s) && d.recorded == d.s.lastSequence && d.s.nextFile == number
    requires e.key == f.key && e.seqno == d.s.lastSequence + 1 && f.seqno == e.seqno + 1 < MAX_SEQUENCE
    ensures StoreRecovery.Run(run) && Full(run[|run| - 1]) && MayRecover(run[|run| - 1], r) && r.parts == [[f], [e]]
    ensures Lists(v, Recovered(run[|run| - 1], r).s.files)
    ensures a == Hit(e) && IsNewest(Recovered(run[|run| - 1], r).s.written, e.key, r.last, f)
  {
    run := TwoWrites(d, e, f);
    ghost var crashed := run[|run| - 1];
    RunKeepsFull(run);
    r := ReversedReplay(crashed, e, f);
    v := [[Table(number, [f]), Table(number + 1, [e])], [], [], [], [], [], []];
    assert {} + OutputTables(number, r.parts) == OutputTables(number, r.parts);
    ReversedLists(e, f, number, v, Recovered(crashed, r).s.files, r.parts);
    a := Lookups.Get(v, e.key, f.seqno);
    ReversedAnswer(crashed, r, v, e, f, a);
  }

  lemma {:induction false} ReversedAnswer(d: Disk, r: Replay, v: Version, e: Entry, f: Entry, a: Lookup)
    requires Full(d) && MayRecover(d, r) && Lists(v, Recovered(d, r).s.files)
    requires r == Replay([[f], [e]], f.seqno) && PartSets(r.parts) == [{f}, {e}] && e.key == f.key
    requires SearchAnswer(v, e.key, f.seqno, a)
    ensures a == Hit(e)
  {
    assert PartSets(r.parts)[1] == {e} && e in {e};
    assert LastAt(PartSets(r.parts), e.key, 1);
    AnswerOfBack(d, r, v, e.key, f.seqno, 1, a);
    assert r.parts[1] == [e];
  }

  lemma {:induction false} ReversedLists(e: Entry, f: Entry, number: nat, v: Version, files: Files, parts: seq<seq<Entry>>)
    requires parts == [[f], [e]] && files == [OutputTables(number, parts), {}, {}, {}, {}, {}, {}]
    requires v == [[Table(number, [f]), Table(number + 1, [e])], [], [], [], [], [], []]
    ensures Lists(v, files) && NumbersDiffer(v[0])
  {
    var a: Table, b: Table := Table(number, [f]), Table(number + 1, [e]);
    assert v[0] == [a, b] && parts[0] == [f] && parts[1] == [e];
    assert OutputTables(number, parts) == {a, b};
    assert (set t | t in v[0]) == {a, b};
  }
}
