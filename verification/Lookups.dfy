/** Point reads: the binary search over a level and the level-by-level Get. */
module Lookups {
  import opened Entries
  import opened Levels

  datatype Lookup = Miss | Hit(entry: Entry)

  /** How many leading rows sort before the lookup key (k, snapshot). */
  function SeekRow(rows: seq<Entry>, k: UserKey, snapshot: nat): (n: nat)
    ensures n <= |rows|
    ensures forall i :: 0 <= i < n ==> BeforeKey(rows[i], k, snapshot)
    ensures n < |rows| ==> !BeforeKey(rows[n], k, snapshot)
  {
    if rows == [] || !BeforeKey(rows[0], k, snapshot) then 0
    else 1 + SeekRow(rows[1..], k, snapshot)
  }

  /** A table reports its first row at or after the lookup key, and the caller
      keeps it only if the user key matches. */
  function TableGet(t: Table, k: UserKey, snapshot: nat): Lookup {
    var n := SeekRow(t.rows, k, snapshot);
    if n < |t.rows| && t.rows[n].key == k then Hit(t.rows[n]) else Miss
  }

  /** "r" is the right answer for a read of k at the snapshot in "es". */
  ghost predicate Answers(es: set<Entry>, k: UserKey, snapshot: nat, r: Lookup) {
    match r
    case Hit(e) => IsNewest(es, k, snapshot, e)
    case Miss => !HasVisible(es, k, snapshot)
  }

  lemma {:induction false} TableGetAnswers(t: Table, k: UserKey, snapshot: nat)
    requires Sorted(t.rows)
    ensures Answers(t.Contents(), k, snapshot, TableGet(t, k, snapshot))
  {
  }

  /** A key outside a table's range has no row there. */
  lemma {:induction false} OutOfRangeMisses(t: Table, k: UserKey, snapshot: nat)
    requires Sorted(t.rows)
    requires !InRange(t, k)
    ensures Answers(t.Contents(), k, snapshot, Miss)
  {
  }

  /** First table whose largest key is at or after (k, snapshot). */
  method FindFile(files: seq<Table>, k: UserKey, snapshot: nat) returns (right: nat)
    requires AllSorted(files) && Disjoint(files)
    ensures right <= |files|
    ensures forall i :: 0 <= i < right ==> BeforeKey(files[i].Largest(), k, snapshot)
    ensures forall i :: right <= i < |files| ==> !BeforeKey(files[i].Largest(), k, snapshot)
  {
    var left := 0;
    right := |files|;
    while left < right
      invariant 0 <= left <= right <= |files|
      invariant forall i :: 0 <= i < left ==> BeforeKey(files[i].Largest(), k, snapshot)
      invariant forall i :: right <= i < |files| ==> !BeforeKey(files[i].Largest(), k, snapshot)
    {
      var mid := (left + right) / 2;
      forall i, j | 0 <= i < j < |files|
        ensures files[i].Hi() < files[j].Hi()
      {
        RowsInRange(files[j], files[j].Largest());
      }
      if BeforeKey(files[mid].Largest(), k, snapshot) {
        left := mid + 1;
      } else {
        right := mid;
      }
    }
  }

  ghost predicate InLevel(files: seq<Table>, e: Entry) {
    exists i :: 0 <= i < |files| && e in files[i].rows
  }

  ghost function LevelContents(files: seq<Table>): set<Entry> {
    set i, e | 0 <= i < |files| && e in files[i].rows :: e
  }

  ghost function VersionContents(v: Version): set<Entry> {
    set l, i, e | 0 <= l < |v| && 0 <= i < |v[l]| && e in v[l][i].rows :: e
  }

  /** For one user key, a lower level is newer than a deeper one. */
  ghost predicate LevelsByAge(v: Version) {
    forall l, m, e, f :: 0 <= l < m < |v| && InLevel(v[l], e) && InLevel(v[m], f) && e.key == f.key
      ==> e.seqno > f.seqno
  }

  ghost predicate NumbersDiffer(files: seq<Table>) {
    forall i, j :: 0 <= i < j < |files| ==> files[i].number != files[j].number
  }

  /** For one user key, a level-0 table with a larger number is newer. */
  ghost predicate NumbersByAge(files: seq<Table>) {
    && NumbersDiffer(files)
    && (forall i, j, e, f :: 0 <= i < |files| && 0 <= j < |files| && files[i].number > files[j].number
          && e in files[i].rows && f in files[j].rows && e.key == f.key
          ==> e.seqno > f.seqno)
  }

  /** The same for one user key alone. */
  ghost predicate LevelsByAgeFor(v: Version, k: UserKey) {
    forall l, m, e, f :: 0 <= l < m < |v| && InLevel(v[l], e) && InLevel(v[m], f) && e.key == f.key == k
      ==> e.seqno > f.seqno
  }

  ghost predicate NumbersByAgeFor(files: seq<Table>, k: UserKey) {
    && NumbersDiffer(files)
    && (forall i, j, e, f :: 0 <= i < |files| && 0 <= j < |files| && files[i].number > files[j].number
          && e in files[i].rows && f in files[j].rows && e.key == f.key == k
          ==> e.seqno > f.seqno)
  }

  ghost predicate NewestFirst(files: seq<Table>) {
    forall i, j :: 0 <= i < j < |files| ==> files[i].number > files[j].number
  }

  method InsertByNumber(tmp: seq<Table>, f: Table) returns (r: seq<Table>)
    requires NewestFirst(tmp)
    requires forall q :: 0 <= q < |tmp| ==> tmp[q].number != f.number
    ensures NewestFirst(r)
    ensures forall t :: t in r <==> t in tmp || t == f
  {
    var p := 0;
    while p < |tmp| && tmp[p].number > f.number
      invariant 0 <= p <= |tmp|
      invariant forall q :: 0 <= q < p ==> tmp[q].number > f.number
    {
      p := p + 1;
    }
    assert tmp == tmp[..p] + tmp[p..];
    r := tmp[..p] + [f] + tmp[p..];
  }

  /** The level-0 tables covering k, newest first. */
  method NewestCovering(files: seq<Table>, k: UserKey) returns (tmp: seq<Table>)
    requires NumbersDiffer(files)
    ensures NewestFirst(tmp)
    ensures forall t :: t in tmp <==> t in files && InRange(t, k)
  {
    tmp := [];
    var i := 0;
    while i < |files|
      invariant 0 <= i <= |files|
      invariant NewestFirst(tmp)
      invariant forall t :: t in tmp <==> t in files[..i] && InRange(t, k)
    {
      var f := files[i];
      assert files[..i + 1] == files[..i] + [f];
      if f.Lo() <= k <= f.Hi() {
        forall q | 0 <= q < |tmp|
          ensures tmp[q].number != f.number
        {
          assert tmp[q] in files[..i];
        }
        tmp := InsertByNumber(tmp, f);
      }
      i := i + 1;
    }
    assert files[..|files|] == files;
  }

  /** What trying the tables newest number first comes to: the answer of the
      table with the largest number that has a visible entry of the key. */
  ghost predicate ZeroAnswer(files: seq<Table>, k: UserKey, snapshot: nat, r: Lookup) {
    match r
    case Hit(e) => exists i :: HitAt(files, i, k, snapshot, e)
    case Miss => !HasVisible(LevelContents(files), k, snapshot)
  }

  ghost predicate HitAt(files: seq<Table>, i: int, k: UserKey, snapshot: nat, e: Entry) {
    && 0 <= i < |files|
    && IsNewest(files[i].Contents(), k, snapshot, e)
    && forall j :: 0 <= j < |files| && files[j].number > files[i].number ==> !HasVisible(files[j].Contents(), k, snapshot)
  }

  /** Level 0: try every covering table, newest first, and stop at the first
      answer. */
  method GetLevelZero(files: seq<Table>, k: UserKey, snapshot: nat) returns (r: Lookup)
    requires AllSorted(files) && NumbersDiffer(files)
    ensures ZeroAnswer(files, k, snapshot, r)
    ensures NumbersByAge(files) ==> Answers(LevelContents(files), k, snapshot, r)
  {
    var tmp := NewestCovering(files, k);
    var i := 0;
    while i < |tmp|
      invariant 0 <= i <= |tmp|
      invariant forall j :: 0 <= j < i ==> Answers(tmp[j].Contents(), k, snapshot, Miss)
    {
      assert tmp[i] in tmp;
      TableGetAnswers(tmp[i], k, snapshot);
      r := TableGet(tmp[i], k, snapshot);
      if r.Hit? {
        LevelZeroHit(files, tmp, i, k, snapshot, r.entry);
        if NumbersByAge(files) {
          ZeroAnswerIsRight(files, k, snapshot, r);
        }
        return;
      }
      i := i + 1;
    }
    forall j, e | 0 <= j < |files| && e in files[j].rows
      ensures !Visible(e, k, snapshot)
    {
      if !InRange(files[j], k) {
        OutOfRangeMisses(files[j], k, snapshot);
      }
      assert files[j] in files && e in files[j].Contents();
    }
    return Miss;
  }

  lemma {:induction false} LevelZeroHit(files: seq<Table>, tmp: seq<Table>, i: nat, k: UserKey, snapshot: nat, e: Entry)
    requires AllSorted(files)
    requires NewestFirst(tmp) && forall t :: t in tmp <==> t in files && InRange(t, k)
    requires i < |tmp|
    requires forall j :: 0 <= j < i ==> Answers(tmp[j].Contents(), k, snapshot, Miss)
    requires Answers(tmp[i].Contents(), k, snapshot, Hit(e))
    ensures ZeroAnswer(files, k, snapshot, Hit(e))
  {
    assert tmp[i] in tmp;
    var x :| 0 <= x < |files| && files[x] == tmp[i];
    assert forall p :: i < p < |tmp| ==> tmp[p].number < tmp[i].number;
    forall j | 0 <= j < |files| && files[j].number > files[x].number
      ensures !HasVisible(files[j].Contents(), k, snapshot)
    {
      if !InRange(files[j], k) {
        OutOfRangeMisses(files[j], k, snapshot);
      } else {
        assert files[j] in tmp;
      }
    }
    assert HitAt(files, x, k, snapshot, e);
  }

  /** If larger numbers are newer for the key, that is the newest visible entry of the level. */
  lemma {:induction false} ZeroAnswerIsRight(files: seq<Table>, k: UserKey, snapshot: nat, r: Lookup)
    requires NumbersByAgeFor(files, k) && ZeroAnswer(files, k, snapshot, r)
    ensures Answers(LevelContents(files), k, snapshot, r)
  {
    if r.Hit? {
      var i :| HitAt(files, i, k, snapshot, r.entry);
      forall j, f | 0 <= j < |files| && f in files[j].rows && Visible(f, k, snapshot)
        ensures f.seqno <= r.entry.seqno
      {
        assert f in files[j].Contents();
        assert HasVisible(files[j].Contents(), k, snapshot);
        assert i != j ==> files[i].number != files[j].number;
      }
    }
  }

  /** A deeper level: binary search, then at most one table. */
  method GetLevel(files: seq<Table>, k: UserKey, snapshot: nat) returns (r: Lookup)
    requires AllSorted(files) && Disjoint(files)
    ensures Answers(LevelContents(files), k, snapshot, r)
  {
    var index := FindFile(files, k, snapshot);
    if index >= |files| || k < files[index].Lo() {
      r := Miss;
    } else {
      TableGetAnswers(files[index], k, snapshot);
      r := TableGet(files[index], k, snapshot);
    }
    forall i, e | 0 <= i < |files| && e in files[i].rows && Visible(e, k, snapshot)
      ensures i == index < |files| && k >= files[index].Lo()
    {
      OnlyCandidate(files, k, snapshot, index, i, e);
    }
    assert forall e :: e in LevelContents(files) && Visible(e, k, snapshot) ==> e in files[index].Contents();
    assert r.Hit? ==> r.entry in files[index].rows;
  }

  /** A visible row can only sit in the table FindFile returns. */
  lemma {:induction false} OnlyCandidate(files: seq<Table>, k: UserKey, snapshot: nat, index: nat, i: nat, e: Entry)
    requires AllSorted(files) && Disjoint(files)
    requires index <= |files| && i < |files|
    requires forall j :: 0 <= j < index ==> BeforeKey(files[j].Largest(), k, snapshot)
    requires forall j :: index <= j < |files| ==> !BeforeKey(files[j].Largest(), k, snapshot)
    requires e in files[i].rows && Visible(e, k, snapshot)
    ensures i == index < |files| && k >= files[index].Lo()
  {
    assert index < i ==> files[index].Hi() < files[i].Lo();
    RowsInRange(files[i], e);
    var x :| 0 <= x < |files[i].rows| && files[i].rows[x] == e;
    assert x < |files[i].rows| - 1 ==> Before(e, files[i].Largest());
    assert i >= index;
  }

  /** What the whole search comes to: the answer of the first level that has a
      visible entry of the key. */
  ghost predicate SearchAnswer(v: Version, k: UserKey, snapshot: nat, r: Lookup) {
    match r
    case Hit(e) => exists l :: HitLevel(v, l, k, snapshot, e)
    case Miss => !HasVisible(VersionContents(v), k, snapshot)
  }

  ghost predicate HitLevel(v: Version, l: int, k: UserKey, snapshot: nat, e: Entry) {
    && 0 <= l < |v|
    && (if l == 0 then ZeroAnswer(v[0], k, snapshot, Hit(e)) else IsNewest(LevelContents(v[l]), k, snapshot, e))
    && forall m :: 0 <= m < l ==> !HasVisible(LevelContents(v[m]), k, snapshot)
  }

  /** Version::Get, on any version: no assumption about ages. */
  method Get(v: Version, k: UserKey, snapshot: nat) returns (r: Lookup)
    requires ValidVersion(v) && NumbersDiffer(v[0])
    ensures SearchAnswer(v, k, snapshot, r)
    ensures LevelsByAge(v) && NumbersByAge(v[0]) ==> Answers(VersionContents(v), k, snapshot, r)
  {
    var level := 0;
    while level < NUM_LEVELS
      invariant 0 <= level <= NUM_LEVELS
      invariant forall l :: 0 <= l < level ==> !HasVisible(LevelContents(v[l]), k, snapshot)
    {
      if level == 0 {
        r := GetLevelZero(v[0], k, snapshot);
      } else {
        r := GetLevel(v[level], k, snapshot);
      }
      if r.Hit? {
        assert HitLevel(v, level, k, snapshot, r.entry);
        if LevelsByAge(v) && NumbersByAge(v[0]) {
          SearchIsRight(v, k, snapshot, r);
        }
        return;
      }
      level := level + 1;
    }
    forall e | e in VersionContents(v)
      ensures !Visible(e, k, snapshot)
    {
      var l, i :| 0 <= l < |v| && 0 <= i < |v[l]| && e in v[l][i].rows;
      assert e in LevelContents(v[l]);
    }
    return Miss;
  }

  /** If lower levels and larger level-0 numbers are newer for the key, the search returns the
      newest visible entry of all files, and misses only when none is visible. */
  lemma {:induction false} SearchIsRight(v: Version, k: UserKey, snapshot: nat, r: Lookup)
    requires ValidVersion(v) && LevelsByAgeFor(v, k) && NumbersByAgeFor(v[0], k)
    requires SearchAnswer(v, k, snapshot, r)
    ensures Answers(VersionContents(v), k, snapshot, r)
  {
    if r.Hit? {
      var l :| HitLevel(v, l, k, snapshot, r.entry);
      if l == 0 {
        ZeroAnswerIsRight(v[0], k, snapshot, r);
      }
      LevelHit(v, l, k, snapshot, r.entry);
    }
  }

  lemma {:induction false} LevelHit(v: Version, level: nat, k: UserKey, snapshot: nat, e: Entry)
    requires ValidVersion(v) && LevelsByAgeFor(v, k)
    requires level < NUM_LEVELS
    requires forall l :: 0 <= l < level ==> !HasVisible(LevelContents(v[l]), k, snapshot)
    requires IsNewest(LevelContents(v[level]), k, snapshot, e)
    ensures IsNewest(VersionContents(v), k, snapshot, e)
  {
    assert InLevel(v[level], e);
    assert e in VersionContents(v);
    forall f | f in VersionContents(v) && Visible(f, k, snapshot)
      ensures f.seqno <= e.seqno
    {
      var l, i :| 0 <= l < |v| && 0 <= i < |v[l]| && f in v[l][i].rows;
      assert f in LevelContents(v[l]) && InLevel(v[l], f);
    }
  }
}
