/** Table files and the seven levels of a version. */
module Levels {
  import opened Entries

  const NUM_LEVELS: nat := 7
  const MAX_MEM_COMPACT_LEVEL: nat := 2

  /** A table file: its number and the entries it serves, in internal-key order. */
  datatype RawTable = Table(number: nat, rows: seq<Entry>) {

    function Smallest(): Entry
      requires rows != []
    {
      rows[0]
    }

    function Largest(): Entry
      requires rows != []
    {
      rows[|rows| - 1]
    }

    function Lo(): UserKey
      requires rows != []
    {
      rows[0].key
    }

    function Hi(): UserKey
      requires rows != []
    {
      rows[|rows| - 1].key
    }

    ghost function Contents(): set<Entry> {
      Elements(rows)
    }
  }

  /** A table is only ever installed with at least one entry. */
  type Table = t: RawTable | t.rows != [] witness Table(0, [Entry(0, 0, Put, "")])

  predicate InRange(t: Table, k: UserKey) {
    t.Lo() <= k <= t.Hi()
  }

  predicate Overlaps(t: Table, lo: UserKey, hi: UserKey) {
    t.Lo() <= hi && lo <= t.Hi()
  }

  lemma {:induction false} RowsInRange(t: Table, e: Entry)
    requires Sorted(t.rows)
    requires e in t.rows
    ensures InRange(t, e.key)
  {
  }

  /** Levels above zero: tables listed in key order, no user key in two of them. */
  ghost predicate Disjoint(files: seq<Table>) {
    forall i, j :: 0 <= i < j < |files| ==> files[i].Hi() < files[j].Lo()
  }

  ghost predicate AllSorted(files: seq<Table>) {
    forall i :: 0 <= i < |files| ==> Sorted(files[i].rows)
  }

  type Version = seq<seq<Table>>

  ghost predicate ValidVersion(v: Version) {
    && |v| == NUM_LEVELS
    && (forall l :: 0 <= l < NUM_LEVELS ==> AllSorted(v[l]))
    && (forall l :: 1 <= l < NUM_LEVELS ==> Disjoint(v[l]))
  }

  /** The full scan that IsBaseLevelForKey answers with cached pointers: no
      table two or more levels below the compaction can hold the key. */
  ghost predicate IsBaseLevel(v: Version, level: nat, k: UserKey)
    requires |v| == NUM_LEVELS
  {
    forall l, i :: level + 2 <= l < NUM_LEVELS && 0 <= i < |v[l]| ==> !InRange(v[l][i], k)
  }
}
