/** Where the replay of a log ends one table and begins the next. */
module ReplayCuts {
  import opened Entries
  import opened LogReplay

  /** The first k records fill the write buffer. */
  ghost predicate Closes(records: seq<set<Entry>>, full: set<Entry> -> bool, k: int)
    requires 0 <= k <= |records|
  {
    Union(records[..k]) != {} && full(Union(records[..k]))
  }

  /** The first n records make a table: no fewer of them fill the buffer, and they do, or
      there are no more. */
  ghost predicate Makes(records: seq<set<Entry>>, full: set<Entry> -> bool, n: int, table: set<Entry>) {
    && 0 < n <= |records|
    && table == Union(records[..n]) != {}
    && (forall k :: 0 < k < n ==> !Closes(records, full, k))
    && (Closes(records, full, n) || n == |records|)
  }

  /** The records, in order, make these tables; what is left over holds nothing. */
  ghost predicate Make(records: seq<set<Entry>>, full: set<Entry> -> bool, tables: seq<set<Entry>>)
    decreases |tables|
  {
    if tables == [] then Union(records) == {}
    else exists n :: Makes(records, full, n, tables[0]) && Make(records[n..], full, tables[1..])
  }

  lemma {:induction false} UnionFirst(records: seq<set<Entry>>, k: int)
    requires 0 < k <= |records|
    ensures Union(records[..k]) == records[0] + Union(records[1..][..k - 1])
  {
    assert records[..k][1..] == records[1..][..k - 1];
  }

  /** Records that do not fill the buffer go into the memtable. */
  lemma {:induction false} ReplayOn(records: seq<set<Entry>>, mem: set<Entry>, full: set<Entry> -> bool, n: nat)
    requires n <= |records|
    requires forall k :: 0 < k <= n ==> mem + Union(records[..k]) == {} || !full(mem + Union(records[..k]))
    ensures Replayed(records, mem, full) == Replayed(records[n..], mem + Union(records[..n]), full)
    decreases n
  {
    if n == 0 {
      assert records[0..] == records && mem + {} == mem;
    } else {
      var m, rest := mem + records[0], records[1..];
      UnionFirst(records, 1);
      assert mem + Union(records[..1]) == m;
      forall k | 0 < k <= n - 1
        ensures m + Union(rest[..k]) == {} || !full(m + Union(rest[..k]))
      {
        UnionFirst(records, k + 1);
        assert m + Union(rest[..k]) == mem + Union(records[..k + 1]);
      }
      ReplayOn(rest, m, full, n - 1);
      UnionFirst(records, n);
      assert rest[n - 1..] == records[n..] && m + Union(rest[..n - 1]) == mem + Union(records[..n]);
    }
  }

  lemma {:induction false} UnionLast(records: seq<set<Entry>>, n: int)
    requires 0 < n <= |records|
    ensures Union(records[..n]) == Union(records[..n - 1]) + records[n - 1]
    decreases n
  {
    if n > 1 {
      UnionFirst(records, n);
      UnionFirst(records, n - 1);
      UnionLast(records[1..], n - 1);
      assert records[1..][..n - 1] == records[1..n] && records[1..][..n - 2] == records[1..n - 1];
    } else {
      UnionFirst(records, 1);
    }
  }

  /** Up to the first record that fills the buffer. */
  lemma {:induction false} ReplayToCut(records: seq<set<Entry>>, full: set<Entry> -> bool, n: nat)
    requires 0 < n <= |records| && Closes(records, full, n) && forall k :: 0 < k < n ==> !Closes(records, full, k)
    ensures Replayed(records, {}, full) == [Union(records[..n])] + Replayed(records[n..], {}, full)
  {
    var mem := Union(records[..n - 1]);
    forall k | 0 < k <= n - 1
      ensures {} + Union(records[..k]) == {} || !full({} + Union(records[..k]))
    {
      assert !Closes(records, full, k) && {} + Union(records[..k]) == Union(records[..k]);
    }
    ReplayOn(records, {}, full, n - 1);
    assert {} + mem == mem;
    UnionLast(records, n);
    assert records[n - 1..][0] == records[n - 1] && records[n - 1..][1..] == records[n..];
  }

  lemma {:induction false} ReplayWithoutCut(records: seq<set<Entry>>, full: set<Entry> -> bool)
    requires forall k :: 0 < k <= |records| ==> !Closes(records, full, k)
    ensures Replayed(records, {}, full) == if Union(records) == {} then [] else [Union(records)]
  {
    forall k | 0 < k <= |records|
      ensures {} + Union(records[..k]) == {} || !full({} + Union(records[..k]))
    {
      assert !Closes(records, full, k) && {} + Union(records[..k]) == Union(records[..k]);
    }
    ReplayOn(records, {}, full, |records|);
    assert records[..|records|] == records && {} + Union(records) == Union(records);
  }

  lemma {:induction false} FirstCut(records: seq<set<Entry>>, full: set<Entry> -> bool) returns (n: nat)
    ensures 0 < n <= |records| + 1 && forall k :: 0 < k < n ==> !Closes(records, full, k)
    ensures n <= |records| ==> Closes(records, full, n)
  {
    n := 1;
    while n <= |records| && !Closes(records, full, n)
      invariant 0 < n <= |records| + 1 && forall k :: 0 < k < n ==> !Closes(records, full, k)
    {
      n := n + 1;
    }
  }

  lemma {:induction false} ReplayMakes(records: seq<set<Entry>>, full: set<Entry> -> bool)
    ensures Make(records, full, Replayed(records, {}, full))
    decreases |records|
  {
    var n := FirstCut(records, full);
    var tables := Replayed(records, {}, full);
    if n <= |records| {
      ReplayToCut(records, full, n);
      ReplayMakes(records[n..], full);
      assert tables[1..] == Replayed(records[n..], {}, full);
      assert Makes(records, full, n, tables[0]);
    } else {
      ReplayWithoutCut(records, full);
      if tables != [] {
        assert records[..|records|] == records && records[|records|..] == [];
        assert Makes(records, full, |records|, tables[0]) && Make([], full, []);
        assert tables[1..] == [];
      }
    }
  }

  lemma {:induction false} UnionOfFront(records: seq<set<Entry>>, k: nat)
    requires k <= |records|
    ensures Union(records[..k]) <= Union(records)
  {
    forall e | e in Union(records[..k])
      ensures e in Union(records)
    {
      InUnion(records[..k], e);
      InUnion(records, e);
      var i :| 0 <= i < k && e in records[..k][i];
      assert records[i] == records[..k][i];
    }
  }

  lemma {:induction false} NoCutOfNothing(records: seq<set<Entry>>, full: set<Entry> -> bool)
    requires Union(records) == {}
    ensures forall k :: 0 < k <= |records| ==> !Closes(records, full, k)
  {
    forall k | 0 < k <= |records|
      ensures !Closes(records, full, k)
    {
      UnionOfFront(records, k);
    }
  }

  lemma {:induction false} MadeIsReplay(records: seq<set<Entry>>, full: set<Entry> -> bool, tables: seq<set<Entry>>)
    requires Make(records, full, tables)
    ensures tables == Replayed(records, {}, full)
    decreases |tables|
  {
    if tables == [] {
      NoCutOfNothing(records, full);
      ReplayWithoutCut(records, full);
    } else {
      var n :| Makes(records, full, n, tables[0]) && Make(records[n..], full, tables[1..]);
      MadeIsReplay(records[n..], full, tables[1..]);
      if Closes(records, full, n) {
        ReplayToCut(records, full, n);
      } else {
        assert records[..n] == records && records[n..] == [];
        ReplayWithoutCut(records, full);
      }
      assert tables == [tables[0]] + tables[1..];
    }
  }

  /** The tables that a log makes, by its records and the limit alone. */
  lemma {:induction false} ReplayCutsIff(records: seq<set<Entry>>, full: set<Entry> -> bool, tables: seq<set<Entry>>)
    ensures tables == Replayed(records, {}, full) <==> Make(records, full, tables)
  {
    ReplayMakes(records, full);
    if Make(records, full, tables) {
      MadeIsReplay(records, full, tables);
    }
  }
}
