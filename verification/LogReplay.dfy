/** Replaying a log at open: records go into a memtable, and a memtable that
    grows too large becomes a level-0 table.  Level-0 reads trust larger file
    numbers to be newer, so the order of the tables matters. */
module LogReplay {
  import opened Entries

  ghost function Replayed(records: seq<set<Entry>>, mem: set<Entry>, full: set<Entry> -> bool): seq<set<Entry>>
    decreases |records|
  {
    if records == [] then (if mem == {} then [] else [mem])
    else
      var m := mem + records[0];
      if full(m) && m != {} then [m] + Replayed(records[1..], {}, full)
      else Replayed(records[1..], m, full)
  }

  /** RecoverLogFile: "full" is the write-buffer limit; an empty memtable makes
      no table. */
  method RecoverLogFile(records: seq<set<Entry>>, full: set<Entry> -> bool) returns (tables: seq<set<Entry>>)
    ensures tables == Replayed(records, {}, full)
  {
    tables := [];
    var mem: set<Entry> := {};
    var i := 0;
    while i < |records|
      invariant 0 <= i <= |records|
      invariant tables + Replayed(records[i..], mem, full) == Replayed(records, {}, full)
    {
      ghost var rest := records[i..];
      assert rest[0] == records[i] && rest[1..] == records[i + 1..];
      mem := mem + records[i];
      if full(mem) && mem != {} {
        assert tables + ([mem] + Replayed(records[i + 1..], {}, full)) == (tables + [mem]) + Replayed(records[i + 1..], {}, full);
        tables := tables + [mem];
        mem := {};
      }
      i := i + 1;
    }
    if mem != {} {
      tables := tables + [mem];
    }
  }

  ghost function Union(parts: seq<set<Entry>>): set<Entry> {
    if parts == [] then {} else parts[0] + Union(parts[1..])
  }

  /** Replay neither loses nor invents entries. */
  lemma {:induction false} ReplayKeepsEntries(records: seq<set<Entry>>, mem: set<Entry>, full: set<Entry> -> bool)
    ensures Union(Replayed(records, mem, full)) == mem + Union(records)
    decreases |records|
  {
    if records == [] {
      if mem != {} {
        assert [mem][1..] == [];
      }
    } else {
      var m := mem + records[0];
      if full(m) && m != {} {
        var rest := Replayed(records[1..], {}, full);
        ReplayKeepsEntries(records[1..], {}, full);
        assert ([m] + rest)[1..] == rest;
      } else {
        ReplayKeepsEntries(records[1..], m, full);
      }
    }
  }

  lemma {:induction false} InUnion(parts: seq<set<Entry>>, e: Entry)
    ensures e in Union(parts) <==> exists i :: 0 <= i < |parts| && e in parts[i]
  {
    if parts != [] {
      InUnion(parts[1..], e);
      if i :| 0 <= i < |parts| && e in parts[i] {
        assert i > 0 ==> parts[1..][i - 1] == parts[i];
      }
      if e in Union(parts[1..]) {
        var i :| 0 <= i < |parts[1..]| && e in parts[1..][i];
        assert parts[i + 1] == parts[1..][i];
      }
    }
  }

  /** For each user key, earlier parts hold only older entries. */
  ghost predicate InAgeOrder(parts: seq<set<Entry>>) {
    forall i, j, e, f :: 0 <= i < j < |parts| && e in parts[i] && f in parts[j] && e.key == f.key ==> e.seqno < f.seqno
  }

  ghost predicate OlderThan(mem: set<Entry>, parts: seq<set<Entry>>) {
    forall j, e, f :: 0 <= j < |parts| && e in mem && f in parts[j] && e.key == f.key ==> e.seqno < f.seqno
  }

  lemma {:induction false} OrderedLogGivesOrderedTables(records: seq<set<Entry>>, mem: set<Entry>, full: set<Entry> -> bool)
    requires InAgeOrder(records) && OlderThan(mem, records)
    ensures InAgeOrder(Replayed(records, mem, full))
    decreases |records|
  {
    if records != [] {
      var m := mem + records[0];
      var rest := records[1..];
      forall i, j, e: Entry, f: Entry | 0 <= i < j < |rest| && e in rest[i] && f in rest[j] && e.key == f.key
        ensures e.seqno < f.seqno
      {
        assert rest[i] == records[i + 1] && rest[j] == records[j + 1];
      }
      forall j, e: Entry, f: Entry | 0 <= j < |rest| && e in m && f in rest[j] && e.key == f.key
        ensures e.seqno < f.seqno
      {
        assert rest[j] == records[j + 1];
      }
      if full(m) && m != {} {
        OrderedLogGivesOrderedTables(rest, {}, full);
        TablesFollow(m, rest, full);
      } else {
        OrderedLogGivesOrderedTables(rest, m, full);
      }
    }
  }

  lemma {:induction false} TablesFollow(m: set<Entry>, rest: seq<set<Entry>>, full: set<Entry> -> bool)
    requires OlderThan(m, rest) && InAgeOrder(Replayed(rest, {}, full))
    ensures InAgeOrder([m] + Replayed(rest, {}, full))
  {
    var tables := Replayed(rest, {}, full);
    var all := [m] + tables;
    forall i, j, e: Entry, f: Entry | 0 <= i < j < |all| && e in all[i] && f in all[j] && e.key == f.key
      ensures e.seqno < f.seqno
    {
      if i == 0 {
        InUnion(tables, f);
        assert tables[j - 1] == all[j];
        ReplayKeepsEntries(rest, {}, full);
        InUnion(rest, f);
      } else {
        assert tables[i - 1] == all[i] && tables[j - 1] == all[j];
      }
    }
  }

  /** Records taken together, no two share an entry. */
  ghost predicate Separate(records: seq<set<Entry>>) {
    forall i, j :: 0 <= i < j < |records| ==> records[i] !! records[j]
  }

  /** If record i holds e and a later record j holds f, a buffer limit reached at
      e puts f in a later table. */
  lemma {:induction false} CutAfter(records: seq<set<Entry>>, mem: set<Entry>, i: nat, j: nat, e: Entry, f: Entry)
    returns (x: nat, y: nat)
    requires Separate(records) && e !in mem && f !in mem
    requires i < j < |records| && e in records[i] && f in records[j]
    ensures var tables := Replayed(records, mem, m => e in m);
            x < y < |tables| && e in tables[x] && f in tables[y]
    decreases |records|
  {
    var full := m => e in m;
    var m := mem + records[0];
    var rest := records[1..];
    assert rest[j - 1] == records[j];
    if i == 0 {
      var tables := Replayed(rest, {}, full);
      ReplayKeepsEntries(rest, {}, full);
      InUnion(rest, f);
      InUnion(tables, f);
      var t :| 0 <= t < |tables| && f in tables[t];
      assert ([m] + tables)[t + 1] == tables[t];
      x, y := 0, t + 1;
    } else {
      assert records[0] !! records[i] && records[0] !! records[j];
      forall a, b | 0 <= a < b < |rest|
        ensures rest[a] !! rest[b]
      {
        assert rest[a] == records[a + 1] && rest[b] == records[b + 1];
      }
      assert rest[i - 1] == records[i];
      x, y := CutAfter(rest, m, i - 1, j - 1, e, f);
    }
  }

  /** A buffer that fills at the right entry puts two of its tables in the wrong order. */
  lemma {:induction false} CutShowsDisorder(records: seq<set<Entry>>) returns (e: Entry)
    requires Separate(records) && !InAgeOrder(records)
    ensures !InAgeOrder(Replayed(records, {}, m => e in m))
  {
    var i, j, d, f :| 0 <= i < j < |records| && d in records[i] && f in records[j] && d.key == f.key && d.seqno >= f.seqno;
    e := d;
    var x, y := CutAfter(records, {}, i, j, e, f);
  }

  /** Concurrent writers may append in an order other than their sequence order.
      Whatever the buffer limit, replay gives tables that level-0 reads can trust
      exactly when the log itself is in sequence order for every user key. */
  lemma {:induction false} ReplayTrustedIffLogOrdered(records: seq<set<Entry>>)
    requires Separate(records)
    ensures (forall full :: InAgeOrder(Replayed(records, {}, full))) <==> InAgeOrder(records)
  {
    if InAgeOrder(records) {
      forall full: set<Entry> -> bool
        ensures InAgeOrder(Replayed(records, {}, full))
      {
        OrderedLogGivesOrderedTables(records, {}, full);
      }
    } else {
      var e := CutShowsDisorder(records);
      assert !InAgeOrder(Replayed(records, {}, m => e in m));
    }
  }

  // ----- several logs, each of which ends with a table of its own

  ghost function ReplayedLogs(logs: seq<seq<set<Entry>>>, full: set<Entry> -> bool): seq<set<Entry>> {
    if logs == [] then [] else Replayed(logs[0], {}, full) + ReplayedLogs(logs[1..], full)
  }

  ghost function Flat(logs: seq<seq<set<Entry>>>): seq<set<Entry>> {
    if logs == [] then [] else logs[0] + Flat(logs[1..])
  }

  /** The loop of DBImpl::Recover over the logs in number order. */
  method RecoverLogs(logs: seq<seq<set<Entry>>>, full: set<Entry> -> bool) returns (tables: seq<set<Entry>>)
    ensures tables == ReplayedLogs(logs, full)
  {
    tables := [];
    var i := 0;
    while i < |logs|
      invariant 0 <= i <= |logs|
      invariant tables + ReplayedLogs(logs[i..], full) == ReplayedLogs(logs, full)
    {
      ghost var rest := logs[i..];
      assert rest[0] == logs[i] && rest[1..] == logs[i + 1..];
      var more := RecoverLogFile(logs[i], full);
      assert tables + (more + ReplayedLogs(logs[i + 1..], full)) == (tables + more) + ReplayedLogs(logs[i + 1..], full);
      tables := tables + more;
      i := i + 1;
    }
  }

  lemma {:induction false} UnionConcat(a: seq<set<Entry>>, b: seq<set<Entry>>)
    ensures Union(a + b) == Union(a) + Union(b)
  {
    if a == [] {
      assert a + b == b;
    } else {
      assert (a + b)[1..] == a[1..] + b;
      UnionConcat(a[1..], b);
    }
  }

  /** Replaying several logs neither loses nor invents entries. */
  lemma {:induction false} LogsKeepEntries(logs: seq<seq<set<Entry>>>, full: set<Entry> -> bool)
    ensures Union(ReplayedLogs(logs, full)) == Union(Flat(logs))
  {
    if logs != [] {
      ReplayKeepsEntries(logs[0], {}, full);
      LogsKeepEntries(logs[1..], full);
      UnionConcat(Replayed(logs[0], {}, full), ReplayedLogs(logs[1..], full));
      UnionConcat(logs[0], Flat(logs[1..]));
    }
  }

  /** For each user key, everything in a is older than everything in b. */
  ghost predicate OlderParts(a: set<Entry>, b: set<Entry>) {
    forall e, f :: e in a && f in b && e.key == f.key ==> e.seqno < f.seqno
  }

  lemma {:induction false} OrderConcat(a: seq<set<Entry>>, b: seq<set<Entry>>)
    ensures InAgeOrder(a + b) <==> InAgeOrder(a) && InAgeOrder(b) && OlderParts(Union(a), Union(b))
  {
    var all := a + b;
    if InAgeOrder(all) {
      OrderOfParts(a, b);
    }
    if InAgeOrder(a) && InAgeOrder(b) && OlderParts(Union(a), Union(b)) {
      forall i, j, e: Entry, f: Entry | 0 <= i < j < |all| && e in all[i] && f in all[j] && e.key == f.key
        ensures e.seqno < f.seqno
      {
        if i < |a| <= j {
          InUnion(a, e);
          InUnion(b, f);
          assert all[i] == a[i] && all[j] == b[j - |a|];
        } else if i >= |a| {
          assert all[i] == b[i - |a|] && all[j] == b[j - |a|];
        }
      }
    }
  }

  lemma {:induction false} OrderOfParts(a: seq<set<Entry>>, b: seq<set<Entry>>)
    requires InAgeOrder(a + b)
    ensures InAgeOrder(a) && InAgeOrder(b) && OlderParts(Union(a), Union(b))
  {
    var all := a + b;
    assert forall i :: 0 <= i < |a| ==> all[i] == a[i];
    assert forall j :: 0 <= j < |b| ==> all[|a| + j] == b[j];
    forall i, j, e: Entry, f: Entry | 0 <= i < j < |b| && e in b[i] && f in b[j] && e.key == f.key
      ensures e.seqno < f.seqno
    {
      assert e in all[|a| + i] && f in all[|a| + j];
    }
    forall e, f | e in Union(a) && f in Union(b) && e.key == f.key
      ensures e.seqno < f.seqno
    {
      InUnion(a, e);
      InUnion(b, f);
      var i :| 0 <= i < |a| && e in a[i];
      var j :| 0 <= j < |b| && f in b[j];
      assert e in all[i] && f in all[|a| + j];
    }
  }

  /** Logs in sequence order for each key, taken together, give tables in age order. */
  lemma {:induction false} OrderedLogsGiveOrderedTables(logs: seq<seq<set<Entry>>>, full: set<Entry> -> bool)
    requires InAgeOrder(Flat(logs))
    ensures InAgeOrder(ReplayedLogs(logs, full))
  {
    if logs != [] {
      var first, rest := Replayed(logs[0], {}, full), ReplayedLogs(logs[1..], full);
      OrderConcat(logs[0], Flat(logs[1..]));
      OrderedLogGivesOrderedTables(logs[0], {}, full);
      OrderedLogsGiveOrderedTables(logs[1..], full);
      ReplayKeepsEntries(logs[0], {}, full);
      LogsKeepEntries(logs[1..], full);
      OrderConcat(first, rest);
    }
  }

  // ----- what newest-first reads make of the tables

  ghost predicate HoldsKey(es: set<Entry>, k: UserKey) {
    exists e :: e in es && e.key == k
  }

  /** The last part that holds k, or "none". */
  ghost function LastHolding(parts: seq<set<Entry>>, k: UserKey, none: set<Entry>): set<Entry> {
    if parts == [] then none
    else LastHolding(parts[1..], k, if HoldsKey(parts[0], k) then parts[0] else none)
  }

  /** An entry of e's key that is not older is there. */
  ghost predicate Tops(es: set<Entry>, e: Entry) {
    exists f :: f in es && f.key == e.key && f.seqno >= e.seqno
  }

  /** For each user key, the last part that holds it holds its newest entry. */
  ghost predicate LastIsNewest(parts: seq<set<Entry>>) {
    forall e :: e in Union(parts) ==> Tops(LastHolding(parts, e.key, {}), e)
  }

  lemma {:induction false} LastHoldingMono(parts: seq<set<Entry>>, k: UserKey, a: set<Entry>, b: set<Entry>)
    requires a <= b
    ensures LastHolding(parts, k, a) <= LastHolding(parts, k, b)
    decreases |parts|
  {
    if parts != [] {
      var p := parts[0];
      LastHoldingMono(parts[1..], k, if HoldsKey(p, k) then p else a, if HoldsKey(p, k) then p else b);
    }
  }

  lemma {:induction false} LastHoldingConcat(a: seq<set<Entry>>, b: seq<set<Entry>>, k: UserKey, none: set<Entry>)
    ensures LastHolding(a + b, k, none) == LastHolding(b, k, LastHolding(a, k, none))
    decreases |a|
  {
    if a == [] {
      assert a + b == b;
    } else {
      assert (a + b)[1..] == a[1..] + b;
      LastHoldingConcat(a[1..], b, k, if HoldsKey(a[0], k) then a[0] else none);
    }
  }

  /** The last table that holds a key takes in the last record that holds it. */
  lemma {:induction false} LastTableHasLastRecord(records: seq<set<Entry>>, mem: set<Entry>, full: set<Entry> -> bool, k: UserKey, none: set<Entry>)
    ensures LastHolding(records, k, if HoldsKey(mem, k) then mem else none) <= LastHolding(Replayed(records, mem, full), k, none)
    decreases |records|
  {
    if records == [] {
      if mem != {} {
        assert [mem][1..] == [];
      }
    } else {
      var m, rest := mem + records[0], records[1..];
      var now := if HoldsKey(m, k) then m else none;
      KeyInUnion(mem, records[0], k);
      LastHoldingMono(rest, k, if HoldsKey(records[0], k) then records[0] else if HoldsKey(mem, k) then mem else none, now);
      if full(m) && m != {} {
        LastTableHasLastRecord(rest, {}, full, k, now);
        var tables := Replayed(rest, {}, full);
        assert ([m] + tables)[1..] == tables;
      } else {
        LastTableHasLastRecord(rest, m, full, k, none);
      }
    }
  }

  lemma {:induction false} KeyInUnion(a: set<Entry>, b: set<Entry>, k: UserKey)
    ensures HoldsKey(a + b, k) <==> HoldsKey(a, k) || HoldsKey(b, k)
  {
    if e :| e in a && e.key == k {
      assert e in a + b;
    }
    if e :| e in b && e.key == k {
      assert e in a + b;
    }
  }

  lemma {:induction false} LastTableOfLogs(logs: seq<seq<set<Entry>>>, full: set<Entry> -> bool, k: UserKey, none: set<Entry>, more: set<Entry>)
    requires none <= more
    ensures LastHolding(Flat(logs), k, none) <= LastHolding(ReplayedLogs(logs, full), k, more)
    decreases |logs|
  {
    if logs != [] {
      var first, rest := Replayed(logs[0], {}, full), ReplayedLogs(logs[1..], full);
      LastHoldingConcat(logs[0], Flat(logs[1..]), k, none);
      LastHoldingConcat(first, rest, k, more);
      LastHoldingMono(logs[0], k, none, more);
      LastTableHasLastRecord(logs[0], {}, full, k, more);
      LastTableOfLogs(logs[1..], full, k, LastHolding(logs[0], k, none), LastHolding(first, k, more));
    }
  }

  /** With a buffer that is always full, every record is a table of its own. */
  lemma {:induction false} EachRecordItsTable(records: seq<set<Entry>>, full: set<Entry> -> bool, k: UserKey, none: set<Entry>)
    requires forall m :: full(m)
    ensures LastHolding(Replayed(records, {}, full), k, none) == LastHolding(records, k, none)
    decreases |records|
  {
    if records != [] {
      var m, rest := {} + records[0], records[1..];
      assert m == records[0];
      var tables := Replayed(rest, {}, full);
      assert ([m] + tables)[1..] == tables;
      EachRecordItsTable(rest, full, k, if HoldsKey(m, k) then m else none);
      assert m == {} ==> !HoldsKey(m, k);
    }
  }

  lemma {:induction false} EachRecordItsTableInLogs(logs: seq<seq<set<Entry>>>, full: set<Entry> -> bool, k: UserKey, none: set<Entry>)
    requires forall m :: full(m)
    ensures LastHolding(ReplayedLogs(logs, full), k, none) == LastHolding(Flat(logs), k, none)
    decreases |logs|
  {
    if logs != [] {
      var now := LastHolding(logs[0], k, none);
      LastHoldingConcat(logs[0], Flat(logs[1..]), k, none);
      LastHoldingConcat(Replayed(logs[0], {}, full), ReplayedLogs(logs[1..], full), k, none);
      EachRecordItsTable(logs[0], full, k, none);
      EachRecordItsTableInLogs(logs[1..], full, k, now);
    }
  }

  lemma {:induction false} TablesLastIsNewest(logs: seq<seq<set<Entry>>>, full: set<Entry> -> bool)
    requires LastIsNewest(Flat(logs))
    ensures LastIsNewest(ReplayedLogs(logs, full))
  {
    LogsKeepEntries(logs, full);
    forall e | e in Union(ReplayedLogs(logs, full))
      ensures Tops(LastHolding(ReplayedLogs(logs, full), e.key, {}), e)
    {
      LastTableOfLogs(logs, full, e.key, {}, {});
    }
  }

  lemma {:induction false} RecordsLastIsNewest(logs: seq<seq<set<Entry>>>, full: set<Entry> -> bool)
    requires (forall m :: full(m)) && LastIsNewest(ReplayedLogs(logs, full))
    ensures LastIsNewest(Flat(logs))
  {
    LogsKeepEntries(logs, full);
    forall e | e in Union(Flat(logs))
      ensures Tops(LastHolding(Flat(logs), e.key, {}), e)
    {
      EachRecordItsTableInLogs(logs, full, e.key, {});
    }
  }

  ghost predicate TablesReadRight(logs: seq<seq<set<Entry>>>, full: set<Entry> -> bool) {
    LastIsNewest(ReplayedLogs(logs, full))
  }

  /** Whatever the buffer limit, the last table that holds a key holds its newest
      entry, if and only if the same is true of the records of the logs. */
  lemma {:induction false} ReplayReadsIff(logs: seq<seq<set<Entry>>>)
    ensures (forall full :: TablesReadRight(logs, full)) <==> LastIsNewest(Flat(logs))
  {
    if LastIsNewest(Flat(logs)) {
      forall full: set<Entry> -> bool
        ensures TablesReadRight(logs, full)
      {
        TablesLastIsNewest(logs, full);
      }
    } else {
      var each := (m: set<Entry>) => true;
      if TablesReadRight(logs, each) {
        RecordsLastIsNewest(logs, each);
      }
    }
  }

  /** A log out of sequence order can still be read right, whatever the limit. */
  lemma {:induction false} DisorderCanBeHarmless(e: Entry, f: Entry, g: Entry)
    requires e.key == f.key == g.key && e.seqno < f.seqno < g.seqno
    ensures !InAgeOrder([{f}, {e}, {g}]) && LastIsNewest([{f}, {e}, {g}])
  {
    var records := [{f}, {e}, {g}];
    assert f in records[0] && e in records[1] && g in records[2];
    assert records == [{f}, {e}] + [records[2]];
    LastHoldingConcat([{f}, {e}], [records[2]], e.key, {});
    assert HoldsKey(records[2], e.key);
    assert LastHolding(records, e.key, {}) == records[2];
    forall x | x in Union(records)
      ensures Tops(LastHolding(records, x.key, {}), x)
    {
      InUnion(records, x);
      assert x == e || x == f || x == g;
    }
  }

  /** A log that has the newer entry first is out of order. */
  lemma {:induction false} ReversedDisorder(parts: seq<set<Entry>>, e: Entry, f: Entry)
    requires parts == [{f}, {e}] && e.key == f.key && e.seqno < f.seqno
    ensures !InAgeOrder(parts)
  {
    assert f in parts[0] && e in parts[1];
  }

  /** And it is read wrong. */
  lemma {:induction false} ReversedReadsWrong(parts: seq<set<Entry>>, e: Entry, f: Entry)
    requires parts == [{f}, {e}] && e.key == f.key && e.seqno < f.seqno
    ensures !LastIsNewest(parts)
  {
    assert f in parts[0] && e in parts[1];
    InUnion(parts, f);
    var front, back := parts[..1], parts[1..];
    assert parts == front + back;
    LastHoldingConcat(front, back, f.key, {});
    LastOfOne(back, e);
  }

  lemma {:induction false} LastOfOne(parts: seq<set<Entry>>, e: Entry)
    requires |parts| == 1 && parts[0] == {e}
    ensures forall none :: LastHolding(parts, e.key, none) == {e}
  {
    assert e in parts[0] && parts[1..] == [];
    forall none: set<Entry>
      ensures LastHolding(parts, e.key, none) == {e}
    {
      assert LastHolding(parts[1..], e.key, parts[0]) == parts[0];
    }
  }
}
