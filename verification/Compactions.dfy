/** Merge compaction: which entries DoCompactionWork keeps, and why no live
    snapshot can tell. */
module Compactions {
  import opened Entries
  import opened Levels

  /** The state IsBaseLevelForKey keeps while the inputs are scanned once in
      key order. */
  class Compaction {
    const level: nat
    const version: Version
    const levelPtrs: array<nat>

    constructor (level: nat, version: Version)
      requires ValidVersion(version)
      ensures this.level == level && this.version == version
      ensures fresh(levelPtrs)
      ensures Valid()
      ensures forall k :: Behind(k)
    {
      this.level := level;
      this.version := version;
      levelPtrs := new nat[NUM_LEVELS](i => 0);
    }

    ghost predicate Valid()
      reads levelPtrs
    {
      && ValidVersion(version)
      && levelPtrs.Length == NUM_LEVELS
      && forall l :: 0 <= l < NUM_LEVELS ==> levelPtrs[l] <= |version[l]|
    }

    /** Every table a pointer has moved past ends before k. */
    ghost predicate Behind(k: UserKey)
      requires Valid()
      reads levelPtrs
    {
      forall l, i :: 0 <= l < NUM_LEVELS && 0 <= i < levelPtrs[l] ==> version[l][i].Hi() < k
    }

    /** Asked for keys in nondecreasing order, the cached pointers give the same
        answer as a scan of every table in the deeper levels. */
    method IsBaseLevelForKey(k: UserKey) returns (base: bool)
      requires Valid() && Behind(k)
      modifies levelPtrs
      ensures Valid() && Behind(k)
      ensures base <==> IsBaseLevel(version, level, k)
    {
      var lvl := level + 2;
      while lvl < NUM_LEVELS
        invariant level + 2 <= lvl
        invariant Valid() && Behind(k)
        invariant forall l, i :: level + 2 <= l < lvl && l < NUM_LEVELS && 0 <= i < |version[l]|
                    ==> !InRange(version[l][i], k)
      {
        var files := version[lvl];
        while levelPtrs[lvl] < |files|
          invariant Valid() && Behind(k)
          invariant levelPtrs[lvl] < |files| || forall i :: 0 <= i < |files| ==> files[i].Hi() < k
          decreases |files| - levelPtrs[lvl]
        {
          var f := files[levelPtrs[lvl]];
          if k <= f.Hi() {
            if k >= f.Lo() {
              return false;
            }
            assert forall i :: levelPtrs[lvl] < i < |files| ==> f.Hi() < files[i].Lo();
            break;
          }
          levelPtrs[lvl] := levelPtrs[lvl] + 1;
        }
        assert forall i :: 0 <= i < |files| ==> !InRange(files[i], k);
        lvl := lvl + 1;
      }
      return true;
    }
  }

  /** What a compaction decides with: the version its deeper levels come from,
      its level, the oldest live snapshot and the manual garbage cutoff. */
  datatype Rules = Rules(version: Version, level: nat, smallestSnapshot: nat, garbageCutoff: nat)

  /** Sequence of the entry just before input[i] if it has the same user key;
      the sentinel when input[i] is the first entry of its key. */
  function PrevSequence(input: seq<Entry>, i: nat): nat
    requires i < |input|
  {
    if i > 0 && input[i - 1].key == input[i].key then input[i - 1].seqno else MAX_SEQUENCE
  }

  /** The drop rule, stated on the whole input and the whole version. */
  ghost predicate Drops(r: Rules, input: seq<Entry>, i: nat)
    requires |r.version| == NUM_LEVELS
    requires i < |input|
  {
    var e := input[i];
    && (|| PrevSequence(input, i) <= r.smallestSnapshot
        || (e.kind.Deletion? && e.seqno <= r.smallestSnapshot && IsBaseLevel(r.version, r.level, e.key)))
    && !(PrevSequence(input, i) == MAX_SEQUENCE && e.seqno >= r.garbageCutoff)
  }

  /** The entries of the first n inputs that survive, in order. */
  ghost function Kept(r: Rules, input: seq<Entry>, n: nat): seq<Entry>
    requires |r.version| == NUM_LEVELS
    requires n <= |input|
  {
    if n == 0 then []
    else Kept(r, input, n - 1) + (if Drops(r, input, n - 1) then [] else [input[n - 1]])
  }

  ghost function Concat(tables: seq<seq<Entry>>): seq<Entry> {
    if tables == [] then [] else Concat(tables[..|tables| - 1]) + tables[|tables| - 1]
  }

  /** An output table is closed as soon as it is full, never earlier. */
  ghost predicate ClosedWhenFull(full: seq<Entry> -> bool, t: seq<Entry>) {
    && |t| > 0
    && full(t)
    && forall n :: 0 < n < |t| ==> !full(t[..n])
  }

  lemma {:induction false} ConcatAppend(tables: seq<seq<Entry>>, t: seq<Entry>)
    ensures Concat(tables + [t]) == Concat(tables) + t
  {
    assert (tables + [t])[..|tables|] == tables;
  }

  /** The finished tables were closed when full, and the open one is not full yet. */
  ghost predicate Filling(full: seq<Entry> -> bool, outputs: seq<seq<Entry>>, builder: seq<Entry>) {
    && (forall t :: 0 <= t < |outputs| ==> ClosedWhenFull(full, outputs[t]))
    && NeverFull(full, builder)
  }

  ghost predicate NeverFull(full: seq<Entry> -> bool, t: seq<Entry>) {
    forall n :: 0 < n <= |t| ==> !full(t[..n])
  }

  lemma {:induction false} FillingAdd(full: seq<Entry> -> bool, outputs: seq<seq<Entry>>, builder: seq<Entry>, e: Entry)
    requires Filling(full, outputs, builder)
    ensures if full(builder + [e]) then Filling(full, outputs + [builder + [e]], [])
            else Filling(full, outputs, builder + [e])
  {
    var more := builder + [e];
    assert forall n :: 0 < n <= |builder| ==> more[..n] == builder[..n];
    assert more[..|more|] == more;
  }

  // ----- which entries stay, in terms of the input, the snapshots and the levels below

  /** Another input entry of the user key is newer. */
  ghost predicate HasNewer(input: seq<Entry>, e: Entry) {
    exists f :: f in input && f.key == e.key && f.seqno > e.seqno
  }

  /** The oldest snapshot sees another, newer input entry of the user key instead. */
  ghost predicate Shadowed(input: seq<Entry>, e: Entry, smallestSnapshot: nat) {
    exists f :: f in input && f.key == e.key && e.seqno < f.seqno <= smallestSnapshot
  }

  /** A table two or more levels down may hold the user key. */
  ghost predicate MayBeBelow(v: Version, level: nat, k: UserKey) {
    exists l, t :: level + 2 <= l < |v| && t in v[l] && t.Lo() <= k <= t.Hi()
  }

  /** The newest entry of a key stays unless it is a deletion that every snapshot sees,
      has nothing to hide below and is older than the garbage cutoff.  A later entry
      stays if some snapshot needs it, and a deletion only if it has something to hide. */
  ghost predicate Stays(v: Version, level: nat, smallestSnapshot: nat, garbageCutoff: nat, input: seq<Entry>, e: Entry) {
    if !HasNewer(input, e) then
      e.kind.Put? || e.seqno > smallestSnapshot || e.seqno >= garbageCutoff || MayBeBelow(v, level, e.key)
    else
      && !Shadowed(input, e, smallestSnapshot)
      && (e.kind.Put? || e.seqno > smallestSnapshot || MayBeBelow(v, level, e.key))
  }

  ghost predicate Numbered(input: seq<Entry>) {
    forall i :: 0 <= i < |input| ==> input[i].seqno < MAX_SEQUENCE
  }

  lemma {:induction false} PrevIsNewest(input: seq<Entry>, i: nat)
    requires Sorted(input) && Numbered(input) && i < |input|
    ensures PrevSequence(input, i) == MAX_SEQUENCE <==> !HasNewer(input, input[i])
    ensures forall n: nat :: n < MAX_SEQUENCE ==> (PrevSequence(input, i) <= n <==> Shadowed(input, input[i], n))
  {
    if i > 0 && input[i - 1].key == input[i].key {
      assert Before(input[i - 1], input[i]) && input[i - 1] in input;
    }
    assert forall j :: i < j < |input| ==> Before(input[i], input[j]);
    assert forall j :: 0 <= j < i - 1 ==> Before(input[j], input[i - 1]) && Before(input[i - 1], input[i]);
    forall f | f in input && f.key == input[i].key && f.seqno > input[i].seqno
      ensures i > 0 && input[i - 1].key == input[i].key && input[i - 1].seqno <= f.seqno
    {
      var j :| 0 <= j < |input| && input[j] == f;
      assert j < i;
    }
  }

  lemma {:induction false} BaseMeansNotBelow(v: Version, level: nat, k: UserKey)
    requires |v| == NUM_LEVELS
    ensures IsBaseLevel(v, level, k) <==> !MayBeBelow(v, level, k)
  {
    if l, i :| level + 2 <= l < NUM_LEVELS && 0 <= i < |v[l]| && InRange(v[l][i], k) {
      assert v[l][i] in v[l];
    }
  }

  lemma {:induction false} DropsIffNotStays(r: Rules, input: seq<Entry>, i: nat)
    requires |r.version| == NUM_LEVELS && Sorted(input) && Numbered(input) && r.smallestSnapshot < MAX_SEQUENCE
    requires i < |input|
    ensures Drops(r, input, i) <==> !Stays(r.version, r.level, r.smallestSnapshot, r.garbageCutoff, input, input[i])
  {
    PrevIsNewest(input, i);
    BaseMeansNotBelow(r.version, r.level, input[i].key);
    assert PrevSequence(input, i) <= r.smallestSnapshot <==> Shadowed(input, input[i], r.smallestSnapshot);
  }

  /** An entry of the input is in the output if and only if it stays. */
  lemma {:induction false} KeptIffStays(r: Rules, input: seq<Entry>, e: Entry)
    requires |r.version| == NUM_LEVELS && Sorted(input) && Numbered(input) && r.smallestSnapshot < MAX_SEQUENCE
    ensures e in Kept(r, input, |input|) <==>
            e in input && Stays(r.version, r.level, r.smallestSnapshot, r.garbageCutoff, input, e)
  {
    KeptElements(r, input, |input|, e);
    if e in input {
      var i :| 0 <= i < |input| && input[i] == e;
      DropsIffNotStays(r, input, i);
    }
    if e in Kept(r, input, |input|) {
      var i :| 0 <= i < |input| && input[i] == e && !Drops(r, input, i);
      DropsIffNotStays(r, input, i);
    }
  }

  /** The compaction loop. "full" says when the table being written has reached
      the size limit; it depends on the encoded size, so it is a parameter. */
  method DoCompactionWork(c: Compaction, input: seq<Entry>, smallestSnapshot: nat,
                          garbageCutoff: nat, full: seq<Entry> -> bool)
    returns (outputs: seq<seq<Entry>>)
    requires c.Valid() && (input != [] ==> c.Behind(input[0].key))
    requires Sorted(input)
    modifies c.levelPtrs
    ensures Concat(outputs)
         == Kept(Rules(c.version, c.level, smallestSnapshot, garbageCutoff), input, |input|)
    ensures Numbered(input) && smallestSnapshot < MAX_SEQUENCE ==>
              forall e :: e in Concat(outputs) <==>
                e in input && Stays(c.version, c.level, smallestSnapshot, garbageCutoff, input, e)
    ensures Sorted(Concat(outputs))
    ensures forall t :: 0 <= t < |outputs| ==> outputs[t] != []
    ensures forall t :: 0 <= t < |outputs| - 1 ==> ClosedWhenFull(full, outputs[t])
    ensures outputs != [] ==> ClosedWhenFull(full, outputs[|outputs| - 1]) || NeverFull(full, outputs[|outputs| - 1])
  {
    ghost var rules := Rules(c.version, c.level, smallestSnapshot, garbageCutoff);
    outputs := [];
    var builder: seq<Entry> := [];
    var hasCurrentUserKey := false;
    var currentUserKey: UserKey := 0;
    var lastSequenceForKey := MAX_SEQUENCE;
    var i := 0;
    while i < |input|
      invariant 0 <= i <= |input|
      invariant c.Valid()
      invariant i < |input| ==> c.Behind(input[i].key)
      invariant hasCurrentUserKey <==> i > 0
      invariant i > 0 ==> currentUserKey == input[i - 1].key && lastSequenceForKey == input[i - 1].seqno
      invariant Concat(outputs) + builder == Kept(rules, input, i)
      invariant Filling(full, outputs, builder)
    {
      var e := input[i];
      var drop := false;
      if !hasCurrentUserKey || e.key != currentUserKey {
        currentUserKey := e.key;
        hasCurrentUserKey := true;
        lastSequenceForKey := MAX_SEQUENCE;
      }
      if lastSequenceForKey <= smallestSnapshot {
        drop := true;
      } else if e.kind.Deletion? && e.seqno <= smallestSnapshot {
        drop := c.IsBaseLevelForKey(e.key);
      }
      if drop && lastSequenceForKey == MAX_SEQUENCE && e.seqno >= garbageCutoff {
        drop := false;
      }
      lastSequenceForKey := e.seqno;
      assert drop == Drops(rules, input, i);

      if !drop {
        FillingAdd(full, outputs, builder, e);
        builder := builder + [e];
        if full(builder) {
          ConcatAppend(outputs, builder);
          outputs := outputs + [builder];
          builder := [];
        }
      }
      i := i + 1;
      assert i < |input| ==> Before(input[i - 1], input[i]);
    }
    if builder != [] {
      ConcatAppend(outputs, builder);
      outputs := outputs + [builder];
    }
    KeptSorted(rules, input, |input|);
    if Numbered(input) && smallestSnapshot < MAX_SEQUENCE {
      forall e
        ensures e in Concat(outputs) <==> e in input && Stays(c.version, c.level, smallestSnapshot, garbageCutoff, input, e)
      {
        KeptIffStays(rules, input, e);
      }
    }
  }

  lemma {:induction false} KeptElements(r: Rules, input: seq<Entry>, n: nat, e: Entry)
    requires |r.version| == NUM_LEVELS
    requires n <= |input|
    ensures e in Kept(r, input, n) <==> exists i :: 0 <= i < n && input[i] == e && !Drops(r, input, i)
  {
    if n > 0 {
      KeptElements(r, input, n - 1, e);
      if e in Kept(r, input, n) && e !in Kept(r, input, n - 1) {
        assert input[n - 1] == e && !Drops(r, input, n - 1);
      }
    }
  }

  lemma {:induction false} SortedPosition(s: seq<Entry>, x: nat, y: nat)
    requires Sorted(s)
    requires x < |s| && y < |s| && Before(s[x], s[y])
    ensures x < y
  {
  }

  lemma {:induction false} KeptSorted(r: Rules, input: seq<Entry>, n: nat)
    requires |r.version| == NUM_LEVELS
    requires n <= |input|
    requires Sorted(input)
    ensures Sorted(Kept(r, input, n))
  {
    if n > 0 {
      KeptSorted(r, input, n - 1);
      var front := Kept(r, input, n - 1);
      forall i | 0 <= i < |front|
        ensures Before(front[i], input[n - 1])
      {
        KeptElements(r, input, n - 1, front[i]);
      }
    }
  }

  /** An entry hidden by a newer one at or below the oldest snapshot is dropped,
      unless it is the first of its key. */
  lemma {:induction false} OlderIsDropped(r: Rules, input: seq<Entry>, i: nat, j: nat)
    requires |r.version| == NUM_LEVELS
    requires Sorted(input)
    requires i < j < |input| && input[i].key == input[j].key
    requires input[i].seqno <= r.smallestSnapshot < MAX_SEQUENCE
    ensures Drops(r, input, j)
  {
  }

  /** Outside the inputs, a key the compaction treats as base-level occurs only
      in newer entries. */
  ghost predicate RestIsNewer(r: Rules, input: seq<Entry>, rest: set<Entry>)
    requires |r.version| == NUM_LEVELS
  {
    forall i, f :: 0 <= i < |input| && f in rest && f.key == input[i].key && IsBaseLevel(r.version, r.level, f.key)
      ==> f.seqno > input[i].seqno
  }

  /** Compaction preserves meaning: at every snapshot not older than the oldest
      live one, replacing the inputs by what is kept changes no read. */
  lemma {:induction false} CompactionPreservesReads(r: Rules, input: seq<Entry>, rest: set<Entry>, k: UserKey, snapshot: nat)
    requires |r.version| == NUM_LEVELS
    requires Sorted(input)
    requires UniqueTags(Elements(input) + rest)
    requires RestIsNewer(r, input, rest)
    requires r.smallestSnapshot < MAX_SEQUENCE
    requires r.smallestSnapshot <= snapshot
    ensures Read(Elements(Kept(r, input, |input|)) + rest, k, snapshot) == Read(Elements(input) + rest, k, snapshot)
  {
    var all := Elements(input) + rest;
    var kept := Elements(Kept(r, input, |input|));
    forall e | e in kept
      ensures e in all
    {
      KeptElements(r, input, |input|, e);
    }
    if e :| IsNewest(all, k, snapshot, e) && e !in kept + rest {
      DroppedNewestIsObsolete(r, input, rest, k, snapshot, e);
      ReadNewest(all, k, snapshot, e);
      ReadNone(kept + rest, k, snapshot);
    } else {
      ReadSubset(kept + rest, all, k, snapshot);
    }
  }

  /** If the newest visible entry is dropped, it was a deletion and nothing of
      its key is left to show through. */
  lemma {:induction false} DroppedNewestIsObsolete(r: Rules, input: seq<Entry>, rest: set<Entry>, k: UserKey, snapshot: nat, e: Entry)
    requires |r.version| == NUM_LEVELS
    requires Sorted(input)
    requires RestIsNewer(r, input, rest)
    requires r.smallestSnapshot < MAX_SEQUENCE
    requires r.smallestSnapshot <= snapshot
    requires IsNewest(Elements(input) + rest, k, snapshot, e)
    requires e !in Elements(Kept(r, input, |input|)) + rest
    ensures e.kind.Deletion?
    ensures !HasVisible(Elements(Kept(r, input, |input|)) + rest, k, snapshot)
  {
    var all := Elements(input) + rest;
    var i :| 0 <= i < |input| && input[i] == e;
    KeptElements(r, input, |input|, e);
    assert Drops(r, input, i);
    if PrevSequence(input, i) <= r.smallestSnapshot {
      var p := input[i - 1];
      assert Before(p, e);
      assert p in all && Visible(p, k, snapshot);
      assert false;
    }
    forall f | f in Elements(Kept(r, input, |input|)) + rest && Visible(f, k, snapshot)
      ensures false
    {
      if f !in rest {
        KeptElements(r, input, |input|, f);
        var j :| 0 <= j < |input| && input[j] == f && !Drops(r, input, j);
        assert f in all && (j < i ==> Before(f, e));
        if j > i {
          OlderIsDropped(r, input, i, j);
        }
      }
    }
  }

  /** With the sentinel value as oldest snapshot the loop drops live data, so
      the bound above is needed. */
  lemma {:induction false} SentinelSnapshotLosesData(v: Version)
    requires |v| == NUM_LEVELS
    ensures var e := Entry(0, 1, Put, "v");
            var r := Rules(v, 0, MAX_SEQUENCE, 2);
            && Read(Elements([e]), 0, MAX_SEQUENCE) == Found("v")
            && Read(Elements(Kept(r, [e], 1)), 0, MAX_SEQUENCE) == NotFound
  {
    var e := Entry(0, 1, Put, "v");
    assert e in [e];
    assert IsNewest(Elements([e]), 0, MAX_SEQUENCE, e);
    ReadNewest(Elements([e]), 0, MAX_SEQUENCE, e);
    assert Kept(Rules(v, 0, MAX_SEQUENCE, 2), [e], 0) == [];
    ReadNone({}, 0, MAX_SEQUENCE);
    assert Elements([]) == {};
  }

  // ----- where output tables may be split

  ghost predicate OnePerKey(s: seq<Entry>) {
    forall i, j :: 0 <= i < j < |s| ==> s[i].key != s[j].key
  }

  /** No user key has entries in two tables. */
  ghost predicate KeyAligned(tables: seq<seq<Entry>>) {
    forall t, u, a, b :: 0 <= t < u < |tables| && a in tables[t] && b in tables[u] ==> a.key != b.key
  }

  ghost predicate SplitOf(tables: seq<seq<Entry>>, s: seq<Entry>) {
    Concat(tables) == s && forall t :: 0 <= t < |tables| ==> tables[t] != []
  }

  /** With no snapshot older than the inputs, one entry per user key is left. */
  lemma {:induction false} NoSnapshotLeavesOnePerKey(r: Rules, input: seq<Entry>)
    requires |r.version| == NUM_LEVELS
    requires Sorted(input)
    requires r.smallestSnapshot < MAX_SEQUENCE
    requires forall i :: 0 <= i < |input| ==> input[i].seqno <= r.smallestSnapshot
    ensures OnePerKey(Kept(r, input, |input|))
  {
    var kept := Kept(r, input, |input|);
    KeptSorted(r, input, |input|);
    forall i, j | 0 <= i < j < |kept|
      ensures kept[i].key != kept[j].key
    {
      KeptElements(r, input, |input|, kept[i]);
      KeptElements(r, input, |input|, kept[j]);
      var x :| 0 <= x < |input| && input[x] == kept[i] && !Drops(r, input, x);
      var y :| 0 <= y < |input| && input[y] == kept[j] && !Drops(r, input, y);
      assert Before(kept[i], kept[j]);
      if kept[i].key == kept[j].key {
        SortedPosition(input, x, y);
        OlderIsDropped(r, input, x, y);
      }
    }
  }

  /** The size limit may cut the output anywhere; every cut keeps user keys
      apart exactly when the output holds one entry per key. */
  lemma {:induction false} EverySplitSafeIffOnePerKey(s: seq<Entry>)
    requires Sorted(s)
    ensures (forall tables :: SplitOf(tables, s) ==> KeyAligned(tables)) <==> OnePerKey(s)
  {
    if OnePerKey(s) {
      forall tables | SplitOf(tables, s)
        ensures KeyAligned(tables)
      {
        SplitOfDistinct(tables, s);
      }
    } else {
      var i, j :| 0 <= i < j < |s| && s[i].key == s[j].key;
      assert Before(s[i], s[i + 1]) && (i + 1 < j ==> Before(s[i + 1], s[j]));
      UnsafeCut(s, i);
    }
  }

  /** Behind a newer entry that the oldest snapshot does not see, an entry goes only if it
      is an old deletion at the key's base level. */
  ghost predicate PairCollapses(r: Rules, input: seq<Entry>, i: nat)
    requires |r.version| == NUM_LEVELS && 0 < i < |input|
  {
    input[i - 1].key == input[i].key && input[i - 1].seqno > r.smallestSnapshot ==>
      input[i].kind.Deletion? && input[i].seqno <= r.smallestSnapshot && IsBaseLevel(r.version, r.level, input[i].key)
  }

  /** Which inputs leave one entry per user key, whatever the size limit. */
  lemma {:induction false} KeptOnePerKeyIff(r: Rules, input: seq<Entry>)
    requires |r.version| == NUM_LEVELS && Sorted(input) && r.smallestSnapshot < MAX_SEQUENCE
    requires forall i :: 0 <= i < |input| ==> input[i].seqno < MAX_SEQUENCE
    ensures OnePerKey(Kept(r, input, |input|)) <==> forall i: nat :: 0 < i < |input| ==> PairCollapses(r, input, i)
  {
    var kept := Kept(r, input, |input|);
    KeptSorted(r, input, |input|);
    if forall i: nat :: 0 < i < |input| ==> PairCollapses(r, input, i) {
      forall a, b | 0 <= a < b < |kept|
        ensures kept[a].key != kept[b].key
      {
        KeptElements(r, input, |input|, kept[a]);
        KeptElements(r, input, |input|, kept[b]);
        var x :| 0 <= x < |input| && input[x] == kept[a] && !Drops(r, input, x);
        var y :| 0 <= y < |input| && input[y] == kept[b] && !Drops(r, input, y);
        assert Before(kept[a], kept[b]);
        if kept[a].key == kept[b].key {
          SortedPosition(input, x, y);
          LaterIsDropped(r, input, x, y);
        }
      }
    } else {
      var i: nat :| 0 < i < |input| && !PairCollapses(r, input, i);
      TwoAreKept(r, input, i);
    }
  }

  lemma {:induction false} LaterIsDropped(r: Rules, input: seq<Entry>, x: nat, y: nat)
    requires |r.version| == NUM_LEVELS && Sorted(input) && r.smallestSnapshot < MAX_SEQUENCE
    requires forall i :: 0 <= i < |input| ==> input[i].seqno < MAX_SEQUENCE
    requires x < y < |input| && input[x].key == input[y].key && PairCollapses(r, input, y)
    ensures Drops(r, input, y)
  {
    assert Before(input[y - 1], input[y]) && (x < y - 1 ==> Before(input[x], input[y - 1]));
    assert input[y - 1].key == input[y].key;
  }

  lemma {:induction false} TwoAreKept(r: Rules, input: seq<Entry>, i: nat)
    requires |r.version| == NUM_LEVELS && Sorted(input) && r.smallestSnapshot < MAX_SEQUENCE
    requires forall i :: 0 <= i < |input| ==> input[i].seqno < MAX_SEQUENCE
    requires 0 < i < |input| && !PairCollapses(r, input, i)
    ensures !OnePerKey(Kept(r, input, |input|))
  {
    var kept, f := Kept(r, input, |input|), FirstOfKey(input, i);
    assert !Drops(r, input, i) && !Drops(r, input, f);
    KeptElements(r, input, |input|, input[i]);
    KeptElements(r, input, |input|, input[f]);
    var a :| 0 <= a < |kept| && kept[a] == input[f];
    var b :| 0 <= b < |kept| && kept[b] == input[i];
    assert Before(input[f], input[i]);
    assert a != b;
  }

  /** The first entry of a key; it is at least as new as any other. */
  ghost function FirstOfKey(input: seq<Entry>, i: nat): (f: nat)
    requires 0 < i < |input| && Sorted(input) && input[i - 1].key == input[i].key
    ensures f < i && input[f].key == input[i].key && input[f].seqno >= input[i - 1].seqno
    ensures f == 0 || input[f - 1].key != input[f].key
    decreases i
  {
    if i == 1 || input[i - 2].key != input[i - 1].key then i - 1
    else assert Before(input[i - 2], input[i - 1]); FirstOfKey(input, i - 1)
  }

  /** So the size limit keeps user keys apart, wherever it cuts, exactly for these inputs. */
  lemma {:induction false} EverySplitSafeIff(r: Rules, input: seq<Entry>)
    requires |r.version| == NUM_LEVELS && Sorted(input) && r.smallestSnapshot < MAX_SEQUENCE
    requires forall i :: 0 <= i < |input| ==> input[i].seqno < MAX_SEQUENCE
    ensures (forall tables :: SplitOf(tables, Kept(r, input, |input|)) ==> KeyAligned(tables)) <==>
            forall i: nat :: 0 < i < |input| ==> PairCollapses(r, input, i)
  {
    KeptSorted(r, input, |input|);
    EverySplitSafeIffOnePerKey(Kept(r, input, |input|));
    KeptOnePerKeyIff(r, input);
  }

  /** The loop does make two tables of one user key: a snapshot between two versions, and
      a limit that the first reaches and the others do not. */
  method LoopSplitsKey(c: Compaction, newer: Entry, older: Entry, x: Entry, snapshot: nat, cutoff: nat, full: seq<Entry> -> bool)
    returns (outputs: seq<seq<Entry>>)
    requires c.Valid() && c.Behind(newer.key)
    requires newer.key == older.key < x.key && older.kind.Put? && x.kind.Put?
    requires older.seqno <= snapshot < newer.seqno < MAX_SEQUENCE && x.seqno < MAX_SEQUENCE
    requires full([newer]) && !full([older]) && !full([older, x])
    modifies c.levelPtrs
    ensures outputs == [[newer], [older, x]]
  {
    var input := [newer, older, x];
    ghost var r := Rules(c.version, c.level, snapshot, cutoff);
    assert !Drops(r, input, 0) && !Drops(r, input, 1) && !Drops(r, input, 2);
    assert Kept(r, input, 0) == [] && Kept(r, input, 1) == [newer];
    assert Kept(r, input, 2) == [newer, older] && Kept(r, input, 3) == [newer, older, x];
    outputs := DoCompactionWork(c, input, snapshot, cutoff, full);
    FirstAlone(full, outputs, newer, older, x);
  }

  lemma {:induction false} ConcatFront(tables: seq<seq<Entry>>)
    requires tables != []
    ensures Concat(tables) == tables[0] + Concat(tables[1..])
    decreases |tables|
  {
    var n := |tables| - 1;
    if n == 0 {
      assert tables[..0] == [] && tables[1..] == [];
      assert Concat(tables[..0]) == [];
    } else {
      ConcatFront(tables[..n]);
      assert tables[..n][1..] == tables[1..][..n - 1] && tables[1..][n - 1] == tables[n];
      assert Concat(tables[1..]) == Concat(tables[1..][..n - 1]) + tables[n];
    }
  }

  lemma {:induction false} FirstAlone(full: seq<Entry> -> bool, outputs: seq<seq<Entry>>, a: Entry, b: Entry, c: Entry)
    requires Concat(outputs) == [a, b, c] && (forall t :: 0 <= t < |outputs| ==> outputs[t] != [])
    requires forall t :: 0 <= t < |outputs| - 1 ==> ClosedWhenFull(full, outputs[t])
    requires outputs != [] ==> ClosedWhenFull(full, outputs[|outputs| - 1]) || NeverFull(full, outputs[|outputs| - 1])
    requires full([a]) && !full([b]) && !full([b, c])
    ensures outputs == [[a], [b, c]]
  {
    ConcatFront(outputs);
    var first, rest := outputs[0], outputs[1..];
    assert first == [a, b, c][..|first|];
    assert first[..1] == [a];
    assert first == [a];
    assert Concat(rest) == [a, b, c][1..] == [b, c];
    LastTwo(full, rest, b, c);
    assert outputs == [first] + rest;
  }

  lemma {:induction false} LastTwo(full: seq<Entry> -> bool, outputs: seq<seq<Entry>>, b: Entry, c: Entry)
    requires Concat(outputs) == [b, c] && (forall t :: 0 <= t < |outputs| ==> outputs[t] != [])
    requires forall t :: 0 <= t < |outputs| - 1 ==> ClosedWhenFull(full, outputs[t])
    requires !full([b]) && !full([b, c])
    ensures outputs == [[b, c]]
  {
    ConcatFront(outputs);
    var first, rest := outputs[0], outputs[1..];
    assert first == [b, c][..|first|];
    assert |first| == 1 ==> first == [b];
    assert |first| == 2 ==> first == [b, c];
    assert rest == [];
  }

  lemma {:induction false} UnsafeCut(s: seq<Entry>, i: nat)
    requires i + 1 < |s| && s[i].key == s[i + 1].key
    ensures exists tables :: SplitOf(tables, s) && !KeyAligned(tables)
  {
    var a, b := s[..i + 1], s[i + 1..];
    assert [a, b][..1] == [a];
    assert Concat([a]) == a;
    assert SplitOf([a, b], s);
    assert a[i] in a && b[0] in b;
    assert [a, b][0] == a && [a, b][1] == b;
    assert !KeyAligned([a, b]);
  }

  lemma {:induction false} DistinctAcross(front: seq<Entry>, last: seq<Entry>, a: Entry, b: Entry)
    requires OnePerKey(front + last) && a in front && b in last
    ensures a.key != b.key
  {
    var x :| 0 <= x < |front| && front[x] == a;
    var y :| 0 <= y < |last| && last[y] == b;
    assert (front + last)[x] == a && (front + last)[|front| + y] == b;
  }

  lemma {:induction false} SplitOfDistinct(tables: seq<seq<Entry>>, s: seq<Entry>)
    requires Concat(tables) == s
    requires OnePerKey(s)
    ensures KeyAligned(tables)
    decreases |tables|
  {
    if tables != [] {
      var n := |tables| - 1;
      var front := Concat(tables[..n]);
      assert forall x :: 0 <= x < |front| ==> front[x] == s[x];
      SplitOfDistinct(tables[..n], front);
      forall t, u, a, b | 0 <= t < u < |tables| && a in tables[t] && b in tables[u]
        ensures a.key != b.key
      {
        if u == n {
          assert tables[..n][t] == tables[t];
          ConcatHas(tables[..n], t, a);
          DistinctAcross(front, tables[n], a, b);
        } else {
          assert tables[..n][t] == tables[t] && tables[..n][u] == tables[u];
        }
      }
    }
  }

  lemma {:induction false} ConcatHas(tables: seq<seq<Entry>>, t: nat, e: Entry)
    requires t < |tables| && e in tables[t]
    ensures e in Concat(tables)
    decreases |tables|
  {
    var n := |tables| - 1;
    if t < n {
      assert tables[..n][t] == tables[t];
      ConcatHas(tables[..n], t, e);
    }
  }
}
