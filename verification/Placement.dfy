/** Where a flushed memtable may go: range overlap tests and the level choice. */
module Placement {
  import opened Entries
  import opened Levels
  import opened Lookups

  datatype Bound = Unbounded | Key(key: UserKey)

  /** "t" meets the user-key range from "lo" to "hi". */
  predicate Meets(t: Table, lo: Bound, hi: Bound) {
    !(lo.Key? && lo.key > t.Hi()) && !(hi.Key? && hi.key < t.Lo())
  }

  /** Binary search over sorted disjoint tables, or a scan otherwise; either way
      the answer is whether some table meets the range. */
  method SomeFileOverlapsRange(disjointSorted: bool, files: seq<Table>, lo: Bound, hi: Bound)
    returns (overlap: bool)
    requires AllSorted(files)
    requires disjointSorted ==> Disjoint(files)
    ensures overlap <==> exists i :: 0 <= i < |files| && Meets(files[i], lo, hi)
  {
    if !disjointSorted {
      var i := 0;
      while i < |files|
        invariant 0 <= i <= |files|
        invariant forall j :: 0 <= j < i ==> !Meets(files[j], lo, hi)
      {
        var f := files[i];
        if (lo.Key? && lo.key > f.Hi()) || (hi.Key? && hi.key < f.Lo()) {
        } else {
          return true;
        }
        i := i + 1;
      }
      return false;
    }

    var index := 0;
    if lo.Key? {
      index := FindFile(files, lo.key, MAX_SEQUENCE);
    }
    forall j | index < j < |files| && Meets(files[j], lo, hi)
      ensures Meets(files[index], lo, hi)
    {
      RowsInRange(files[index], files[index].Largest());
      assert files[index].Hi() < files[j].Lo();
    }
    if index >= |files| {
      return false;
    }
    return !(hi.Key? && hi.key < files[index].Lo());
  }

  ghost predicate LevelOverlaps(files: seq<Table>, lo: UserKey, hi: UserKey) {
    exists t :: t in files && Overlaps(t, lo, hi)
  }

  /** The deepest level, at most two, such that no level down to it overlaps. */
  ghost function QuietLevel(v: Version, lo: UserKey, hi: UserKey): nat
    requires |v| == NUM_LEVELS
  {
    if LevelOverlaps(v[0], lo, hi) || LevelOverlaps(v[1], lo, hi) then 0
    else if LevelOverlaps(v[2], lo, hi) then 1
    else 2
  }

  method PickLevelForMemTableOutput(v: Version, lo: UserKey, hi: UserKey) returns (level: nat)
    requires ValidVersion(v)
    ensures level == QuietLevel(v, lo, hi)
  {
    level := 0;
    var overlap := SomeFileOverlapsRange(false, v[0], Key(lo), Key(hi));
    MeetsIsOverlap(v[0], lo, hi);
    if !overlap {
      while level < MAX_MEM_COMPACT_LEVEL
        invariant 0 <= level <= MAX_MEM_COMPACT_LEVEL
        invariant forall l :: 0 <= l <= level ==> !LevelOverlaps(v[l], lo, hi)
      {
        overlap := SomeFileOverlapsRange(true, v[level + 1], Key(lo), Key(hi));
        MeetsIsOverlap(v[level + 1], lo, hi);
        if overlap {
          break;
        }
        level := level + 1;
      }
    }
  }

  lemma {:induction false} MeetsIsOverlap(files: seq<Table>, lo: UserKey, hi: UserKey)
    ensures (exists i :: 0 <= i < |files| && Meets(files[i], Key(lo), Key(hi))) <==> LevelOverlaps(files, lo, hi)
  {
    if i :| 0 <= i < |files| && Meets(files[i], Key(lo), Key(hi)) {
      assert files[i] in files && Overlaps(files[i], lo, hi);
    }
    if t :| t in files && Overlaps(t, lo, hi) {
      var i :| 0 <= i < |files| && files[i] == t;
      assert Meets(files[i], Key(lo), Key(hi));
    }
  }

  /** The level a flush installs at: the quiet level, raised past locked levels. */
  function Unlocked(level: nat, locked: set<nat>): (r: nat)
    ensures r <= level
    ensures r == 0 || r !in locked
    ensures forall l :: r < l <= level ==> l in locked
  {
    if level > 0 && level in locked then Unlocked(level - 1, locked) else level
  }

  /** WriteLevel0Table's choice of level. */
  method ChooseFlushLevel(v: Version, locked: array<bool>, lo: UserKey, hi: UserKey) returns (level: nat)
    requires ValidVersion(v)
    requires locked.Length == NUM_LEVELS
    ensures level == Unlocked(QuietLevel(v, lo, hi), set l | 0 <= l < NUM_LEVELS && locked[l])
  {
    level := PickLevelForMemTableOutput(v, lo, hi);
    ghost var held := set l | 0 <= l < NUM_LEVELS && locked[l];
    while level > 0 && locked[level]
      invariant level <= MAX_MEM_COMPACT_LEVEL
      invariant Unlocked(level, held) == Unlocked(QuietLevel(v, lo, hi), held)
    {
      level := level - 1;
    }
  }
}
