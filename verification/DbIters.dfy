/** The user-facing iterator: one position per visible user key, moving both
    ways over an internal iterator that shows every version. */
module DbIters {
  import opened Entries
  import Lookups
  import opened InternalIters

  datatype Cursor = Nowhere | At(key: UserKey, value: Value)

  datatype Saved = Cleared | Saved(key: UserKey)

  // ----- what a cursor over the visible map must do

  ghost predicate Shows(es: set<Entry>, snapshot: nat, c: Cursor) {
    c.At? ==> Read(es, c.key, snapshot) == Found(c.value)
  }

  ghost predicate Absent(es: set<Entry>, snapshot: nat, k: UserKey) {
    Read(es, k, snapshot) == NotFound
  }

  /** "c" is the first visible key at or after lo. */
  ghost predicate FirstFrom(es: set<Entry>, snapshot: nat, lo: UserKey, c: Cursor) {
    && Shows(es, snapshot, c)
    && (c.At? ==> lo <= c.key)
    && forall k :: lo <= k && (c.At? ==> k < c.key) ==> Absent(es, snapshot, k)
  }

  /** "c" is the first visible key strictly after k0. */
  ghost predicate FirstAfter(es: set<Entry>, snapshot: nat, k0: UserKey, c: Cursor) {
    && Shows(es, snapshot, c)
    && (c.At? ==> k0 < c.key)
    && forall k :: k0 < k && (c.At? ==> k < c.key) ==> Absent(es, snapshot, k)
  }

  ghost predicate First(es: set<Entry>, snapshot: nat, c: Cursor) {
    && Shows(es, snapshot, c)
    && forall k :: (c.At? ==> k < c.key) ==> Absent(es, snapshot, k)
  }

  /** "c" is the last visible key strictly before k0. */
  ghost predicate LastBefore(es: set<Entry>, snapshot: nat, k0: UserKey, c: Cursor) {
    && Shows(es, snapshot, c)
    && (c.At? ==> c.key < k0)
    && forall k :: k < k0 && (c.At? ==> c.key < k) ==> Absent(es, snapshot, k)
  }

  ghost predicate Last(es: set<Entry>, snapshot: nat, c: Cursor) {
    && Shows(es, snapshot, c)
    && forall k :: (c.At? ==> c.key < k) ==> Absent(es, snapshot, k)
  }

  datatype Op = Next | Prev | Seek(target: UserKey) | SeekToFirst | SeekToLast

  /** The move an operation makes on the visible map.  Next and Prev may only be
      called on a valid iterator; a caller that finds it invalid stays put. */
  ghost predicate Moves(es: set<Entry>, snapshot: nat, op: Op, c: Cursor, c': Cursor) {
    match op
    case Next => if c.At? then FirstAfter(es, snapshot, c.key, c') else c' == c
    case Prev => if c.At? then LastBefore(es, snapshot, c.key, c') else c' == c
    case Seek(target) => FirstFrom(es, snapshot, target, c')
    case SeekToFirst => First(es, snapshot, c')
    case SeekToLast => Last(es, snapshot, c')
  }

  /** The visible map leaves an iterator no choice. */
  lemma {:induction false} MovesUnique(es: set<Entry>, snapshot: nat, op: Op, c: Cursor, x: Cursor, y: Cursor)
    requires Moves(es, snapshot, op, c, x) && Moves(es, snapshot, op, c, y)
    ensures x == y
  {
    // Each of two different positions would have to be absent for the other.
    assert x.At? ==> !Absent(es, snapshot, x.key);
    assert y.At? ==> !Absent(es, snapshot, y.key);
  }

  // ----- rows: the internal positions that stand for a user key

  predicate Seen(s: seq<Entry>, snapshot: nat, i: int) {
    0 <= i < |s| && s[i].seqno <= snapshot
  }

  /** s[i] is the newest visible entry of its key, and a value. */
  ghost predicate IsRow(s: seq<Entry>, snapshot: nat, i: int) {
    && Seen(s, snapshot, i)
    && s[i].kind.Put?
    && forall j :: 0 <= j < i && Seen(s, snapshot, j) ==> s[j].key != s[i].key
  }

  lemma {:induction false} RowIsRead(s: seq<Entry>, snapshot: nat, i: int)
    requires Sorted(s) && IsRow(s, snapshot, i)
    ensures Read(Elements(s), s[i].key, snapshot) == Found(s[i].value)
  {
    NewestAt(s, snapshot, i);
  }

  /** The first visible position of a key is what a read returns. */
  lemma {:induction false} NewestAt(s: seq<Entry>, snapshot: nat, i: int)
    requires Sorted(s) && Seen(s, snapshot, i)
    requires forall j :: 0 <= j < i && Seen(s, snapshot, j) ==> s[j].key != s[i].key
    ensures Read(Elements(s), s[i].key, snapshot) == ResultOf(s[i])
  {
    var es := Elements(s);
    assert s[i] in es;
    forall f | f in es && Visible(f, s[i].key, snapshot)
      ensures f.seqno <= s[i].seqno
    {
      var j :| 0 <= j < |s| && s[j] == f;
      assert Seen(s, snapshot, j);
      assert j > i ==> Before(s[i], s[j]);
    }
    assert UniqueTags(es) by {
      SortedUnique(s);
    }
    ReadNewest(es, s[i].key, snapshot, s[i]);
  }

  lemma {:induction false} SortedUnique(s: seq<Entry>)
    requires Sorted(s)
    ensures UniqueTags(Elements(s))
  {
  }

  /** A key with no row reads as absent. */
  lemma {:induction false} NoRowIsAbsent(s: seq<Entry>, snapshot: nat, k: UserKey)
    requires Sorted(s)
    requires forall i :: IsRow(s, snapshot, i) ==> s[i].key != k
    ensures Absent(Elements(s), snapshot, k)
  {
  }

  ghost predicate OnRow(s: seq<Entry>, snapshot: nat, c: Cursor) {
    c.At? ==> exists i :: IsRow(s, snapshot, i) && s[i].key == c.key && s[i].value == c.value
  }

  lemma {:induction false} OnRowShows(s: seq<Entry>, snapshot: nat, c: Cursor)
    requires Sorted(s) && OnRow(s, snapshot, c)
    ensures Shows(Elements(s), snapshot, c)
  {
    if c.At? {
      var i :| IsRow(s, snapshot, i) && s[i].key == c.key && s[i].value == c.value;
      RowIsRead(s, snapshot, i);
    }
  }

  /** From positions to the visible map: the first row at or after a bound. */
  lemma {:induction false} FirstRowFrom(s: seq<Entry>, snapshot: nat, lo: UserKey, c: Cursor)
    requires Sorted(s) && OnRow(s, snapshot, c) && (c.At? ==> lo <= c.key)
    requires forall i :: IsRow(s, snapshot, i) && lo <= s[i].key ==> c.At? && c.key <= s[i].key
    ensures FirstFrom(Elements(s), snapshot, lo, c)
  {
    OnRowShows(s, snapshot, c);
    forall k | lo <= k && (c.At? ==> k < c.key) { NoRowIsAbsent(s, snapshot, k); }
  }

  lemma {:induction false} FirstRowAfter(s: seq<Entry>, snapshot: nat, k0: UserKey, c: Cursor)
    requires Sorted(s) && OnRow(s, snapshot, c) && (c.At? ==> k0 < c.key)
    requires forall i :: IsRow(s, snapshot, i) && k0 < s[i].key ==> c.At? && c.key <= s[i].key
    ensures FirstAfter(Elements(s), snapshot, k0, c)
  {
    OnRowShows(s, snapshot, c);
    forall k | k0 < k && (c.At? ==> k < c.key) { NoRowIsAbsent(s, snapshot, k); }
  }

  lemma {:induction false} FirstRow(s: seq<Entry>, snapshot: nat, c: Cursor)
    requires Sorted(s) && OnRow(s, snapshot, c)
    requires forall i :: IsRow(s, snapshot, i) ==> c.At? && c.key <= s[i].key
    ensures First(Elements(s), snapshot, c)
  {
    OnRowShows(s, snapshot, c);
    forall k | c.At? ==> k < c.key { NoRowIsAbsent(s, snapshot, k); }
  }

  lemma {:induction false} LastRowBefore(s: seq<Entry>, snapshot: nat, k0: UserKey, c: Cursor)
    requires Sorted(s) && OnRow(s, snapshot, c) && (c.At? ==> c.key < k0)
    requires forall i :: IsRow(s, snapshot, i) && s[i].key < k0 ==> c.At? && s[i].key <= c.key
    ensures LastBefore(Elements(s), snapshot, k0, c)
  {
    OnRowShows(s, snapshot, c);
    forall k | k < k0 && (c.At? ==> c.key < k) { NoRowIsAbsent(s, snapshot, k); }
  }

  lemma {:induction false} LastRow(s: seq<Entry>, snapshot: nat, c: Cursor)
    requires Sorted(s) && OnRow(s, snapshot, c)
    requires forall i :: IsRow(s, snapshot, i) ==> c.At? && s[i].key <= c.key
    ensures Last(Elements(s), snapshot, c)
  {
    OnRowShows(s, snapshot, c);
    forall k | c.At? ==> c.key < k { NoRowIsAbsent(s, snapshot, k); }
  }

  lemma {:induction false} KeysAscend(s: seq<Entry>)
    requires Sorted(s)
    ensures forall i, j :: 0 <= i < j < |s| ==> s[i].key <= s[j].key
  {
    assert forall i, j :: 0 <= i < j < |s| ==> Before(s[i], s[j]);
  }

  // ----- looking for the next row

  /** What the search from "start" has established when it stands at pos.  It may be
      skipping the entries of a saved key: the one it started with, or that of a
      deletion marker it has passed. */
  ghost predicate Searching(s: seq<Entry>, n: nat, start: int, pos: int, first: Saved, skipping: bool, skip: bool, saved: Saved, hider: int) {
    && 0 <= start <= pos <= |s|
    && (skip ==> saved.Saved?)
    && (skipping ==> skip && first.Saved? && first.key <= saved.key)
    && (skip ==> Around(s, n, pos, saved.key))
    && (!skip && pos < |s| ==> forall j :: 0 <= j < pos && Seen(s, n, j) ==> s[j].key < s[pos].key)
    && (skip ==> (skipping && saved == first) || (hider < pos && Seen(s, n, hider) && s[hider].key == saved.key))
    && Passed(s, n, start, pos, first, skipping)
  }

  /** Visible entries before pos are not past the key, and those from pos on not before. */
  ghost predicate Around(s: seq<Entry>, n: nat, pos: int, k: UserKey) {
    forall j :: Seen(s, n, j) ==> if j < pos then s[j].key <= k else k <= s[j].key
  }

  /** Only rows of the key to be skipped were passed over. */
  ghost predicate Passed(s: seq<Entry>, n: nat, start: int, pos: int, first: Saved, skipping: bool) {
    forall i :: IsRow(s, n, i) && start <= i < pos ==> skipping && first.Saved? && s[i].key <= first.key
  }

  lemma {:induction false} SearchStep(s: seq<Entry>, n: nat, start: int, pos: int, first: Saved, skipping: bool, skip: bool, saved: Saved, hider: int)
    requires Sorted(s) && Searching(s, n, start, pos, first, skipping, skip, saved, hider) && pos < |s|
    ensures var e := s[pos];
            if e.seqno > n || (e.kind.Put? && skip && e.key <= saved.key) then
              Searching(s, n, start, pos + 1, first, skipping, skip, saved, hider)
            else if e.kind.Deletion? then
              Searching(s, n, start, pos + 1, first, skipping, true, Saved(e.key), pos)
            else IsRow(s, n, pos) && (skipping ==> first.key < e.key)
  {
    var e := s[pos];
    assert forall j :: 0 <= j < pos ==> Before(s[j], e);
    assert forall j :: pos < j < |s| ==> Before(e, s[j]);
    assert e.seqno <= n ==> Seen(s, n, pos);
  }

  // ----- looking for the previous row

  /** What the search backwards from "start" has established when everything after
      "behind" is done: the last entry kept, if it is a value, and no other row. */
  ghost predicate Trailing(s: seq<Entry>, n: nat, start: int, behind: int, kind: Kind, saved: Saved, value: Value, found: int) {
    && -1 <= behind <= start < |s|
    && (kind.Put? ==>
          && behind < found <= start
          && Seen(s, n, found) && s[found].kind.Put?
          && saved == Saved(s[found].key) && value == s[found].value
          && forall j :: behind < j < found ==> !Seen(s, n, j))
    && (forall i :: IsRow(s, n, i) && behind < i <= start ==> kind.Put? && i == found)
  }

  lemma {:induction false} TrailStep(s: seq<Entry>, n: nat, start: int, behind: int, kind: Kind, saved: Saved, value: Value, found: int)
    requires Sorted(s) && Trailing(s, n, start, behind, kind, saved, value, found) && behind >= 0
    ensures var e := s[behind];
            if e.seqno > n then Trailing(s, n, start, behind - 1, kind, saved, value, found)
            else if kind.Put? && e.key < saved.key then true
            else if e.kind.Deletion? then Trailing(s, n, start, behind - 1, Deletion, Cleared, "", -1)
            else Trailing(s, n, start, behind - 1, Put, Saved(e.key), e.value, behind)
  {
    KeysAscend(s);
    var e := s[behind];
    if e.seqno <= n {
      assert Seen(s, n, behind);
    }
  }

  lemma {:induction false} TrailEnd(s: seq<Entry>, n: nat, start: int, behind: int, saved: Saved, value: Value, found: int)
    requires Sorted(s) && Trailing(s, n, start, behind, Put, saved, value, found)
    requires behind >= 0 ==> Seen(s, n, behind) && s[behind].key < saved.key
    ensures IsRow(s, n, found) && saved == Saved(s[found].key) && value == s[found].value && found <= start
    ensures behind >= 0 ==> s[behind].key < saved.key
    ensures forall j :: behind < j && Seen(s, n, j) ==> saved.key <= s[j].key
    ensures forall i :: IsRow(s, n, i) && i <= start ==> s[i].key <= saved.key
  {
    KeysAscend(s);
  }

  /** Where a seek lands: everything visible before it is before the target, and before
      the entry it lands on. */
  lemma {:induction false} SeekStart(s: seq<Entry>, n: nat, target: UserKey)
    requires Sorted(s)
    ensures var pos := Lookups.SeekRow(s, target, n);
            && (forall j :: 0 <= j < pos && Seen(s, n, j) ==> s[j].key < target)
            && (forall j :: pos <= j < |s| ==> target <= s[j].key)
            && (pos < |s| ==> forall j :: 0 <= j < pos && Seen(s, n, j) ==> s[j].key < s[pos].key)
  {
    KeysAscend(s);
  }

  /** A place behind all visible entries of a key and not past it. */
  lemma {:induction false} BehindKey(s: seq<Entry>, n: nat, behind: int, k: UserKey)
    requires Sorted(s) && behind < |s| && (behind >= 0 ==> s[behind].key < k)
    requires forall j :: behind < j && Seen(s, n, j) ==> k <= s[j].key
    ensures forall i :: IsRow(s, n, i) ==> (i <= behind <==> s[i].key < k)
  {
    KeysAscend(s);
  }

  class DbIter {
    const iter: InternalIter
    const sequence: nat

    var forward: bool
    var valid: bool
    var savedKey: Saved
    var savedValue: Value

    constructor (iter: InternalIter, sequence: nat)
      requires iter.Valid() && Sorted(iter.entries)
      ensures this.iter == iter && this.sequence == sequence
      ensures Valid() && Current() == Nowhere
    {
      this.iter := iter;
      this.sequence := sequence;
      forward := true;
      valid := false;
      savedKey := Cleared;
      savedValue := "";
    }

    ghost predicate Row(i: int) {
      IsRow(iter.entries, sequence, i)
    }

    ghost function Store(): set<Entry> {
      Elements(iter.entries)
    }

    /** The internal index just before the current group when moving backwards. */
    ghost function Behind(): int
      reads iter
    {
      if iter.pos == |iter.entries| then -1 else iter.pos
    }

    /** The internal iterator stands somewhere in a sorted sequence. */
    ghost predicate Placed()
      reads iter, iter.merging
    {
      iter.Valid() && Sorted(iter.entries)
    }

    /** Moving forward, the internal iterator is at the row itself.  Moving
        backwards, it is just before the entries of the current key, with only
        invisible entries in between, and the row is held in the saved fields. */
    ghost predicate Valid()
      reads this, iter, iter.merging
    {
      && Placed()
      && (valid && forward ==> Row(iter.pos))
      && (valid && !forward ==>
            && savedKey.Saved?
            && HoldsRow(savedKey.key, savedValue)
            && (Behind() >= 0 ==> iter.entries[Behind()].key < savedKey.key)
            && (forall j :: Behind() < j && Seen(iter.entries, sequence, j) ==> savedKey.key <= iter.entries[j].key))
    }

    ghost predicate HoldsRow(k: UserKey, v: Value) {
      exists i :: Row(i) && iter.entries[i].key == k && iter.entries[i].value == v
    }

    ghost function Current(): Cursor
      requires Valid()
      reads this, iter, iter.merging
    {
      if !valid then Nowhere
      else if forward then At(iter.entries[iter.pos].key, iter.entries[iter.pos].value)
      else At(savedKey.key, savedValue)
    }

    /** Valid, key and value. */
    method Show() returns (c: Cursor)
      requires Valid()
      ensures c == Current()
    {
      if !valid {
        c := Nowhere;
      } else if forward {
        var e := iter.Entry();
        c := At(e.key, e.value);
      } else {
        c := At(savedKey.key, savedValue);
      }
    }

    method FindNextUserEntry(skipping: bool)
      requires Placed() && iter.pos < |iter.entries| && forward
      requires skipping ==> savedKey.Saved? && Around(iter.entries, sequence, iter.pos, savedKey.key)
      requires !skipping ==> forall j :: 0 <= j < iter.pos && Seen(iter.entries, sequence, j) ==> iter.entries[j].key < iter.entries[iter.pos].key
      modifies this, iter, iter.merging
      ensures Valid() && forward
      ensures valid ==> old(iter.pos) <= iter.pos && (skipping ==> old(savedKey).key < iter.entries[iter.pos].key)
      ensures forall i :: Row(i) && old(iter.pos) <= i && (valid ==> i < iter.pos) ==> skipping && iter.entries[i].key <= old(savedKey).key
    {
      valid := ScanForward(skipping);
      savedKey := Cleared;
    }

    /** The loop of FindNextUserEntry. */
    method ScanForward(skipping: bool) returns (found: bool)
      requires Placed() && iter.pos < |iter.entries|
      requires skipping ==> savedKey.Saved? && Around(iter.entries, sequence, iter.pos, savedKey.key)
      requires !skipping ==> forall j :: 0 <= j < iter.pos && Seen(iter.entries, sequence, j) ==> iter.entries[j].key < iter.entries[iter.pos].key
      modifies this`savedKey, iter, iter.merging
      ensures Placed() && old(iter.pos) <= iter.pos
      ensures if found then Row(iter.pos) && (skipping ==> old(savedKey).key < iter.entries[iter.pos].key)
              else iter.pos == |iter.entries|
      ensures Passed(iter.entries, sequence, old(iter.pos), iter.pos, old(savedKey), skipping)
    {
      ghost var s, n, start, first := iter.entries, sequence, iter.pos, savedKey;
      ghost var hider: int := -1;
      var skip := skipping;
      while true
        invariant Placed() && iter.pos < |s|
        invariant Searching(s, n, start, iter.pos, first, skipping, skip, savedKey, hider)
        decreases |s| - iter.pos
      {
        SearchStep(s, n, start, iter.pos, first, skipping, skip, savedKey, hider);
        var e := iter.Entry();
        if e.seqno <= sequence {
          if e.kind.Deletion? {
            savedKey := Saved(e.key);
            skip := true;
            hider := iter.pos;
          } else if skip && e.key <= savedKey.key {
          } else {
            return true;
          }
        }
        iter.Next();
        var more := iter.IsValid();
        if !more {
          return false;
        }
      }
    }

    /** Finds the last row at or before the internal position. */
    method FindPrevUserEntry()
      requires Placed() && !forward
      modifies this, iter, iter.merging
      ensures Valid()
      ensures valid <==> !forward
      ensures forall i :: Row(i) && i <= old(Behind()) ==> valid && iter.entries[i].key <= savedKey.key
      ensures valid ==> exists i :: Row(i) && i <= old(Behind()) && iter.entries[i].key == savedKey.key && iter.entries[i].value == savedValue
    {
      ghost var start := Behind();
      var valueType, found := ScanBackward();
      if valueType.Deletion? {
        valid := false;
        savedKey := Cleared;
        savedValue := "";
        forward := true;
      } else {
        valid := true;
        TrailEnd(iter.entries, sequence, start, Behind(), savedKey, savedValue, found);
        assert Row(found);
      }
    }

    /** The loop of FindPrevUserEntry. */
    method ScanBackward() returns (valueType: Kind, ghost found: int)
      requires Placed()
      modifies this`savedKey, this`savedValue, iter, iter.merging
      ensures Placed()
      ensures Trailing(iter.entries, sequence, old(Behind()), Behind(), valueType, savedKey, savedValue, found)
      ensures Behind() >= 0 ==> valueType.Put? && Seen(iter.entries, sequence, Behind()) && iter.entries[Behind()].key < savedKey.key
    {
      ghost var s, n, start := iter.entries, sequence, Behind();
      found := -1;
      valueType := Deletion;
      var here := iter.IsValid();
      while here
        invariant Placed()
        invariant here <==> iter.pos < |s|
        invariant Trailing(s, n, start, Behind(), valueType, savedKey, savedValue, found)
        decreases Behind() + 1
      {
        TrailStep(s, n, start, iter.pos, valueType, savedKey, savedValue, found);
        var e := iter.Entry();
        if e.seqno <= sequence {
          if valueType.Put? && e.key < savedKey.key {
            return;
          }
          valueType := e.kind;
          if valueType.Deletion? {
            savedKey := Cleared;
            savedValue := "";
            found := -1;
          } else {
            savedKey := Saved(e.key);
            savedValue := e.value;
            found := iter.pos;
          }
        }
        iter.Prev();
        here := iter.IsValid();
      }
    }

    method Next()
      requires Valid() && valid
      modifies this, iter, iter.merging
      ensures Valid()
      ensures FirstAfter(Store(), sequence, old(Current()).key, Current())
    {
      ghost var k0 := Current().key;
      KeysAscend(iter.entries);
      if !forward {
        forward := true;
        var here := iter.IsValid();
        if !here {
          iter.SeekToFirst();
        } else {
          iter.Next();
        }
        // The source gives up here if the internal iterator ran out; the
        // entries of the current key follow, so it never does.
        assert iter.pos < |iter.entries|;
      } else {
        var e := iter.Entry();
        savedKey := Saved(e.key);
      }
      FindNextUserEntry(true);
      FirstRowAfter(iter.entries, sequence, k0, Current());
    }

    method Prev()
      requires Valid() && valid
      modifies this, iter, iter.merging
      ensures Valid()
      ensures LastBefore(Store(), sequence, old(Current()).key, Current())
    {
      ghost var k0 := Current().key;
      if forward {
        var found := SkipKeyBackwards();
        if !found {
          valid := false;
          savedKey := Cleared;
          savedValue := "";
          LastRowBefore(iter.entries, sequence, k0, Current());
          return;
        }
        forward := false;
      }
      BehindKey(iter.entries, sequence, Behind(), k0);
      FindPrevUserEntry();
      LastRowBefore(iter.entries, sequence, k0, Current());
    }

    /** The change of direction: back to the last entry before the current key, if any. */
    method SkipKeyBackwards() returns (found: bool)
      requires Placed() && iter.pos < |iter.entries|
      modifies this`savedKey, iter, iter.merging
      ensures Placed() && (found <==> iter.pos < |iter.entries|)
      ensures savedKey == Saved(iter.entries[old(iter.pos)].key)
      ensures found ==> iter.entries[iter.pos].key < savedKey.key
      ensures forall j :: Behind() < j < |iter.entries| ==> savedKey.key <= iter.entries[j].key
    {
      var e := iter.Entry();
      savedKey := Saved(e.key);
      ghost var s, k0 := iter.entries, e.key;
      KeysAscend(s);
      while true
        invariant Placed() && iter.pos < |s| && savedKey == Saved(k0)
        invariant s[iter.pos].key == k0
        decreases iter.pos
      {
        iter.Prev();
        found := iter.IsValid();
        if !found {
          break;
        }
        e := iter.Entry();
        if e.key < savedKey.key {
          break;
        }
      }
    }

    method Seek(target: UserKey)
      requires Valid()
      modifies this, iter, iter.merging
      ensures Valid()
      ensures FirstFrom(Store(), sequence, target, Current())
    {
      forward := true;
      savedValue := "";
      iter.Seek(target, sequence);
      SeekStart(iter.entries, sequence, target);
      var here := iter.IsValid();
      if here {
        FindNextUserEntry(false);
      } else {
        valid := false;
      }
      FirstRowFrom(iter.entries, sequence, target, Current());
    }

    method SeekToFirst()
      requires Valid()
      modifies this, iter, iter.merging
      ensures Valid()
      ensures First(Store(), sequence, Current())
    {
      forward := true;
      savedValue := "";
      iter.SeekToFirst();
      KeysAscend(iter.entries);
      var here := iter.IsValid();
      if here {
        FindNextUserEntry(false);
      } else {
        valid := false;
      }
      FirstRow(iter.entries, sequence, Current());
    }

    method SeekToLast()
      requires Valid()
      modifies this, iter, iter.merging
      ensures Valid()
      ensures Last(Store(), sequence, Current())
    {
      forward := false;
      savedValue := "";
      iter.SeekToLast();
      FindPrevUserEntry();
      LastRow(iter.entries, sequence, Current());
    }
  }

  /** Any run of operations, with any changes of direction, is a run of the
      cursor over the visible map. */
  method Replay(it: DbIter, ops: seq<Op>) returns (trace: seq<Cursor>)
    requires it.Valid()
    modifies it, it.iter, it.iter.merging
    ensures it.Valid()
    ensures |trace| == |ops| + 1
    ensures trace[0] == old(it.Current()) && trace[|ops|] == it.Current()
    ensures forall i :: 0 <= i < |ops| ==> Moves(it.Store(), it.sequence, ops[i], trace[i], trace[i + 1])
  {
    var c := it.Show();
    trace := [c];
    for n := 0 to |ops|
      invariant it.Valid()
      invariant |trace| == n + 1
      invariant trace[0] == old(it.Current()) && trace[n] == it.Current()
      invariant forall i :: 0 <= i < n ==> Moves(it.Store(), it.sequence, ops[i], trace[i], trace[i + 1])
    {
      Operate(it, ops[n]);
      c := it.Show();
      trace := trace + [c];
    }
  }

  method Operate(it: DbIter, op: Op)
    requires it.Valid()
    modifies it, it.iter, it.iter.merging
    ensures it.Valid() && Moves(it.Store(), it.sequence, op, old(it.Current()), it.Current())
  {
    match op {
      case Next => if it.valid { it.Next(); }
      case Prev => if it.valid { it.Prev(); }
      case Seek(target) => it.Seek(target);
      case SeekToFirst => it.SeekToFirst();
      case SeekToLast => it.SeekToLast();
    }
  }
}
