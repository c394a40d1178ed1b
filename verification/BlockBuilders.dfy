/** BlockBuilder (table/block_builder.cc). */
module BlockBuilders {
  import opened Coding
  import opened BlockFormat

  ghost function Grow(l: Layout, pair: Pair, shared: nat, end: nat, restart: bool): Layout {
    Layout(l.pairs + [pair], l.shared + [shared], l.offs + [end], if restart then l.points + [|l.pairs|] else l.points)
  }

  /** The next entry may share this much with the one before it. */
  /** The longest common prefix of two keys has n bytes. */
  ghost predicate IsCommonPrefix(a: Bytes, b: Bytes, n: nat) {
    n <= |a| && n <= |b| && a[..n] == b[..n] && (n < |a| && n < |b| ==> a[n] != b[n])
  }

  /** One more entry, which leaves out the longest common prefix with the key before it,
      or nothing. */
  ghost predicate Compresses(was: seq<nat>, now: seq<nat>, before: Bytes, key: Bytes, compress: bool) {
    exists n: nat :: now == was + [n] && if compress then IsCommonPrefix(before, key, n) else n == 0
  }

  ghost predicate MayShare(l: Layout, pair: Pair, shared: nat) {
    var n := |l.pairs|;
    && shared <= |pair.key| < U32
    && |pair.value| < U32
    && (shared > 0 ==> n > 0 && shared <= |l.pairs[n - 1].key| && l.pairs[n - 1].key[..shared] == pair.key[..shared])
  }

  lemma {:induction false} OldEntryStays(data: Bytes, l: Layout, more: Bytes, pair: Pair, shared: nat, restart: bool, i: nat)
    requires Encodes(data, l) && MayShare(l, pair, shared) && i < |l.pairs|
    ensures EntryAt(data + more, Grow(l, pair, shared, |data + more|, restart), i)
  {
    var g := Grow(l, pair, shared, |data + more|, restart);
    assert EntryAt(data, l, i);
    assert PrefixAt(g, i) by {
      assert PrefixAt(l, i);
    }
    assert (data + more)[l.offs[i]..l.offs[i + 1]] == data[l.offs[i]..l.offs[i + 1]];
  }

  lemma {:induction false} NewEntryFits(data: Bytes, l: Layout, pair: Pair, shared: nat, restart: bool)
    requires Encodes(data, l) && MayShare(l, pair, shared)
    ensures var more := data + EntryBytes(shared, pair);
      EntryAt(more, Grow(l, pair, shared, |more|, restart), |l.pairs|)
  {
    var more := data + EntryBytes(shared, pair);
    assert more[|data|..|more|] == EntryBytes(shared, pair);
  }

  lemma {:induction false} PointStays(l: Layout, pair: Pair, shared: nat, end: nat, restart: bool, j: nat)
    requires Shape(l) && j < |l.points| && PointAt(l, j)
    requires restart || l.points[j] == |l.pairs| ==> shared == 0
    ensures PointAt(Grow(l, pair, shared, end, restart), j)
  {
  }

  lemma {:induction false} GrowEncodes(data: Bytes, l: Layout, pair: Pair, shared: nat, restart: bool)
    requires Encodes(data, l) && MayShare(l, pair, shared)
    requires restart ==> shared == 0 && l.points[|l.points| - 1] < |l.pairs|
    requires l.points[|l.points| - 1] == |l.pairs| ==> shared == 0
    ensures var more := data + EntryBytes(shared, pair);
      Encodes(more, Grow(l, pair, shared, |more|, restart))
  {
    var more := data + EntryBytes(shared, pair);
    var g := Grow(l, pair, shared, |more|, restart);
    forall i: nat | i < |g.pairs|
      ensures EntryAt(more, g, i)
    {
      if i < |l.pairs| {
        OldEntryStays(data, l, EntryBytes(shared, pair), pair, shared, restart, i);
      } else {
        NewEntryFits(data, l, pair, shared, restart);
      }
    }
    forall j: nat | j < |g.points|
      ensures PointAt(g, j)
    {
      if j < |l.points| {
        assert PointAt(l, j);
        if l.points[j] == |l.pairs| && j < |l.points| - 1 {
          PointsIncrease(l, j, |l.points| - 1);
        }
        PointStays(l, pair, shared, |more|, restart, j);
      }
    }
  }

  lemma {:induction false} GrowRestarts(l: Layout, rs: seq<nat>, pair: Pair, shared: nat, end: nat, restart: bool)
    requires Shape(l) && Restarts(l, rs)
    ensures Restarts(Grow(l, pair, shared, end, restart), if restart then rs + [l.offs[|l.pairs|]] else rs)
  {
    var g := Grow(l, pair, shared, end, restart);
    var gs := if restart then rs + [l.offs[|l.pairs|]] else rs;
    forall j: nat | j < |gs|
      ensures RestartAt(g, gs, j)
    {
      if j < |rs| {
        assert RestartAt(l, rs, j);
      }
    }
  }

  class BlockBuilder {
    const interval: nat
    var buffer: Bytes
    var restarts: seq<nat>
    var counter: nat
    var finished: bool
    var lastKey: Bytes
    /** What has been added. */
    ghost var lay: Layout

    ghost predicate Valid()
      reads this
    {
      && interval >= 1
      && Encodes(buffer, lay)
      && Restarts(lay, restarts)
      && lastKey == (if lay.pairs == [] then [] else lay.pairs[|lay.pairs| - 1].key)
      && lay.points[|lay.points| - 1] + counter == |lay.pairs|
      && counter <= interval
      && (lay.pairs != [] ==> counter > 0)
    }

    constructor (interval: nat)
      requires interval >= 1
      ensures Valid() && !finished && lay.pairs == []
    {
      this.interval := interval;
      buffer, restarts, counter, finished, lastKey := [], [0], 0, false, [];
      lay := Layout([], [], [0], [0]);
    }

    /** How much of the key repeats the last key. */
    method CommonPrefix(key: Bytes) returns (shared: nat)
      ensures IsCommonPrefix(lastKey, key, shared)
    {
      var minLength := if |lastKey| < |key| then |lastKey| else |key|;
      shared := 0;
      while shared < minLength && lastKey[shared] == key[shared]
        invariant shared <= minLength && lastKey[..shared] == key[..shared]
      {
        shared := shared + 1;
      }
    }

    method AppendEntry(shared: nat, key: Bytes, value: Bytes)
      requires shared <= |key| < U32 && |value| < U32
      modifies this`buffer
      ensures buffer == old(buffer) + EntryBytes(shared, Pair(key, value))
    {
      var nonShared := |key| - shared;
      buffer := PutVarint32(buffer, shared);
      buffer := PutVarint32(buffer, nonShared);
      buffer := PutVarint32(buffer, |value|);
      buffer := buffer + key[shared..] + value;
    }

    method Add(key: Bytes, value: Bytes)
      requires Valid() && !finished && |key| < U32 && |value| < U32
      modifies this
      ensures Valid() && !finished
      ensures lay.pairs == old(lay.pairs) + [Pair(key, value)]
      ensures lay.points == old(lay.points) + if old(counter) < interval then [] else [|old(lay.pairs)|]
      ensures counter == if old(counter) < interval then old(counter) + 1 else 1
      ensures Compresses(old(lay.shared), lay.shared, old(lastKey), key, old(counter) < interval)
    {
      var shared := 0;
      ghost var restart := counter == interval;
      if counter < interval {
        shared := CommonPrefix(key);
      } else {
        restarts := restarts + [|buffer|];
        counter := 0;
      }
      ghost var pair := Pair(key, value);
      GrowEncodes(buffer, lay, pair, shared, restart);
      AppendEntry(shared, key, value);
      GrowRestarts(lay, old(restarts), pair, shared, |buffer|, restart);
      counter := counter + 1;
      ghost var grown := Grow(lay, pair, shared, |buffer|, restart);
      assert Encodes(buffer, grown) && Restarts(grown, restarts);
      lastKey := lastKey[..shared] + key[shared..];
      assert lastKey == key == grown.pairs[|grown.pairs| - 1].key;
      lay := grown;
    }

    method Finish() returns (contents: Bytes)
      requires Valid() && !finished
      requires |buffer| + 4 * |restarts| + 4 < U32
      modifies this`finished
      ensures finished && Holds(contents, buffer, lay, restarts)
    {
      contents := PutOffsets(buffer, restarts);
      contents := contents + Fixed(|restarts|, 4);
      finished := true;
    }
  }
}
