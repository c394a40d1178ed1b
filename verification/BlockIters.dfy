/** Block::Iter (table/block.cc): a cursor over the pairs of a well-formed block. */
module BlockIters {
  import opened Coding
  import opened BlockFormat
  import Comparators

  type Order = Comparators.Order

  ghost predicate Transitive(lt: Order) {
    forall a: Bytes, b: Bytes, c: Bytes :: lt(a, b) && lt(b, c) ==> lt(a, c)
  }

  ghost predicate Increasing(pairs: seq<Pair>, lt: Order) {
    forall i, j :: 0 <= i < j < |pairs| ==> lt(pairs[i].key, pairs[j].key)
  }

  /** When a key is before the target, so is every key before it. */
  lemma {:induction false} AllBefore(pairs: seq<Pair>, lt: Order, target: Bytes, start: nat)
    requires Transitive(lt) && Increasing(pairs, lt) && start <= |pairs|
    requires start > 0 ==> start < |pairs| && lt(pairs[start].key, target)
    ensures forall i :: 0 <= i < start ==> lt(pairs[i].key, target)
  {
  }

  // ----- what the bytes of a block say

  lemma {:induction false} SlicesOfEntry(s: Bytes, lo: nat, hi: nat, a: Bytes, b: Bytes, c: Bytes)
    requires lo <= hi <= |s| && s[lo..hi] == a + b + c
    ensures s[lo + |a|..lo + |a| + |b|] == b && s[lo + |a| + |b|..hi] == c
  {
    assert b == (a + b + c)[|a|..|a| + |b|] && c == (a + b + c)[|a| + |b|..|a| + |b| + |c|];
    SliceOfSlice(s, lo, hi, |a|, |a| + |b|);
    SliceOfSlice(s, lo, hi, |a| + |b|, |a| + |b| + |c|);
  }

  lemma {:induction false} HeadInPlace(s: Bytes, lo: nat, hi: nat, end: nat, a: nat, b: nat, c: nat, tail: Bytes)
    requires a < U32 && b < U32 && c < U32
    requires lo <= hi <= end <= |s| && s[lo..hi] == Head(a, b, c) + tail
    ensures ParseHead(s[lo..end]) == Some((a, b, c, |Head(a, b, c)|))
  {
    HeadRoundTrip(a, b, c, tail + s[hi..end]);
    assert s[lo..end] == s[lo..hi] + s[hi..end];
    assert s[lo..end] == Head(a, b, c) + (tail + s[hi..end]);
  }

  /** Entry i's bytes, seen in the whole block. */
  lemma {:induction false} EntryInBlock(contents: Bytes, data: Bytes, l: Layout, rs: seq<nat>, i: nat)
    requires Holds(contents, data, l, rs) && i < |l.pairs|
    ensures PrefixAt(l, i) && l.offs[i] < l.offs[i + 1] <= |data| <= |contents| < U32
    ensures contents[l.offs[i]..l.offs[i + 1]] == EntryBytes(l.shared[i], l.pairs[i])
  {
    assert EntryAt(data, l, i);
    OffsIncrease(data, l, i, i + 1);
    assert contents[..|data|] == data;
    assert contents[l.offs[i]..l.offs[i + 1]] == data[l.offs[i]..l.offs[i + 1]];
  }

  lemma {:induction false} DecodedOf(s: Bytes, lo: nat, end: nat, a: nat, b: nat, c: nat, n: nat)
    requires lo <= end <= |s| < U32 && ParseHead(s[lo..end]) == Some((a, b, c, n)) && n + b + c <= end - lo
    ensures Decoded(s, lo, end) == Some((a, b, c, lo + n))
  {
  }

  lemma {:induction false} EntryDecoded(s: Bytes, lo: nat, hi: nat, end: nat, shared: nat, pair: Pair)
    requires shared <= |pair.key| < U32 && |pair.value| < U32
    requires lo <= hi <= end <= |s| < U32 && s[lo..hi] == EntryBytes(shared, pair)
    ensures Decoded(s, lo, end) ==
            Some((shared, |pair.key| - shared, |pair.value|, hi - |pair.value| - (|pair.key| - shared)))
  {
    var own: nat, length: nat := |pair.key| - shared, |pair.value|;
    var head, tail := Head(shared, own, length), pair.key[shared..] + pair.value;
    assert EntryBytes(shared, pair) == head + tail;
    HeadInPlace(s, lo, hi, end, shared, own, length, tail);
    DecodedOf(s, lo, end, shared, own, length, |head|);
  }

  lemma {:induction false} EntrySlices(s: Bytes, lo: nat, hi: nat, shared: nat, pair: Pair)
    requires shared <= |pair.key| && lo <= hi <= |s| && s[lo..hi] == EntryBytes(shared, pair)
    ensures var q := hi - |pair.value|; var p := q - (|pair.key| - shared);
      lo <= p <= q && s[p..q] == pair.key[shared..] && s[q..hi] == pair.value
  {
    SlicesOfEntry(s, lo, hi, Head(shared, |pair.key| - shared, |pair.value|), pair.key[shared..], pair.value);
  }

  /** DecodeEntry on a whole entry. */
  method DecodeStored(s: Bytes, lo: nat, end: nat, ghost hi: nat, ghost n: nat, ghost pair: Pair)
    returns (shared: nat, nonShared: nat, length: nat, p: nat)
    requires n <= |pair.key| < U32 && |pair.value| < U32
    requires lo <= hi <= end <= |s| < U32 && s[lo..hi] == EntryBytes(n, pair)
    ensures shared == n && p + nonShared + length == hi
    ensures s[p..p + nonShared] == pair.key[n..] && s[p + nonShared..hi] == pair.value
  {
    EntryDecoded(s, lo, hi, end, n, pair);
    EntrySlices(s, lo, hi, n, pair);
    var entry := DecodeEntry(s, lo, end);
    shared, nonShared, length, p := entry.value.0, entry.value.1, entry.value.2, entry.value.3;
  }

  lemma {:induction false} RestartDecodes(contents: Bytes, data: Bytes, l: Layout, rs: seq<nat>, j: nat)
    requires Holds(contents, data, l, rs) && j < |rs|
    ensures |data| + 4 * |rs| + 4 == |contents|
    ensures PointAt(l, j) && FixedValue(contents[|data| + 4 * j..|data| + 4 * j + 4]) == l.offs[l.points[j]] <= |data|
  {
    assert RestartAt(l, rs, j);
    assert PointAt(l, j);
    if l.points[j] < |l.pairs| {
      OffsIncrease(data, l, l.points[j], |l.pairs|);
    }
    RestartSlot(rs, j);
    var slots := RestartArray(rs);
    assert contents[|data| + 4 * j..|data| + 4 * j + 4] == slots[4 * j..4 * j + 4];
    Pow256Values();
    FixedRoundTrip(rs[j], 4);
  }

  // ----- the cursor

  class BlockIter {
    const data: Bytes
    const restarts: nat
    const numRestarts: nat
    var current: nat
    var restartIndex: nat
    var key: Bytes
    var valueOff: nat
    var valueLength: nat
    /** What the block holds. */
    ghost const lay: Layout
    ghost const rs: seq<nat>
    /** Which pair the cursor is on; past the last when it is not valid. */
    ghost var at: nat

    ghost predicate Sound() {
      && restarts <= |data|
      && Holds(data, data[..restarts], lay, rs)
      && numRestarts == |lay.points|
    }

    function Value(): Bytes
      requires valueOff + valueLength <= |data|
      reads this
    {
      data[valueOff..valueOff + valueLength]
    }

    ghost predicate On(i: nat)
      requires Sound() && i < |lay.pairs|
      reads this
    {
      && current == lay.offs[i]
      && key == lay.pairs[i].key
      && valueOff + valueLength == lay.offs[i + 1] <= |data|
      && Value() == lay.pairs[i].value
    }

    /** The restart region of pair i: at or after its first pair, and not after the
        first pair of the next region. */
    ghost predicate InRegion(i: nat)
      requires Sound()
      reads this
    {
      && restartIndex < numRestarts
      && lay.points[restartIndex] <= i
      && (restartIndex + 1 < numRestarts ==> i <= lay.points[restartIndex + 1])
    }

    ghost predicate Valid()
      reads this
    {
      && Sound()
      && at <= |lay.pairs|
      && (if at < |lay.pairs| then On(at) && InRegion(at) else current == restarts)
    }

    /** ParseNextKey is about to read pair i. */
    ghost predicate Poised(i: nat)
      reads this
    {
      && Sound()
      && i <= |lay.pairs|
      && valueOff + valueLength == lay.offs[i]
      && restartIndex < numRestarts
      && lay.points[restartIndex] <= i
      && (i < |lay.pairs| ==> lay.shared[i] <= |key| && lay.shared[i] <= |lay.pairs[i].key| &&
                              key[..lay.shared[i]] == lay.pairs[i].key[..lay.shared[i]])
    }

    /** NewIterator on finished block contents. */
    constructor (contents: Bytes, restartOffset: nat, num: nat, ghost l: Layout, ghost r: seq<nat>)
      requires restartOffset <= |contents| && Holds(contents, contents[..restartOffset], l, r) && num == |r|
      ensures Valid() && at == |lay.pairs| && lay == l && data == contents
    {
      data, restarts, numRestarts := contents, restartOffset, num;
      current, restartIndex := restartOffset, num;
      key, valueOff, valueLength := [], 0, 0;
      lay, rs, at := l, r, |l.pairs|;
    }

    predicate IsValid()
      reads this
    {
      current < restarts
    }

    lemma {:induction false} ValidMeansOn()
      requires Valid()
      ensures IsValid() <==> at < |lay.pairs|
    {
      if at < |lay.pairs| {
        OffsIncrease(data[..restarts], lay, at, |lay.pairs|);
      }
    }

    method GetRestartPoint(index: nat) returns (offset: nat)
      requires Sound() && index < numRestarts
      ensures lay.points[index] <= |lay.pairs| && offset == lay.offs[lay.points[index]] <= restarts
    {
      RestartDecodes(data, data[..restarts], lay, rs, index);
      offset := FixedValue(data[restarts + 4 * index..restarts + 4 * index + 4]);
    }

    method SeekToRestartPoint(index: nat)
      requires Sound() && index < numRestarts
      modifies this
      ensures lay.points[index] <= |lay.pairs| && Poised(lay.points[index]) && restartIndex == index
    {
      key := [];
      restartIndex := index;
      valueOff := GetRestartPoint(index);
      valueLength := 0;
      assert PointAt(lay, index);
    }

    /** Moves the region on while the next one starts before the current pair. */
    method AdvanceRegion(ghost i: nat)
      requires Sound() && i < |lay.pairs| && current == lay.offs[i]
      requires restartIndex < numRestarts && lay.points[restartIndex] <= i
      modifies this`restartIndex
      ensures InRegion(i)
    {
      while restartIndex + 1 < numRestarts
        invariant restartIndex < numRestarts && lay.points[restartIndex] <= i
        decreases numRestarts - restartIndex
      {
        var next := GetRestartPoint(restartIndex + 1);
        OffsOrder(lay.points[restartIndex + 1], i);
        if next >= current { break; }
        restartIndex := restartIndex + 1;
      }
    }

    lemma {:induction false} OffsOrder(i: nat, j: nat)
      requires Sound() && i <= |lay.pairs| && j <= |lay.pairs|
      ensures lay.offs[i] < lay.offs[j] <==> i < j
    {
      if i < j {
        OffsIncrease(data[..restarts], lay, i, j);
      } else if j < i {
        OffsIncrease(data[..restarts], lay, j, i);
      }
    }

    /** DecodeEntry on an entry of a well-formed block. */
    method ReadEntry(offset: nat, ghost i: nat) returns (shared: nat, nonShared: nat, length: nat, p: nat)
      requires Sound() && i < |lay.pairs| && offset == lay.offs[i]
      ensures lay.shared[i] == shared <= |lay.pairs[i].key|
      ensures p + nonShared + length == lay.offs[i + 1] <= restarts
      ensures data[p..p + nonShared] == lay.pairs[i].key[shared..]
      ensures data[p + nonShared..p + nonShared + length] == lay.pairs[i].value
    {
      EntryInBlock(data, data[..restarts], lay, rs, i);
      shared, nonShared, length, p :=
        DecodeStored(data, offset, restarts, lay.offs[i + 1], lay.shared[i], lay.pairs[i]);
    }

    method ParseNextKey(ghost i: nat) returns (found: bool)
      requires Poised(i)
      modifies this
      ensures Valid() && at == i && found == (i < |lay.pairs|)
    {
      current := valueOff + valueLength;
      at := i;
      OffsOrder(i, |lay.pairs|);
      if current >= restarts {
        current := restarts;
        restartIndex := numRestarts;
        return false;
      }
      var shared, nonShared, length, p := ReadEntry(current, i);
      key := key[..shared] + data[p..p + nonShared];
      valueOff, valueLength := p + nonShared, length;
      assert key == lay.pairs[i].key;
      AdvanceRegion(i);
      return true;
    }

    /** After reading pair i, ParseNextKey can read pair i + 1. */
    lemma {:induction false} Ready()
      requires Valid() && at < |lay.pairs|
      ensures Poised(at + 1)
    {
      if at + 1 < |lay.pairs| {
        assert EntryAt(data[..restarts], lay, at + 1);
      }
    }

    method Next()
      requires Valid() && at < |lay.pairs|
      modifies this
      ensures Valid() && at == old(at) + 1
    {
      Ready();
      var _ := ParseNextKey(at + 1);
    }

    /** To the pair before; off the end from the first. */
    method Prev()
      requires Valid() && at < |lay.pairs|
      modifies this
      ensures Valid() && at == if old(at) == 0 then |lay.pairs| else old(at) - 1
    {
      var original := current;
      ghost var was := at;
      while true
        invariant Valid() && at == was && restartIndex < numRestarts
        decreases restartIndex
      {
        var offset := GetRestartPoint(restartIndex);
        OffsOrder(lay.points[restartIndex], at);
        if offset < original { break; }
        if restartIndex == 0 {
          current := restarts;
          restartIndex := numRestarts;
          at := |lay.pairs|;
          return;
        }
        assert PointAt(lay, restartIndex);
        restartIndex := restartIndex - 1;
      }
      SeekToRestartPoint(restartIndex);
      StepTo(original, lay.points[restartIndex], was);
    }

    /** Parses pairs from the poised one until the end of a pair reaches "limit". */
    method StepTo(limit: nat, ghost i: nat, ghost end: nat)
      requires Poised(i) && i <= end <= |lay.pairs| && limit == lay.offs[end]
      modifies this
      ensures Valid() && at == if i < end then end - 1 else i
    {
      var found := ParseNextKey(i);
      ghost var last := if i < end then end - 1 else i;
      while found && valueOff + valueLength < limit
        invariant Valid() && at <= last && found == (at < |lay.pairs|)
        decreases last - at
      {
        OffsOrder(at + 1, end);
        Ready();
        found := ParseNextKey(at + 1);
      }
      if found {
        OffsOrder(at + 1, end);
      }
    }

    method SeekToFirst()
      requires Sound()
      modifies this
      ensures Valid() && at == 0
    {
      SeekToRestartPoint(0);
      var _ := ParseNextKey(0);
    }

    /** To the last pair; off the end of an empty block. */
    method SeekToLast()
      requires Sound()
      modifies this
      ensures Valid() && at == if lay.pairs == [] then 0 else |lay.pairs| - 1
    {
      SeekToRestartPoint(numRestarts - 1);
      assert PointAt(lay, numRestarts - 1);
      StepTo(restarts, lay.points[numRestarts - 1], |lay.pairs|);
    }

    /** The last restart point whose key is before the target, or the first. */
    method FindRegion(lt: Order, target: Bytes) returns (left: nat)
      requires Sound()
      ensures left < numRestarts
      ensures left == 0 || (lay.points[left] < |lay.pairs| && lt(lay.pairs[lay.points[left]].key, target))
    {
      left := 0;
      var right := numRestarts - 1;
      while left < right
        invariant 0 <= left <= right < numRestarts
        invariant left > 0 ==> lay.points[left] < |lay.pairs| && lt(lay.pairs[lay.points[left]].key, target)
        decreases right - left
      {
        var mid := (left + right + 1) / 2;
        var offset := GetRestartPoint(mid);
        assert PointAt(lay, mid);
        var shared, nonShared, _, p := ReadEntry(offset, lay.points[mid]);
        assert shared == 0;
        var midKey := data[p..p + nonShared];
        assert midKey == lay.pairs[lay.points[mid]].key;
        if lt(midKey, target) {
          left := mid;
        } else {
          right := mid - 1;
        }
      }
    }

    /** The linear search from a restart point. */
    method ScanTo(lt: Order, target: Bytes, ghost start: nat)
      requires Poised(start) && forall i :: 0 <= i < start ==> lt(lay.pairs[i].key, target)
      modifies this
      ensures Valid()
      ensures forall i :: 0 <= i < at ==> lt(lay.pairs[i].key, target)
      ensures at < |lay.pairs| ==> !lt(lay.pairs[at].key, target)
    {
      var found := ParseNextKey(start);
      while found && lt(key, target)
        invariant Valid() && found == (at < |lay.pairs|)
        invariant forall i :: 0 <= i < at ==> lt(lay.pairs[i].key, target)
        decreases |lay.pairs| - at
      {
        Ready();
        found := ParseNextKey(at + 1);
      }
    }

    /** To the first pair whose key is not before the target. */
    method Seek(lt: Order, target: Bytes)
      requires Sound() && Transitive(lt) && Increasing(lay.pairs, lt)
      modifies this
      ensures Valid()
      ensures forall i :: 0 <= i < at ==> lt(lay.pairs[i].key, target)
      ensures at < |lay.pairs| ==> !lt(lay.pairs[at].key, target)
    {
      var left := FindRegion(lt, target);
      SeekToRestartPoint(left);
      AllBefore(lay.pairs, lt, target, lay.points[left]);
      ScanTo(lt, target, lay.points[left]);
    }
  }

  // ----- opening a block

  /** Block::Block: where the restart array starts and how long it is, unless the
      contents are too short for it. */
  function Opened(contents: Bytes): Option<(nat, nat)> {
    if |contents| < 4 then None
    else
      var num := FixedValue(contents[|contents| - 4..]);
      if num > (|contents| - 4) / 4 then None else Some((|contents| - (1 + num) * 4, num))
  }

  /** A block opens exactly when its last word counts words that are there before it. */
  lemma {:induction false} OpenedIff(contents: Bytes, restarts: nat, num: nat)
    ensures Opened(contents) == Some((restarts, num)) <==>
      |contents| >= 4 && num == FixedValue(contents[|contents| - 4..]) && restarts + 4 * num + 4 == |contents|
  {
  }

  lemma {:induction false} OpensWell(contents: Bytes, data: Bytes, l: Layout, rs: seq<nat>)
    requires Holds(contents, data, l, rs)
    ensures Opened(contents) == Some((|data|, |rs|)) && contents[..|data|] == data && |rs| > 0
  {
    Pow256Values();
    FixedRoundTrip(|rs|, 4);
    assert contents[|contents| - 4..] == Fixed(|rs|, 4);
    assert contents[..|data|] == data;
  }

  /** The same bytes, entry by entry, mean the same pairs. */
  lemma {:induction false} SamePairs(contents: Bytes, data: Bytes, l: Layout, rs: seq<nat>, m: Layout, qs: seq<nat>, i: nat)
    requires Holds(contents, data, l, rs) && Holds(contents, data, m, qs)
    requires i <= |l.pairs| && i <= |m.pairs| && l.offs[i] == m.offs[i] && l.pairs[..i] == m.pairs[..i]
    ensures l.pairs == m.pairs
    decreases |l.pairs| - i
  {
    if i < |l.pairs| {
      OffsIncrease(data, l, i, |l.pairs|);
    }
    if i < |m.pairs| {
      OffsIncrease(data, m, i, |m.pairs|);
    }
    if i < |l.pairs| {
      SamePair(contents, data, l, rs, m, qs, i);
      SamePairs(contents, data, l, rs, m, qs, i + 1);
    } else {
      assert l.pairs == l.pairs[..i] && m.pairs == m.pairs[..i];
    }
  }

  lemma {:induction false} SamePair(contents: Bytes, data: Bytes, l: Layout, rs: seq<nat>, m: Layout, qs: seq<nat>, i: nat)
    requires Holds(contents, data, l, rs) && Holds(contents, data, m, qs)
    requires i < |l.pairs| && i < |m.pairs| && l.offs[i] == m.offs[i] && l.pairs[..i] == m.pairs[..i]
    ensures l.offs[i + 1] == m.offs[i + 1] && l.pairs[..i + 1] == m.pairs[..i + 1]
  {
    EntryInBlock(contents, data, l, rs, i);
    EntryInBlock(contents, data, m, qs, i);
    EntryMeans(contents, l.offs[i], l.offs[i + 1], m.offs[i + 1], |data|, l.shared[i], l.pairs[i], m.shared[i], m.pairs[i]);
    var n := l.shared[i];
    assert n > 0 ==> l.pairs[i - 1] == l.pairs[..i][i - 1] && m.pairs[i - 1] == m.pairs[..i][i - 1];
    assert l.pairs[i].key == l.pairs[i].key[..n] + l.pairs[i].key[n..];
    assert m.pairs[i].key == m.pairs[i].key[..n] + m.pairs[i].key[n..];
    assert l.pairs[..i + 1] == l.pairs[..i] + [l.pairs[i]] && m.pairs[..i + 1] == m.pairs[..i] + [m.pairs[i]];
  }

  /** Bytes decode to one entry only. */
  lemma {:induction false} EntryMeans(s: Bytes, lo: nat, hi: nat, hj: nat, end: nat, a: nat, p: Pair, b: nat, q: Pair)
    requires a <= |p.key| < U32 && |p.value| < U32 && b <= |q.key| < U32 && |q.value| < U32
    requires lo <= hi <= end <= |s| < U32 && lo <= hj <= end
    requires s[lo..hi] == EntryBytes(a, p) && s[lo..hj] == EntryBytes(b, q)
    ensures a == b && hi == hj && p.value == q.value && p.key[a..] == q.key[a..]
  {
    EntryDecoded(s, lo, hi, end, a, p);
    EntryDecoded(s, lo, hj, end, b, q);
    EntrySlices(s, lo, hi, a, p);
    EntrySlices(s, lo, hj, b, q);
  }

  /** A block's bytes determine its pairs. */
  lemma {:induction false} BytesDeterminePairs(contents: Bytes, d: Bytes, l: Layout, rs: seq<nat>,
                                               e: Bytes, m: Layout, qs: seq<nat>)
    requires Holds(contents, d, l, rs) && Holds(contents, e, m, qs)
    ensures l.pairs == m.pairs
  {
    OpensWell(contents, d, l, rs);
    OpensWell(contents, e, m, qs);
    assert l.pairs[..0] == m.pairs[..0];
    SamePairs(contents, d, l, rs, m, qs, 0);
  }

  /** A forward scan of a block, as Next walks it. */
  method Scan(contents: Bytes, ghost data: Bytes, ghost l: Layout, ghost rs: seq<nat>) returns (got: seq<Pair>)
    requires Holds(contents, data, l, rs)
    ensures got == l.pairs
  {
    OpensWell(contents, data, l, rs);
    var iter := new BlockIter(contents, Opened(contents).value.0, Opened(contents).value.1, l, rs);
    iter.SeekToFirst();
    got := [];
    iter.ValidMeansOn();
    while iter.IsValid()
      invariant iter.Valid() && fresh(iter) && iter.lay == l && got == l.pairs[..iter.at]
      invariant iter.IsValid() <==> iter.at < |l.pairs|
      decreases |l.pairs| - iter.at
    {
      got := got + [Pair(iter.key, iter.Value())];
      iter.Next();
      iter.ValidMeansOn();
    }
  }
}
