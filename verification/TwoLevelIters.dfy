/** TwoLevelIterator (table/two_level_iterator.cc): a cursor over the blocks an index
    names, one after another, skipping empty blocks both ways. */
module TwoLevelIters {
  import opened BlockFormat
  import opened Coding

  type Blocks = seq<seq<Pair>>

  function Flat(blocks: Blocks): seq<Pair> {
    if blocks == [] then [] else Flat(blocks[..|blocks| - 1]) + blocks[|blocks| - 1]
  }

  /** Where block i starts in the whole. */
  function Offset(blocks: Blocks, i: nat): nat
    requires i <= |blocks|
  {
    if i == 0 then 0 else Offset(blocks, i - 1) + |blocks[i - 1]|
  }

  lemma {:induction false} OffsetPrefix(blocks: Blocks, n: nat, i: nat)
    requires i <= n <= |blocks|
    ensures Offset(blocks[..n], i) == Offset(blocks, i)
    decreases i
  {
    if i > 0 {
      OffsetPrefix(blocks, n, i - 1);
    }
  }

  lemma {:induction false} FlatLength(blocks: Blocks)
    ensures |Flat(blocks)| == Offset(blocks, |blocks|)
    decreases |blocks|
  {
    if blocks != [] {
      var n := |blocks| - 1;
      FlatLength(blocks[..n]);
      OffsetPrefix(blocks, n, n);
    }
  }

  lemma {:induction false} OffsetsGrow(blocks: Blocks, i: nat, j: nat)
    requires i <= j <= |blocks|
    ensures Offset(blocks, i) <= Offset(blocks, j)
    decreases j - i
  {
    if i < j {
      OffsetsGrow(blocks, i, j - 1);
    }
  }

  /** Entry k of block i, in the whole. */
  lemma {:induction false} FlatAt(blocks: Blocks, i: nat, k: nat)
    requires i < |blocks| && k < |blocks[i]|
    ensures Offset(blocks, i) + k < |Flat(blocks)| && Flat(blocks)[Offset(blocks, i) + k] == blocks[i][k]
    decreases |blocks|
  {
    var n := |blocks| - 1;
    FlatLength(blocks[..n]);
    OffsetPrefix(blocks, n, n);
    if i < n {
      OffsetPrefix(blocks, n, i);
      FlatAt(blocks[..n], i, k);
    }
  }

  /** The index search lands on block i: what is before the target is in blocks up to i,
      and nothing after block i is before it. */
  ghost predicate Lands(blocks: Blocks, low: Pair -> bool, i: nat) {
    && i <= |blocks|
    && (forall j, p :: 0 <= j < i && p in blocks[j] ==> low(p))
    && (forall j, p :: i < j < |blocks| && p in blocks[j] ==> !low(p))
  }

  /** The comparator: a strict order in which incomparable keys are alike. */
  type Order = (Bytes, Bytes) -> bool

  ghost predicate IsOrder(lt: Order) {
    && (forall a, b, c :: lt(a, b) && lt(b, c) ==> lt(a, c))
    && (forall a, b, c :: lt(a, c) ==> lt(a, b) || lt(b, c))
  }

  ghost predicate Increasing(block: seq<Pair>, lt: Order) {
    forall i, j :: 0 <= i < j < |block| ==> lt(block[i].key, block[j].key)
  }

  /** An index: each key is at or after its block and before the blocks that follow. */
  ghost predicate Indexes(blocks: Blocks, index: seq<Bytes>, lt: Order) {
    && |index| == |blocks|
    && (forall j :: 0 <= j < |blocks| ==> Increasing(blocks[j], lt))
    && (forall j, p :: 0 <= j < |blocks| && p in blocks[j] ==> !lt(index[j], p.key))
    && (forall i, j, p :: 0 <= i < j < |blocks| && p in blocks[j] ==> lt(index[i], p.key))
  }

  /** The index seek lands on the block that can hold the target. */
  lemma {:induction false} IndexLands(blocks: Blocks, index: seq<Bytes>, lt: Order, target: Bytes, i: nat)
    requires IsOrder(lt) && Indexes(blocks, index, lt) && i <= |index|
    requires forall j :: 0 <= j < i ==> lt(index[j], target)
    requires i < |index| ==> !lt(index[i], target)
    ensures Lands(blocks, (p: Pair) => lt(p.key, target), i)
  {
    forall j, p | 0 <= j < i && p in blocks[j]
      ensures lt(p.key, target)
    {
      assert lt(index[j], target) && !lt(index[j], p.key);
    }
  }

  lemma {:induction false} SortedSplits(block: seq<Pair>, lt: Order, target: Bytes, low: Pair -> bool) returns (n: nat)
    requires IsOrder(lt) && Increasing(block, lt) && forall p :: low(p) <==> lt(p.key, target)
    ensures Splits(block, low, n)
  {
    n := 0;
    while n < |block| && low(block[n])
      invariant n <= |block| && forall k :: 0 <= k < n ==> low(block[k])
    {
      n := n + 1;
    }
  }

  /** Position n splits a sequence into what is before the target and what is not. */
  ghost predicate Splits(s: seq<Pair>, low: Pair -> bool, n: nat) {
    && n <= |s|
    && (forall k :: 0 <= k < n ==> low(s[k]))
    && (forall k :: n <= k < |s| ==> !low(s[k]))
  }

  lemma {:induction false} SplitsBlocks(blocks: Blocks, low: Pair -> bool, i: nat, k: nat)
    requires i <= |blocks| && (i < |blocks| ==> Splits(blocks[i], low, k)) && (i == |blocks| ==> k == 0)
    requires Lands(blocks, low, i)
    ensures Splits(Flat(blocks), low, Offset(blocks, i) + k)
    decreases |blocks|
  {
    if blocks != [] {
      var n := |blocks| - 1;
      var init := blocks[..n];
      FlatLength(init);
      OffsetPrefix(blocks, n, n);
      forall j, p | 0 <= j < |init| && p in init[j] && j != i
        ensures j < i ==> low(p)
        ensures j > i ==> !low(p)
      {
        assert p in blocks[j];
      }
      if i < n {
        OffsetPrefix(blocks, n, i);
        SplitsBlocks(init, low, i, k);
        assert forall q :: 0 <= q < |blocks[n]| ==> blocks[n][q] in blocks[n];
      } else {
        SplitsBlocks(init, low, n, 0);
        if i > n {
          assert forall q :: 0 <= q < |blocks[n]| ==> blocks[n][q] in blocks[n];
        }
      }
    }
  }

  function Nth(s: seq<Pair>, i: nat): Option<Pair> {
    if i < |s| then Some(s[i]) else None
  }

  class TwoLevelIterator {
    const blocks: Blocks
    /** The index block's keys. */
    const index: seq<Bytes>
    /** The index iterator's entry; past the last when it is not valid. */
    var indexAt: nat
    /** The data iterator, if there is one: its block and its entry. */
    var hasData: bool
    var dataBlock: nat
    var dataAt: nat
    /** The entry of the whole the cursor is on; past the last when it is not valid. */
    ghost var at: nat

    predicate DataValid()
      reads this
    {
      hasData && dataBlock < |blocks| && dataAt < |blocks[dataBlock]|
    }

    ghost predicate Valid()
      reads this
    {
      && indexAt <= |blocks|
      && (hasData ==> DataValid() && dataBlock == indexAt && at == Offset(blocks, indexAt) + dataAt)
      && (!hasData ==> at == |Flat(blocks)|)
    }

    constructor (blocks: Blocks, index: seq<Bytes>)
      ensures Valid() && !hasData && this.blocks == blocks && this.index == index
    {
      this.blocks, this.index := blocks, index;
      indexAt, hasData, dataBlock, dataAt := |blocks|, false, 0, 0;
      at := |Flat(blocks)|;
    }

    /** A cursor that is valid stands on entry "at" of the whole. */
    lemma {:induction false} Shows()
      requires Valid() && hasData
      ensures at < |Flat(blocks)| && Flat(blocks)[at] == blocks[dataBlock][dataAt]
    {
      FlatAt(blocks, indexAt, dataAt);
    }

    /** The pair offered, if the iterator is valid. */
    method Offered() returns (r: Option<Pair>)
      requires Valid()
      ensures r == Nth(Flat(blocks), at)
    {
      if hasData {
        Shows();
        r := Some(blocks[dataBlock][dataAt]);
      } else {
        r := None;
      }
    }

    /** The data iterator for the index entry; an existing one for it is kept. */
    method InitDataBlock()
      requires indexAt <= |blocks|
      modifies this`hasData, this`dataBlock, this`dataAt
      ensures hasData <==> indexAt < |blocks|
      ensures hasData ==> dataBlock == indexAt && (old(hasData && dataBlock == indexAt) ==> dataAt == old(dataAt))
    {
      if indexAt == |blocks| {
        hasData := false;
      } else if !(hasData && dataBlock == indexAt) {
        hasData, dataBlock, dataAt := true, indexAt, |blocks[indexAt]|;
      }
    }

    /** To the first entry at or after the end of what has been passed. */
    method SkipEmptyDataBlocksForward()
      requires indexAt <= |blocks| && (hasData <==> indexAt < |blocks|)
      requires hasData ==> dataBlock == indexAt && dataAt <= |blocks[indexAt]|
      modifies this
      ensures Valid()
      ensures at == Offset(blocks, old(indexAt)) + if old(hasData) then old(dataAt) else 0
    {
      FlatLength(blocks);
      ghost var target := Offset(blocks, indexAt) + if hasData then dataAt else 0;
      while !DataValid()
        invariant indexAt <= |blocks| && (hasData <==> indexAt < |blocks|)
        invariant hasData ==> dataBlock == indexAt && dataAt <= |blocks[indexAt]|
        invariant target == Offset(blocks, indexAt) + if hasData then dataAt else 0
        decreases |blocks| - indexAt
      {
        if indexAt == |blocks| {
          hasData := false;
          at := |Flat(blocks)|;
          return;
        }
        indexAt := indexAt + 1;
        InitDataBlock();
        if hasData {
          dataAt := 0;
        }
      }
      at := target;
    }

    /** To the last entry before what has been passed; off the end when there is none. */
    method SkipEmptyDataBlocksBackward(ghost end: nat)
      requires indexAt <= |blocks| && (hasData <==> indexAt < |blocks|)
      requires hasData ==> dataBlock == indexAt
      requires if DataValid() then end == Offset(blocks, indexAt) + dataAt + 1
               else indexAt < |blocks| ==> end == Offset(blocks, indexAt)
      requires indexAt == |blocks| ==> end == 0
      modifies this
      ensures Valid() && at == if end == 0 then |Flat(blocks)| else end - 1
    {
      while !DataValid()
        invariant indexAt <= |blocks| && (hasData <==> indexAt < |blocks|)
        invariant hasData ==> dataBlock == indexAt
        invariant if DataValid() then end == Offset(blocks, indexAt) + dataAt + 1
                  else indexAt < |blocks| ==> end == Offset(blocks, indexAt)
        invariant indexAt == |blocks| ==> end == 0
        decreases if indexAt < |blocks| then indexAt + 1 else 0
      {
        if indexAt == |blocks| {
          hasData := false;
          at := |Flat(blocks)|;
          return;
        }
        indexAt := if indexAt == 0 then |blocks| else indexAt - 1;
        InitDataBlock();
        if hasData {
          dataAt := if |blocks[indexAt]| == 0 then 0 else |blocks[indexAt]| - 1;
        }
      }
      at := Offset(blocks, indexAt) + dataAt;
    }

    method Next()
      requires Valid() && hasData
      modifies this
      ensures Valid() && at == old(at) + 1
    {
      dataAt := dataAt + 1;
      SkipEmptyDataBlocksForward();
    }

    method Prev()
      requires Valid() && hasData
      modifies this
      ensures Valid() && at == if old(at) == 0 then |Flat(blocks)| else old(at) - 1
    {
      ghost var end := at;
      if dataAt == 0 {
        dataAt := |blocks[dataBlock]|;
      } else {
        dataAt := dataAt - 1;
      }
      SkipEmptyDataBlocksBackward(end);
    }

    method SeekToFirst()
      requires Valid()
      modifies this
      ensures Valid() && at == 0
    {
      indexAt := 0;
      InitDataBlock();
      if hasData {
        dataAt := 0;
      }
      SkipEmptyDataBlocksForward();
    }

    method SeekToLast()
      requires Valid()
      modifies this
      ensures Valid() && at == if Flat(blocks) == [] then 0 else |Flat(blocks)| - 1
    {
      FlatLength(blocks);
      indexAt := if |blocks| == 0 then 0 else |blocks| - 1;
      InitDataBlock();
      if hasData {
        dataAt := if |blocks[indexAt]| == 0 then 0 else |blocks[indexAt]| - 1;
      }
      SkipEmptyDataBlocksBackward(|Flat(blocks)|);
    }

    /** To the first entry of the whole that is not before the target: an index seek, then
        a seek in the block it names. */
    method Seek(lt: Order, target: Bytes)
      requires Valid() && IsOrder(lt) && Indexes(blocks, index, lt)
      modifies this
      ensures Valid() && Splits(Flat(blocks), (p: Pair) => lt(p.key, target), at)
    {
      var low := (p: Pair) => lt(p.key, target);
      indexAt := SeekInIndex(index, lt, target);
      IndexLands(blocks, index, lt, target, indexAt);
      InitDataBlock();
      if hasData {
        ghost var k := SortedSplits(blocks[indexAt], lt, target, low);
        dataAt := SeekInBlock(blocks[indexAt], low);
      }
      SplitsBlocks(blocks, low, indexAt, if hasData then dataAt else 0);
      SkipEmptyDataBlocksForward();
    }
  }

  /** Block::Iter::Seek on the index block, by its contract. */
  method SeekInIndex(index: seq<Bytes>, lt: Order, target: Bytes) returns (i: nat)
    ensures i <= |index|
    ensures forall j :: 0 <= j < i ==> lt(index[j], target)
    ensures i < |index| ==> !lt(index[i], target)
  {
    i := 0;
    while i < |index| && lt(index[i], target)
      invariant i <= |index| && forall j :: 0 <= j < i ==> lt(index[j], target)
    {
      i := i + 1;
    }
  }

  /** Block::Iter::Seek, by its contract. */
  method SeekInBlock(block: seq<Pair>, low: Pair -> bool) returns (n: nat)
    requires exists k :: Splits(block, low, k)
    ensures Splits(block, low, n)
  {
    n := 0;
    while n < |block| && low(block[n])
      invariant n <= |block| && forall k :: 0 <= k < n ==> low(block[k])
    {
      n := n + 1;
    }
  }

  // ----- runs

  datatype Op = Next | Prev | Seek(target: Bytes) | SeekToFirst | SeekToLast

  /** One operation of a cursor over a sequence; past the end is no entry. */
  ghost predicate Moves(s: seq<Pair>, lt: Order, op: Op, a: nat, b: nat) {
    match op
    case Next => b == if a < |s| then a + 1 else a
    case Prev => b == if a >= |s| then a else if a == 0 then |s| else a - 1
    case Seek(target) => Splits(s, (p: Pair) => lt(p.key, target), b)
    case SeekToFirst => b == 0
    case SeekToLast => b == if s == [] then 0 else |s| - 1
  }

  /** Any run of operations, with any changes of direction, is a run of a cursor over the
      blocks' entries in order. */
  method Replay(it: TwoLevelIterator, lt: Order, ops: seq<Op>) returns (trace: seq<Option<Pair>>, ghost places: seq<nat>)
    requires it.Valid() && IsOrder(lt) && Indexes(it.blocks, it.index, lt)
    modifies it
    ensures it.Valid()
    ensures |trace| == |places| == |ops| + 1 && places[0] == old(it.at) && places[|ops|] == it.at
    ensures forall i :: 0 <= i <= |ops| ==> trace[i] == Nth(Flat(it.blocks), places[i])
    ensures forall i :: 0 <= i < |ops| ==> Moves(Flat(it.blocks), lt, ops[i], places[i], places[i + 1])
  {
    var first := it.Offered();
    trace, places := [first], [it.at];
    for n := 0 to |ops|
      invariant it.Valid()
      invariant |trace| == |places| == n + 1 && places[0] == old(it.at) && places[n] == it.at
      invariant forall i :: 0 <= i <= n ==> trace[i] == Nth(Flat(it.blocks), places[i])
      invariant forall i :: 0 <= i < n ==> Moves(Flat(it.blocks), lt, ops[i], places[i], places[i + 1])
    {
      Operate(it, lt, ops[n]);
      var pair := it.Offered();
      trace, places := trace + [pair], places + [it.at];
    }
  }

  method Operate(it: TwoLevelIterator, lt: Order, op: Op)
    requires it.Valid() && IsOrder(lt) && Indexes(it.blocks, it.index, lt)
    modifies it
    ensures it.Valid() && Moves(Flat(it.blocks), lt, op, old(it.at), it.at)
  {
    if it.hasData {
      it.Shows();
    }
    match op {
      case Next => if it.hasData { it.Next(); }
      case Prev => if it.hasData { it.Prev(); }
      case Seek(target) => it.Seek(lt, target);
      case SeekToFirst => it.SeekToFirst();
      case SeekToLast => it.SeekToLast();
    }
  }
}
