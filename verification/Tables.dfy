/** Tables (table/table_builder.cc, table/table.cc): data blocks, an index of
    separators and an optional filter block, and lookups through them. */
module Tables {
  import opened Coding
  import opened Comparators
  import opened FilterBlocks

  datatype Pair = Pair(key: IKey, value: Bytes)

  /** A written data block and where it starts in the file. */
  datatype Block = Block(offset: nat, pairs: seq<Pair>)

  datatype IndexEntry = IndexEntry(sep: IKey, offset: nat)

  datatype TableFile = TableFile(blocks: seq<Block>, index: seq<IndexEntry>, filter: Option<Bytes>)

  ghost predicate Increasing(pairs: seq<Pair>) {
    forall i, j :: 0 <= i < j < |pairs| ==> KeyBefore(pairs[i].key, pairs[j].key)
  }

  function Last(b: Block): Pair
    requires b.pairs != []
  {
    b.pairs[|b.pairs| - 1]
  }

  ghost function Pairs(blocks: seq<Block>): seq<Pair> {
    if blocks == [] then [] else Pairs(blocks[..|blocks| - 1]) + blocks[|blocks| - 1].pairs
  }

  // ----- what a finished table guarantees

  /** A separator is at or after everything in its block. */
  ghost predicate AtOrAfter(sep: IKey, b: Block) {
    forall p :: p in b.pairs ==> !KeyBefore(sep, p.key)
  }

  /** A separator is before a later pair: it is the last key of its own block or has an
      earlier user key. */
  ghost predicate Separates(sep: IKey, b: Block, p: Pair)
    requires b.pairs != []
  {
    && KeyBefore(Last(b).key, p.key)
    && (sep == Last(b).key || Less(sep.user, p.key.user))
  }

  ghost predicate SepAt(blocks: seq<Block>, index: seq<IndexEntry>, i: nat)
    requires i < |index| <= |blocks|
  {
    && blocks[i].pairs != []
    && index[i].offset == blocks[i].offset
    && AtOrAfter(index[i].sep, blocks[i])
  }

  ghost predicate SepsBefore(blocks: seq<Block>, index: seq<IndexEntry>, i: nat, later: seq<Pair>)
    requires i < |index| <= |blocks|
  {
    blocks[i].pairs != [] && forall p :: p in later ==> Separates(index[i].sep, blocks[i], p)
  }

  ghost predicate OffsetsUp(blocks: seq<Block>, i: nat, j: nat)
    requires i < j < |blocks|
  {
    blocks[i].offset < blocks[j].offset
  }

  ghost predicate Sound(t: TableFile) {
    && |t.index| == |t.blocks|
    && (forall i: nat :: i < |t.index| ==> SepAt(t.blocks, t.index, i) && Increasing(t.blocks[i].pairs))
    && (forall i: nat, j: nat :: i < j < |t.blocks| ==> SepsBefore(t.blocks, t.index, i, t.blocks[j].pairs))
    && (forall i: nat, j: nat :: i < j < |t.blocks| ==> OffsetsUp(t.blocks, i, j))
  }

  /** The filter block lets every user key of a block through for that block. */
  ghost predicate FilterSound(t: TableFile, mayMatch: Match) {
    t.filter.Some? ==>
      forall b, p :: b in t.blocks && p in b.pairs ==> MayMatch(t.filter.value, mayMatch, b.offset, p.key.user)
  }

  ghost predicate InTable(t: TableFile, p: Pair) {
    exists b :: b in t.blocks && p in b.pairs
  }

  predicate Visible(p: Pair, k: IKey) {
    p.key.user == k.user && p.key.tag <= k.tag
  }

  /** The pair a lookup of k must report. */
  ghost predicate Newest(t: TableFile, k: IKey, p: Pair) {
    && InTable(t, p)
    && Visible(p, k)
    && forall q :: InTable(t, q) && Visible(q, k) ==> q.key.tag <= p.key.tag
  }

  // ----- lookups

  lemma {:induction false} VisibleNotBefore(p: Pair, k: IKey)
    requires Visible(p, k)
    ensures !KeyBefore(p.key, k)
  {
    LessIrreflexive(k.user);
  }

  /** Index entry i is the first whose separator is not before k. */
  ghost predicate Lands(t: TableFile, k: IKey, i: nat) {
    && |t.index| == |t.blocks|
    && i <= |t.index|
    && (forall m: nat :: m < i ==> KeyBefore(t.index[m].sep, k))
    && (i < |t.index| ==> !KeyBefore(t.index[i].sep, k))
  }

  /** A visible pair is not in a block before the one the index search lands on. */
  lemma {:induction false} NotEarlier(t: TableFile, k: IKey, i: nat, j: nat, p: Pair)
    requires Sound(t) && Lands(t, k, i) && j < |t.blocks| && p in t.blocks[j].pairs && Visible(p, k)
    ensures i <= j
  {
  }

  /** When a visible pair is in a later block, the last pair of the landing block is
      visible and newer. */
  lemma {:induction false} LaterMeansLastVisible(t: TableFile, k: IKey, i: nat, j: nat, p: Pair)
    requires Sound(t) && Lands(t, k, i) && i < j < |t.blocks| && p in t.blocks[j].pairs && Visible(p, k)
    ensures t.blocks[i].pairs != [] && Visible(Last(t.blocks[i]), k) && Last(t.blocks[i]).key.tag > p.key.tag
  {
    assert SepsBefore(t.blocks, t.index, i, t.blocks[j].pairs);
    var sep, last := t.index[i].sep, Last(t.blocks[i]).key;
    assert Separates(sep, t.blocks[i], p);
    KeyBeforeTotal(k, sep);
    KeyBeforeTotal(last, p.key);
    if sep != last {
      LessAsymmetric(sep.user, k.user);
    } else {
      SandwichedUser(k, last, p.key);
    }
  }

  lemma {:induction false} SandwichedUser(k: IKey, x: IKey, y: IKey)
    requires !KeyBefore(x, k) && KeyBefore(x, y) && y.user == k.user
    ensures x.user == k.user && y.tag < x.tag <= k.tag
  {
    LessIrreflexive(k.user);
    LessTotal(x.user, k.user);
  }

  /** Pair n is the first of the block that is not before k. */
  ghost predicate First(pairs: seq<Pair>, k: IKey, n: nat) {
    && n <= |pairs|
    && (forall m :: 0 <= m < n ==> KeyBefore(pairs[m].key, k))
    && (n < |pairs| ==> !KeyBefore(pairs[n].key, k))
  }

  /** In the landing block, a visible pair means the first pair not before k is visible
      and no older. */
  lemma {:induction false} FirstIsNewest(pairs: seq<Pair>, k: IKey, n: nat, p: Pair)
    requires Increasing(pairs) && First(pairs, k, n) && p in pairs && Visible(p, k)
    ensures n < |pairs| && Visible(pairs[n], k) && p.key.tag <= pairs[n].key.tag
  {
    VisibleNotBefore(p, k);
    var m :| 0 <= m < |pairs| && pairs[m] == p;
    assert n <= m;
    if n < m {
      SandwichedUser(k, pairs[n].key, p.key);
    }
  }

  lemma {:induction false} LandingAnswers(t: TableFile, k: IKey, i: nat, q: Pair)
    requires Sound(t) && Lands(t, k, i) && InTable(t, q) && Visible(q, k)
    ensures i < |t.blocks|
    ensures exists p :: p in t.blocks[i].pairs && Visible(p, k) && q.key.tag <= p.key.tag
  {
    var b :| b in t.blocks && q in b.pairs;
    var j :| 0 <= j < |t.blocks| && t.blocks[j] == b;
    NotEarlier(t, k, i, j, q);
    if i < j {
      LaterMeansLastVisible(t, k, i, j, q);
      assert Last(t.blocks[i]) in t.blocks[i].pairs;
    }
  }

  /** Block::Iter::Seek on a block or the index, by its contract. */
  method SeekIndex(index: seq<IndexEntry>, k: IKey) returns (i: nat)
    ensures i <= |index|
    ensures forall m :: 0 <= m < i ==> KeyBefore(index[m].sep, k)
    ensures i < |index| ==> !KeyBefore(index[i].sep, k)
  {
    i := 0;
    while i < |index| && KeyBefore(index[i].sep, k)
      invariant 0 <= i <= |index|
      invariant forall m :: 0 <= m < i ==> KeyBefore(index[m].sep, k)
    {
      i := i + 1;
    }
  }

  method SeekPairs(pairs: seq<Pair>, k: IKey) returns (n: nat)
    ensures First(pairs, k, n)
  {
    n := 0;
    while n < |pairs| && KeyBefore(pairs[n].key, k)
      invariant 0 <= n <= |pairs|
      invariant forall m :: 0 <= m < n ==> KeyBefore(pairs[m].key, k)
    {
      n := n + 1;
    }
  }

  /** BlockReader: the block a handle names. */
  method ReadBlock(t: TableFile, offset: nat, ghost i: nat) returns (b: Block)
    requires Sound(t) && i < |t.blocks| && t.blocks[i].offset == offset
    ensures b == t.blocks[i]
  {
    forall m: nat | m < i
      ensures t.blocks[m].offset < offset
    {
      assert OffsetsUp(t.blocks, m, i);
    }
    var j := 0;
    while t.blocks[j].offset != offset
      invariant 0 <= j <= i
      decreases i - j
    {
      j := j + 1;
    }
    b := t.blocks[j];
  }

  /** Table::InternalGet followed by SaveValue: what a point lookup reports. */
  method InternalGet(t: TableFile, mayMatch: Match, k: IKey) returns (saved: Option<Pair>)
    requires Sound(t) && FilterSound(t, mayMatch)
    ensures saved.Some? ==> Newest(t, k, saved.value)
    ensures saved.None? ==> forall p :: InTable(t, p) ==> !Visible(p, k)
  {
    saved := None;
    var i := SeekIndex(t.index, k);
    assert Lands(t, k, i);
    forall q | InTable(t, q) && Visible(q, k)
      ensures i < |t.blocks| && exists p :: p in t.blocks[i].pairs && Visible(p, k) && q.key.tag <= p.key.tag
    {
      LandingAnswers(t, k, i, q);
    }
    if i < |t.index| {
      var offset := t.index[i].offset;
      assert SepAt(t.blocks, t.index, i);
      if t.filter.Some? && !MayMatch(t.filter.value, mayMatch, offset, k.user) {
        assert t.blocks[i] in t.blocks;
        return None;
      }
      var b := ReadBlock(t, offset, i);
      var n := SeekPairs(b.pairs, k);
      forall p | p in b.pairs && Visible(p, k)
        ensures n < |b.pairs| && Visible(b.pairs[n], k) && p.key.tag <= b.pairs[n].key.tag
      {
        FirstIsNewest(b.pairs, k, n, p);
      }
      if n < |b.pairs| && b.pairs[n].key.user == k.user {
        LessIrreflexive(k.user);
        assert b in t.blocks && b.pairs[n] in b.pairs && InTable(t, b.pairs[n]);
        saved := Some(b.pairs[n]);
      }
    }
  }

  // ----- building

  /** The index covers all written blocks but, while an entry is pending, the last. */
  ghost predicate Indexed(blocks: seq<Block>, index: seq<IndexEntry>, later: seq<Pair>) {
    && |index| <= |blocks|
    && (forall i: nat :: i < |index| ==> SepAt(blocks, index, i))
    && (forall i: nat, j: nat :: i < |index| && i < j < |blocks| ==> SepsBefore(blocks, index, i, blocks[j].pairs))
    && (forall i: nat :: i < |index| ==> SepsBefore(blocks, index, i, later))
  }

  /** Non-empty sorted blocks at increasing offsets below "end". */
  ghost predicate Written(blocks: seq<Block>, end: nat) {
    && (forall b :: b in blocks ==> b.pairs != [] && Increasing(b.pairs) && b.offset < end)
    && (forall i: nat, j: nat :: i < j < |blocks| ==> OffsetsUp(blocks, i, j))
  }

  /** Which filter has the keys of a block at this offset: one made, or the next. */
  ghost predicate Filed(filters: seq<seq<Bytes>>, pending: seq<Bytes>, offset: nat, pairs: seq<Pair>) {
    && offset / BASE <= |filters|
    && forall p :: p in pairs ==> p.key.user in if offset / BASE < |filters| then filters[offset / BASE] else pending
  }

  ghost predicate AllFiled(filters: seq<seq<Bytes>>, pending: seq<Bytes>, blocks: seq<Block>) {
    forall b :: b in blocks ==> Filed(filters, pending, b.offset, b.pairs)
  }

  /** Starting a block keeps every key under its block's filter. */
  lemma {:induction false} FiledStays(filters: seq<seq<Bytes>>, pending: seq<Bytes>, more: seq<seq<Bytes>>,
                                      next: seq<Bytes>, blocks: seq<Block>)
    requires AllFiled(filters, pending, blocks)
    requires |filters| < |more| ==> more[..|filters| + 1] == filters + [pending]
    requires |filters| == |more| ==> next == pending && more == filters
    requires |filters| <= |more|
    ensures AllFiled(more, next, blocks)
  {
  }

  lemma {:induction false} FiledMore(filters: seq<seq<Bytes>>, pending: seq<Bytes>, key: Bytes, blocks: seq<Block>)
    requires AllFiled(filters, pending, blocks)
    ensures AllFiled(filters, pending + [key], blocks)
  {
  }

  lemma {:induction false} FiledFlush(filters: seq<seq<Bytes>>, pending: seq<Bytes>, blocks: seq<Block>,
                                      offset: nat, pairs: seq<Pair>)
    requires AllFiled(filters, pending, blocks) && Filed(filters, pending, offset, pairs)
    ensures AllFiled(filters, pending, blocks + [Block(offset, pairs)])
  {
  }

  // ----- how the index grows

  lemma {:induction false} SeparatesLater(sep: IKey, b: Block, p: Pair, q: Pair)
    requires b.pairs != [] && Separates(sep, b, p) && KeyBefore(p.key, q.key)
    ensures Separates(sep, b, q)
  {
    KeyBeforeTransitive(Last(b).key, p.key, q.key);
    if Less(sep.user, p.key.user) && Less(p.key.user, q.key.user) {
      LessTransitive(sep.user, p.key.user, q.key.user);
    }
  }

  /** A pair after all others may follow in the data block. */
  lemma {:induction false} IndexedAdd(blocks: seq<Block>, index: seq<IndexEntry>, later: seq<Pair>, p: Pair)
    requires Indexed(blocks, index, later) && later != [] && (forall q :: q in later ==> KeyBefore(q.key, p.key))
    ensures Indexed(blocks, index, later + [p])
  {
    forall i: nat | i < |index|
      ensures SepsBefore(blocks, index, i, later + [p])
    {
      assert SepsBefore(blocks, index, i, later);
      assert later[0] in later;
      SeparatesLater(index[i].sep, blocks[i], later[0], p);
    }
  }

  /** The pending entry goes in once the next key is known. */
  lemma {:induction false} IndexedNext(blocks: seq<Block>, index: seq<IndexEntry>, e: IndexEntry, p: Pair)
    requires Indexed(blocks, index, []) && |index| + 1 == |blocks|
    requires SepAt(blocks, index + [e], |index|) && Separates(e.sep, blocks[|index|], p)
    requires KeyBefore(Last(blocks[|index|]).key, p.key)
    ensures Indexed(blocks, index + [e], [p])
  {
    var more, n := index + [e], |index|;
    forall i: nat | i < |more|
      ensures SepAt(blocks, more, i) && SepsBefore(blocks, more, i, [p])
    {
      if i < n {
        assert SepAt(blocks, index, i);
        assert SepsBefore(blocks, index, i, blocks[n].pairs);
        assert Last(blocks[n]) in blocks[n].pairs;
        SeparatesLater(index[i].sep, blocks[i], Last(blocks[n]), p);
      }
    }
    forall i: nat, j: nat | i < |more| && i < j < |blocks|
      ensures SepsBefore(blocks, more, i, blocks[j].pairs)
    {
      assert SepsBefore(blocks, index, i, blocks[j].pairs);
    }
  }

  /** The data block becomes a written block. */
  lemma {:induction false} IndexedFlush(blocks: seq<Block>, index: seq<IndexEntry>, later: seq<Pair>, offset: nat)
    requires Indexed(blocks, index, later)
    ensures Indexed(blocks + [Block(offset, later)], index, [])
  {
    var more := blocks + [Block(offset, later)];
    forall i: nat | i < |index|
      ensures SepAt(more, index, i) && SepsBefore(more, index, i, [])
    {
      assert SepAt(blocks, index, i);
      assert SepsBefore(blocks, index, i, later);
    }
    forall i: nat, j: nat | i < |index| && i < j < |more|
      ensures SepsBefore(more, index, i, more[j].pairs)
    {
      assert SepsBefore(blocks, index, i, if j < |blocks| then blocks[j].pairs else later);
    }
  }

  lemma {:induction false} WrittenFlush(blocks: seq<Block>, offset: nat, pairs: seq<Pair>, size: nat)
    requires Written(blocks, offset) && pairs != [] && Increasing(pairs) && size > 0
    ensures Written(blocks + [Block(offset, pairs)], offset + size)
  {
    var more := blocks + [Block(offset, pairs)];
    forall i: nat, j: nat | i < j < |more|
      ensures OffsetsUp(more, i, j)
    {
      if j < |blocks| {
        assert OffsetsUp(blocks, i, j);
      } else {
        assert blocks[i] in blocks;
      }
    }
  }

  /** A separator between the last key of a block and a later key. */
  lemma {:induction false} GoodSeparator(b: Block, sep: IKey, p: Pair)
    requires b.pairs != [] && Increasing(b.pairs) && KeyBefore(Last(b).key, p.key)
    requires sep == Last(b).key || (Less(Last(b).key.user, sep.user) && Less(sep.user, p.key.user))
    ensures AtOrAfter(sep, b) && Separates(sep, b, p)
  {
    AfterLast(b, sep);
  }

  lemma {:induction false} AfterLast(b: Block, sep: IKey)
    requires b.pairs != [] && Increasing(b.pairs)
    requires sep == Last(b).key || Less(Last(b).key.user, sep.user)
    ensures AtOrAfter(sep, b)
  {
    forall q | q in b.pairs
      ensures !KeyBefore(sep, q.key)
    {
      var m :| 0 <= m < |b.pairs| && b.pairs[m] == q;
      var last := Last(b).key;
      if m < |b.pairs| - 1 {
        assert KeyBefore(q.key, last);
        if sep != last {
          KeyBeforeTransitive(q.key, last, sep);
        }
        KeyBeforeTotal(q.key, sep);
      } else {
        KeyBeforeTotal(last, sep);
      }
    }
  }

  lemma {:induction false} IncreasingAdd(pairs: seq<Pair>, p: Pair)
    requires Increasing(pairs) && (forall q :: q in pairs ==> KeyBefore(q.key, p.key))
    ensures Increasing(pairs + [p])
  {
  }

  /** What the builder's parts have to do with each other between calls. */
  ghost predicate Progress(blocks: seq<Block>, index: seq<IndexEntry>, data: seq<Pair>, pending: bool,
                           lastKey: IKey, offset: nat)
  {
    && Written(blocks, offset)
    && Increasing(data)
    && Indexed(blocks, index, data)
    && |index| + (if pending then 1 else 0) == |blocks|
    && (pending ==> data == [])
    && (data == [] && blocks != [] ==> pending)
    && (data != [] ==> lastKey == data[|data| - 1].key)
    && (pending ==> blocks[|blocks| - 1].pairs != [] && lastKey == Last(blocks[|blocks| - 1]).key)
  }

  lemma {:induction false} ProgressFlush(blocks: seq<Block>, index: seq<IndexEntry>, data: seq<Pair>, lastKey: IKey,
                                         offset: nat, size: nat)
    requires Progress(blocks, index, data, false, lastKey, offset) && data != [] && size > 0
    ensures Progress(blocks + [Block(offset, data)], index, [], true, lastKey, offset + size)
  {
    IndexedFlush(blocks, index, data, offset);
    WrittenFlush(blocks, offset, data, size);
  }

  lemma {:induction false} AfterAll(pairs: seq<Pair>, p: Pair)
    requires pairs != [] && Increasing(pairs) && KeyBefore(pairs[|pairs| - 1].key, p.key)
    ensures forall q :: q in pairs ==> KeyBefore(q.key, p.key)
  {
    forall q | q in pairs
      ensures KeyBefore(q.key, p.key)
    {
      var m :| 0 <= m < |pairs| && pairs[m] == q;
      if m < |pairs| - 1 {
        KeyBeforeTransitive(q.key, pairs[|pairs| - 1].key, p.key);
      }
    }
  }

  lemma {:induction false} ProgressAdd(blocks: seq<Block>, index: seq<IndexEntry>, data: seq<Pair>, lastKey: IKey,
                                       offset: nat, p: Pair)
    requires Progress(blocks, index, data, false, lastKey, offset)
    requires data != [] ==> KeyBefore(lastKey, p.key)
    ensures Progress(blocks, index, data + [p], false, p.key, offset)
  {
    if data != [] {
      AfterAll(data, p);
      IndexedAdd(blocks, index, data, p);
      IncreasingAdd(data, p);
    } else {
      assert blocks == [] && data + [p] == [p];
    }
  }

  lemma {:induction false} ProgressNext(blocks: seq<Block>, index: seq<IndexEntry>, lastKey: IKey,
                                        offset: nat, e: IndexEntry, p: Pair)
    requires Progress(blocks, index, [], true, lastKey, offset) && KeyBefore(lastKey, p.key)
    requires e.sep == lastKey || (Less(lastKey.user, e.sep.user) && Less(e.sep.user, p.key.user))
    requires e.offset == blocks[|blocks| - 1].offset
    ensures Progress(blocks, index + [e], [p], false, p.key, offset)
  {
    var n := |index|;
    assert blocks[n] in blocks;
    GoodSeparator(blocks[n], e.sep, p);
    IndexedNext(blocks, index, e, p);
  }

  // ----- where blocks end

  /** A block is closed as soon as it is full, never earlier. */
  ghost predicate ClosedWhenFull(full: seq<Pair> -> bool, b: Block) {
    full(b.pairs) && NotFull(full, b.pairs, |b.pairs| - 1)
  }

  ghost predicate NotFull(full: seq<Pair> -> bool, pairs: seq<Pair>, n: int) {
    n <= |pairs| && forall m :: 0 < m <= n ==> !full(pairs[..m])
  }

  /** What is in the file was full, and what is not is not. */
  ghost predicate Cut(full: seq<Pair> -> bool, blocks: seq<Block>, data: seq<Pair>) {
    (forall i :: 0 <= i < |blocks| ==> ClosedWhenFull(full, blocks[i])) && NotFull(full, data, |data|)
  }

  lemma {:induction false} CutAdd(full: seq<Pair> -> bool, blocks: seq<Block>, data: seq<Pair>, p: Pair, offset: nat)
    requires Cut(full, blocks, data)
    ensures if full(data + [p]) then Cut(full, blocks + [Block(offset, data + [p])], []) else Cut(full, blocks, data + [p])
  {
    var more := data + [p];
    assert more[..|more|] == more;
    forall m | 0 < m <= |data|
      ensures !full(more[..m])
    {
      assert more[..m] == data[..m];
    }
  }

  /** All blocks were closed when full, except that the last need not be. */
  ghost predicate CutOff(full: seq<Pair> -> bool, blocks: seq<Block>) {
    && (forall i :: 0 <= i < |blocks| - 1 ==> ClosedWhenFull(full, blocks[i]))
    && (blocks != [] ==>
          var b := blocks[|blocks| - 1]; ClosedWhenFull(full, b) || NotFull(full, b.pairs, |b.pairs|))
  }

  lemma {:induction false} CutFinish(full: seq<Pair> -> bool, blocks: seq<Block>, data: seq<Pair>, offset: nat)
    requires Cut(full, blocks, data)
    ensures CutOff(full, blocks + if data == [] then [] else [Block(offset, data)])
  {
  }

  /** Blocks follow one another in the file. */
  ghost predicate Tiles(sizeOf: seq<Pair> -> nat, blocks: seq<Block>, offset: nat) {
    if blocks == [] then offset == 0
    else
      var n := |blocks| - 1;
      offset == blocks[n].offset + sizeOf(blocks[n].pairs) && Tiles(sizeOf, blocks[..n], blocks[n].offset)
  }

  lemma {:induction false} TilesFlush(sizeOf: seq<Pair> -> nat, blocks: seq<Block>, offset: nat, data: seq<Pair>)
    requires Tiles(sizeOf, blocks, offset)
    ensures Tiles(sizeOf, blocks + [Block(offset, data)], offset + sizeOf(data))
  {
    assert (blocks + [Block(offset, data)])[..|blocks|] == blocks;
  }

  class TableBuilder {
    /** Whether a data block's size estimate has reached the block size. */
    const full: seq<Pair> -> bool
    /** Bytes a block takes in the file, with its trailer. */
    const sizeOf: seq<Pair> -> nat
    const filter: FilterBlockBuilder?
    var offset: nat
    var dataBlock: seq<Pair>
    var blocks: seq<Block>
    var index: seq<IndexEntry>
    var pendingIndexEntry: bool
    var lastKey: IKey

    ghost predicate Valid()
      reads this, filter
    {
      Sized() && Filled()
    }

    ghost predicate Sized()
      reads this, filter
    {
      && (forall b: seq<Pair> :: sizeOf(b) > 0)
      && Progress(blocks, index, dataBlock, pendingIndexEntry, lastKey, offset)
      && Tiles(sizeOf, blocks, offset)
      && FilterValid()
    }

    ghost predicate Filled()
      reads this
    {
      Cut(full, blocks, dataBlock)
    }

    ghost predicate FilterValid()
      reads this, filter
    {
      filter != null ==>
        && filter.Valid()
        && |filter.filters| == offset / BASE
        && AllFiled(filter.filters, filter.pending, blocks)
        && Filed(filter.filters, filter.pending, offset, dataBlock)
    }

    ghost function Added(): seq<Pair>
      reads this
    {
      Pairs(blocks) + dataBlock
    }

    constructor (full: seq<Pair> -> bool, sizeOf: seq<Pair> -> nat, filter: FilterBlockBuilder?)
      requires forall b: seq<Pair> :: sizeOf(b) > 0
      requires filter != null ==> filter.Valid() && filter.filters == []
      ensures Valid() && Added() == [] && this.filter == filter
    {
      this.full, this.sizeOf, this.filter := full, sizeOf, filter;
      offset, dataBlock, blocks, index, pendingIndexEntry := 0, [], [], [], false;
      lastKey := IKey([], 0);
    }

    /** The filter builder is told where the next block starts. */
    method StartFilterBlock()
      requires filter != null ==> filter.Valid() && |filter.filters| <= offset / BASE
      requires filter != null ==> AllFiled(filter.filters, filter.pending, blocks)
      requires dataBlock == []
      modifies filter
      ensures FilterValid()
    {
      if filter != null {
        ghost var filters, pending := filter.filters, filter.pending;
        filter.StartBlock(offset);
        FiledStays(filters, pending, filter.filters, filter.pending, blocks);
      }
    }

    /** The data block goes to the file. */
    method WriteBlock()
      requires (forall b: seq<Pair> :: sizeOf(b) > 0) && dataBlock != []
      requires Progress(blocks, index, dataBlock, pendingIndexEntry, lastKey, offset) && Tiles(sizeOf, blocks, offset)
      modifies this`blocks, this`offset, this`dataBlock, this`pendingIndexEntry
      ensures Progress(blocks, index, dataBlock, pendingIndexEntry, lastKey, offset) && Tiles(sizeOf, blocks, offset)
      ensures blocks == old(blocks) + [Block(old(offset), old(dataBlock))] && dataBlock == [] && Added() == old(Added())
      ensures offset == old(offset) + sizeOf(old(dataBlock))
    {
      ProgressFlush(blocks, index, dataBlock, lastKey, offset, sizeOf(dataBlock));
      PairsAppend(blocks, Block(offset, dataBlock));
      TilesFlush(sizeOf, blocks, offset, dataBlock);
      blocks := blocks + [Block(offset, dataBlock)];
      offset := offset + sizeOf(dataBlock);
      dataBlock := [];
      pendingIndexEntry := true;
    }

    /** Its index entry waits for the next key. */
    method Flush()
      requires Sized()
      modifies this, filter
      ensures Sized() && dataBlock == [] && Added() == old(Added()) && lastKey == old(lastKey)
      ensures blocks == old(blocks) + if old(dataBlock) == [] then [] else [Block(old(offset), old(dataBlock))]
    {
      if dataBlock == [] {
        return;
      }
      if filter != null {
        FiledFlush(filter.filters, filter.pending, blocks, offset, dataBlock);
      }
      WriteBlock();
      StartFilterBlock();
    }

    /** The pending index entry, if there is one, then the pair. */
    method Append(pair: Pair)
      requires Progress(blocks, index, dataBlock, pendingIndexEntry, lastKey, offset)
      requires blocks != [] || dataBlock != [] ==> KeyBefore(lastKey, pair.key)
      modifies this`index, this`pendingIndexEntry, this`lastKey, this`dataBlock
      ensures Progress(blocks, index, dataBlock, pendingIndexEntry, lastKey, offset)
      ensures dataBlock == old(dataBlock) + [pair] && lastKey == pair.key
    {
      if pendingIndexEntry {
        var sep := FindInternalSeparator(lastKey, pair.key);
        var entry := IndexEntry(sep, blocks[|blocks| - 1].offset);
        ProgressNext(blocks, index, lastKey, offset, entry, pair);
        assert dataBlock + [pair] == [pair];
        index := index + [entry];
        pendingIndexEntry := false;
      } else {
        ProgressAdd(blocks, index, dataBlock, lastKey, offset, pair);
      }
      lastKey := pair.key;
      dataBlock := dataBlock + [pair];
    }

    method AddToFilter(pair: Pair)
      requires FilterValid()
      modifies filter
      ensures filter != null ==>
          && filter.Valid()
          && |filter.filters| == offset / BASE
          && AllFiled(filter.filters, filter.pending, blocks)
          && Filed(filter.filters, filter.pending, offset, dataBlock + [pair])
    {
      if filter != null {
        FiledMore(filter.filters, filter.pending, pair.key.user, blocks);
        filter.AddKey(pair.key.user);
      }
    }

    method Add(key: IKey, value: Bytes)
      requires Valid() && (blocks != [] || dataBlock != [] ==> KeyBefore(lastKey, key))
      modifies this, filter
      ensures Valid() && lastKey == key && Added() == old(Added()) + [Pair(key, value)]
    {
      AddToFilter(Pair(key, value));
      Append(Pair(key, value));
      assert Added() == old(Added()) + [Pair(key, value)];
      CutAdd(full, blocks, old(dataBlock), Pair(key, value), offset);
      if full(dataBlock) {
        Flush();
      }
    }

    /** The last index entry has no next key to stay below. */
    method FinishIndex()
      requires Progress(blocks, index, dataBlock, pendingIndexEntry, lastKey, offset) && dataBlock == []
      modifies this`index, this`pendingIndexEntry, this`lastKey
      ensures Sound(TableFile(blocks, index, None))
    {
      if pendingIndexEntry {
        lastKey := FindInternalSuccessor(lastKey);
        var entry := IndexEntry(lastKey, blocks[|blocks| - 1].offset);
        IndexedLast(blocks, index, old(lastKey), offset, entry);
        index := index + [entry];
        pendingIndexEntry := false;
      }
      SoundIndex(blocks, index, offset);
    }

    method FinishFilter(ghost mayMatch: Match) returns (f: Option<Bytes>)
      requires FilterValid() && (filter != null ==> NoFalseNegatives(filter.create, mayMatch))
      modifies filter
      ensures f.Some? <==> filter != null
      ensures f.Some? && |f.value| < U32 ==>
        forall b, p :: b in blocks && p in b.pairs ==> MayMatch(f.value, mayMatch, b.offset, p.key.user)
    {
      f := None;
      if filter != null {
        ghost var filters, pending := filter.filters, filter.pending;
        var contents := filter.Finish();
        f := Some(contents);
        if |contents| < U32 {
          AllMatch(contents, filter.create, mayMatch, filter.filterOffsets, filters, pending, filter.filters, blocks);
        }
      }
    }

    /** Finish: the table lookups will see. */
    method Finish(ghost mayMatch: Match) returns (t: TableFile)
      requires Valid() && (filter != null ==> NoFalseNegatives(filter.create, mayMatch))
      modifies this, filter
      ensures Sound(t) && Pairs(t.blocks) == old(Added())
      ensures exists end :: Tiles(sizeOf, t.blocks, end)
      ensures CutOff(full, t.blocks)
      ensures t.filter.Some? <==> filter != null
      ensures t.filter.Some? && |t.filter.value| < U32 ==> FilterSound(t, mayMatch)
    {
      CutFinish(full, blocks, dataBlock, offset);
      Flush();
      var f := FinishFilter(mayMatch);
      FinishIndex();
      t := TableFile(blocks, index, f);
      assert Tiles(sizeOf, t.blocks, offset);
      assert Sound(TableFile(blocks, index, None));
      assert Pairs(blocks) + [] == Pairs(blocks);
    }
  }

  lemma {:induction false} IndexedLast(blocks: seq<Block>, index: seq<IndexEntry>, lastKey: IKey, offset: nat, e: IndexEntry)
    requires Progress(blocks, index, [], true, lastKey, offset)
    requires e.sep == lastKey || Less(lastKey.user, e.sep.user)
    requires e.offset == blocks[|blocks| - 1].offset
    ensures Indexed(blocks, index + [e], [])
  {
    var more, n := index + [e], |index|;
    assert blocks[n] in blocks;
    AfterLast(blocks[n], e.sep);
    forall i: nat | i < |more|
      ensures SepAt(blocks, more, i) && SepsBefore(blocks, more, i, [])
    {
      if i < n {
        assert SepAt(blocks, index, i);
      }
    }
    forall i: nat, j: nat | i < |more| && i < j < |blocks|
      ensures SepsBefore(blocks, more, i, blocks[j].pairs)
    {
      assert SepsBefore(blocks, index, i, blocks[j].pairs);
    }
  }

  lemma {:induction false} SoundIndex(blocks: seq<Block>, index: seq<IndexEntry>, offset: nat)
    requires Written(blocks, offset) && Indexed(blocks, index, []) && |index| == |blocks|
    ensures Sound(TableFile(blocks, index, None))
  {
  }

  /** Once the last filter is made, every key of every block matches. */
  lemma {:induction false} AllMatch(contents: Bytes, create: Create, mayMatch: Match, offsets: seq<nat>,
                                    filters: seq<seq<Bytes>>, pending: seq<Bytes>, all: seq<seq<Bytes>>, blocks: seq<Block>)
    requires FilterHolds(contents, create, offsets, all) && NoFalseNegatives(create, mayMatch)
    requires all == filters + if pending == [] then [] else [pending]
    requires AllFiled(filters, pending, blocks)
    ensures forall b, p :: b in blocks && p in b.pairs ==> MayMatch(contents, mayMatch, b.offset, p.key.user)
  {
    forall b, p | b in blocks && p in b.pairs
      ensures MayMatch(contents, mayMatch, b.offset, p.key.user)
    {
      assert Filed(filters, pending, b.offset, b.pairs);
      AddedKeyMatches(contents, create, mayMatch, offsets, all, b.offset, p.key.user);
    }
  }

  lemma {:induction false} PairsAppend(blocks: seq<Block>, b: Block)
    ensures Pairs(blocks + [b]) == Pairs(blocks) + b.pairs
  {
    assert (blocks + [b])[..|blocks|] == blocks;
  }

  /** Lookups see exactly the pairs that were added. */
  lemma {:induction false} InTableIsAdded(t: TableFile, p: Pair)
    ensures InTable(t, p) <==> p in Pairs(t.blocks)
    decreases |t.blocks|
  {
    if t.blocks != [] {
      var init, last := t.blocks[..|t.blocks| - 1], t.blocks[|t.blocks| - 1];
      InTableIsAdded(t.(blocks := init), p);
      assert t.blocks == init + [last];
      assert InTable(t, p) <==> InTable(t.(blocks := init), p) || p in last.pairs;
    }
  }
}
