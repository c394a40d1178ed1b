/** Filter blocks (table/filter_block.cc) and the Bloom policy (util/bloom.cc): a key
    that was added is never filtered out. */
module FilterBlocks {
  import opened Coding
  import opened BlockFormat

  const BASE: nat := 2048
  const BASE_LG: byte := 11

  /** FilterPolicy: summarise keys, and ask whether a key may be among them. */
  type Create = seq<Bytes> -> Bytes
  type Match = (Bytes, Bytes) -> bool

  ghost predicate NoFalseNegatives(create: Create, mayMatch: Match) {
    forall keys: seq<Bytes>, key: Bytes :: key in keys ==> mayMatch(key, create(keys))
  }

  // ----- keys flattened into one string

  function Flat(keys: seq<Bytes>): Bytes {
    if keys == [] then [] else Flat(keys[..|keys| - 1]) + keys[|keys| - 1]
  }

  lemma {:induction false} FlatAppend(keys: seq<Bytes>, key: Bytes)
    ensures Flat(keys + [key]) == Flat(keys) + key
  {
    assert (keys + [key])[..|keys|] == keys;
  }

  lemma {:induction false} FlatPrefix(keys: seq<Bytes>, i: nat)
    requires i <= |keys|
    ensures |Flat(keys[..i])| <= |Flat(keys)| && Flat(keys)[..|Flat(keys[..i])|] == Flat(keys[..i])
    decreases |keys|
  {
    if i == |keys| {
      assert keys[..i] == keys;
    } else {
      var init := keys[..|keys| - 1];
      FlatPrefix(init, i);
      assert init[..i] == keys[..i];
      assert Flat(keys)[..|Flat(init)|] == Flat(init);
    }
  }

  /** Key i is the stretch between two consecutive starts. */
  lemma {:induction false} FlatSlice(keys: seq<Bytes>, i: nat)
    requires i < |keys|
    ensures var lo, hi := |Flat(keys[..i])|, |Flat(keys[..i + 1])|;
      lo <= hi <= |Flat(keys)| && Flat(keys)[lo..hi] == keys[i]
  {
    var lo, hi := |Flat(keys[..i])|, |Flat(keys[..i + 1])|;
    assert keys[..i + 1] == keys[..i] + [keys[i]];
    FlatAppend(keys[..i], keys[i]);
    FlatPrefix(keys, i + 1);
    assert Flat(keys)[lo..hi] == Flat(keys)[..hi][lo..hi];
  }

  ghost predicate StartsOf(start: seq<nat>, keys: seq<Bytes>) {
    |start| == |keys| && forall i :: 0 <= i < |start| ==> start[i] == |Flat(keys[..i])|
  }

  // ----- the filters of a block

  function Part(create: Create, keys: seq<Bytes>): Bytes {
    if keys == [] then [] else create(keys)
  }

  /** All filters one after another. */
  function Joined(create: Create, filters: seq<seq<Bytes>>): Bytes {
    if filters == [] then []
    else Joined(create, filters[..|filters| - 1]) + Part(create, filters[|filters| - 1])
  }

  lemma {:induction false} JoinedAppend(create: Create, filters: seq<seq<Bytes>>, keys: seq<Bytes>)
    ensures Joined(create, filters + [keys]) == Joined(create, filters) + Part(create, keys)
  {
    assert (filters + [keys])[..|filters|] == filters;
  }

  lemma {:induction false} JoinedPrefix(create: Create, filters: seq<seq<Bytes>>, i: nat)
    requires i <= |filters|
    ensures var p := Joined(create, filters[..i]);
      |p| <= |Joined(create, filters)| && Joined(create, filters)[..|p|] == p
    decreases |filters|
  {
    if i == |filters| {
      assert filters[..i] == filters;
    } else {
      var init := filters[..|filters| - 1];
      JoinedPrefix(create, init, i);
      assert init[..i] == filters[..i];
      assert Joined(create, filters)[..|Joined(create, init)|] == Joined(create, init);
    }
  }

  lemma {:induction false} JoinedSlice(create: Create, filters: seq<seq<Bytes>>, i: nat)
    requires i < |filters|
    ensures var lo, hi := |Joined(create, filters[..i])|, |Joined(create, filters[..i + 1])|;
      lo <= hi <= |Joined(create, filters)| && Joined(create, filters)[lo..hi] == Part(create, filters[i])
  {
    var lo, hi := |Joined(create, filters[..i])|, |Joined(create, filters[..i + 1])|;
    assert filters[..i + 1] == filters[..i] + [filters[i]];
    JoinedAppend(create, filters[..i], filters[i]);
    JoinedPrefix(create, filters, i + 1);
    assert Joined(create, filters)[lo..hi] == Joined(create, filters)[..hi][lo..hi];
  }

  ghost predicate OffsetsOf(create: Create, offsets: seq<nat>, filters: seq<seq<Bytes>>) {
    |offsets| == |filters| && forall i :: 0 <= i < |offsets| ==> offsets[i] == |Joined(create, filters[..i])|
  }

  /** The filter block a builder finishes. */
  ghost predicate FilterHolds(contents: Bytes, create: Create, offsets: seq<nat>, filters: seq<seq<Bytes>>) {
    && |contents| < U32
    && OffsetsOf(create, offsets, filters)
    && contents == Joined(create, filters) + RestartArray(offsets) + Fixed(|Joined(create, filters)|, 4) + [BASE_LG]
  }

  class FilterBlockBuilder {
    const create: Create
    var keys: Bytes
    var start: seq<nat>
    var result: Bytes
    var filterOffsets: seq<nat>
    /** Keys of the filters made so far, and of the next one. */
    ghost var filters: seq<seq<Bytes>>
    ghost var pending: seq<Bytes>

    ghost predicate Valid()
      reads this
    {
      && keys == Flat(pending)
      && StartsOf(start, pending)
      && result == Joined(create, filters)
      && OffsetsOf(create, filterOffsets, filters)
    }

    constructor (create: Create)
      ensures Valid() && filters == [] && pending == [] && this.create == create
    {
      this.create := create;
      keys, start, result, filterOffsets, filters, pending := [], [], [], [], [], [];
    }

    method AddKey(key: Bytes)
      requires Valid()
      modifies this
      ensures Valid() && filters == old(filters) && pending == old(pending) + [key]
    {
      FlatAppend(pending, key);
      start := start + [|keys|];
      keys := keys + key;
      pending := pending + [key];
      assert forall i :: 0 <= i < |pending| ==> pending[..i] == old(pending)[..i];
    }

    /** The list of keys back from the flattened structure. */
    method Unflatten() returns (list: seq<Bytes>)
      requires keys == Flat(pending) && StartsOf(start, pending)
      ensures list == pending
    {
      list := [];
      for i := 0 to |start|
        invariant list == pending[..i]
      {
        FlatSlice(pending, i);
        assert pending[..|pending|] == pending;
        var limit := if i + 1 < |start| then start[i + 1] else |keys|;
        list := list + [keys[start[i]..limit]];
      }
    }

    method GenerateFilter()
      requires Valid()
      modifies this
      ensures Valid() && filters == old(filters) + [old(pending)] && pending == []
    {
      JoinedAppend(create, filters, pending);
      assert filters[..|filters|] == filters;
      filterOffsets := filterOffsets + [|result|];
      if |start| > 0 {
        var list := Unflatten();
        result := result + create(list);
      }
      ghost var was := filters;
      filters := filters + [pending];
      assert forall i :: 0 <= i <= |was| ==> filters[..i] == was[..i];
      keys, start, pending := [], [], [];
    }

    method StartBlock(blockOffset: nat)
      requires Valid() && |filters| <= blockOffset / BASE
      modifies this
      ensures Valid() && |filters| == blockOffset / BASE
      ensures |old(filters)| < |filters| ==> pending == [] && filters[..|old(filters)| + 1] == old(filters) + [old(pending)]
      ensures |old(filters)| == |filters| ==> pending == old(pending) && filters == old(filters)
    {
      var filterIndex := blockOffset / BASE;
      while filterIndex > |filterOffsets|
        invariant Valid() && |filters| <= filterIndex
        invariant |old(filters)| <= |filters|
        invariant |old(filters)| < |filters| ==> pending == [] && filters[..|old(filters)| + 1] == old(filters) + [old(pending)]
        invariant |old(filters)| == |filters| ==> pending == old(pending) && filters == old(filters)
      {
        GenerateFilter();
      }
    }

    method Finish() returns (contents: Bytes)
      requires Valid()
      modifies this
      ensures |contents| < U32 ==> FilterHolds(contents, create, filterOffsets, filters)
      ensures filters == old(filters) + if old(pending) == [] then [] else [old(pending)]
    {
      if |start| > 0 {
        GenerateFilter();
      }
      var arrayOffset := |result|;
      contents := PutOffsets(result, filterOffsets);
      contents := contents + Fixed(arrayOffset, 4);
      contents := contents + [BASE_LG];
    }
  }

  // ----- reading

  function Word(s: Bytes, i: nat): nat
    requires i + 4 <= |s|
  {
    FixedValue(s[i..i + 4])
  }

  /** Filter "index" of an offset array at "base": empty filters match nothing, and
      offsets that make no sense count as a possible match. */
  predicate MatchAt(contents: Bytes, mayMatch: Match, base: nat, index: nat, key: Bytes)
    requires base + index * 4 + 8 <= |contents|
  {
    var start, limit := Word(contents, base + index * 4), Word(contents, base + index * 4 + 4);
    if start <= limit && limit <= base then mayMatch(key, contents[start..limit])
    else start != limit
  }

  /** A filter past the end of the array counts as a possible match. */
  predicate MatchIn(contents: Bytes, mayMatch: Match, base: nat, index: nat, key: Bytes)
    requires base + 5 <= |contents|
  {
    index < (|contents| - 5 - base) / 4 ==> MatchAt(contents, mayMatch, base, index, key)
  }

  /** A right shift. */
  function Shifted(v: nat, lg: nat): nat
    decreases lg
  {
    if lg == 0 then v else Shifted(v / 2, lg - 1)
  }

  /** FilterBlockReader::KeyMayMatch: errors count as possible matches. */
  predicate MayMatch(contents: Bytes, mayMatch: Match, blockOffset: nat, key: Bytes) {
    var n := |contents|;
    n < 5 ||
    var base := Word(contents, n - 5);
    base > n - 5 || MatchIn(contents, mayMatch, base, Shifted(blockOffset, contents[n - 1]), key)
  }

  lemma {:induction false} WordInside(a: Bytes, v: nat, b: Bytes)
    requires v < U32
    ensures Word(a + Fixed(v, 4) + b, |a|) == v
  {
    assert (a + Fixed(v, 4) + b)[|a|..|a| + 4] == Fixed(v, 4);
    Pow256Values();
    FixedRoundTrip(v, 4);
  }

  /** The filter an index names, as the reader finds it. */
  lemma {:induction false} SlotWord(contents: Bytes, a: Bytes, offsets: seq<nat>, rest: Bytes, i: nat)
    requires contents == a + RestartArray(offsets) + rest && i < |offsets| && offsets[i] < U32
    ensures |a| + i * 4 + 4 <= |contents| && Word(contents, |a| + i * 4) == offsets[i]
  {
    RestartSlot(offsets, i);
    assert contents[|a| + i * 4..|a| + i * 4 + 4] == RestartArray(offsets)[4 * i..4 * i + 4];
    Pow256Values();
    FixedRoundTrip(offsets[i], 4);
  }

  lemma {:induction false} FilterBase(contents: Bytes, create: Create, offsets: seq<nat>, filters: seq<seq<Bytes>>)
    requires FilterHolds(contents, create, offsets, filters)
    ensures var n, size := |contents|, |Joined(create, filters)|;
      && n == size + 4 * |offsets| + 5
      && contents[n - 1] == BASE_LG
      && Word(contents, n - 5) == size
      && contents[..size] == Joined(create, filters)
  {
    var joined, slots := Joined(create, filters), RestartArray(offsets);
    WordInside(joined + slots, |joined|, [BASE_LG]);
    assert contents[..|joined|] == joined;
  }

  lemma {:induction false} StartWord(contents: Bytes, create: Create, offsets: seq<nat>, filters: seq<seq<Bytes>>, i: nat)
    requires FilterHolds(contents, create, offsets, filters) && i < |filters|
    ensures var size := |Joined(create, filters)|;
      size + i * 4 + 4 <= |contents| && Word(contents, size + i * 4) == |Joined(create, filters[..i])|
  {
    var joined := Joined(create, filters);
    var rest := Fixed(|joined|, 4) + [BASE_LG];
    JoinedPrefix(create, filters, i);
    assert contents == joined + RestartArray(offsets) + rest;
    SlotWord(contents, joined, offsets, rest, i);
  }

  /** The limit of the last filter is the word after the array. */
  lemma {:induction false} LimitWord(contents: Bytes, create: Create, offsets: seq<nat>, filters: seq<seq<Bytes>>, i: nat)
    requires FilterHolds(contents, create, offsets, filters) && i < |filters|
    ensures var size := |Joined(create, filters)|;
      size + i * 4 + 8 <= |contents| && Word(contents, size + i * 4 + 4) == |Joined(create, filters[..i + 1])|
  {
    FilterBase(contents, create, offsets, filters);
    if i + 1 < |filters| {
      StartWord(contents, create, offsets, filters, i + 1);
    } else {
      assert filters[..i + 1] == filters;
    }
  }

  lemma {:induction false} BaseShift(o: nat)
    ensures Shifted(o, BASE_LG) == o / BASE
  {
  }

  lemma {:induction false} MatchAtIff(contents: Bytes, create: Create, mayMatch: Match, offsets: seq<nat>,
                                      filters: seq<seq<Bytes>>, i: nat, key: Bytes)
    requires FilterHolds(contents, create, offsets, filters) && i < |filters|
    ensures var size := |Joined(create, filters)|;
      size + i * 4 + 8 <= |contents| && (MatchAt(contents, mayMatch, size, i, key) <==> mayMatch(key, Part(create, filters[i])))
  {
    var joined := Joined(create, filters);
    var lo, hi := |Joined(create, filters[..i])|, |Joined(create, filters[..i + 1])|;
    FilterBase(contents, create, offsets, filters);
    StartWord(contents, create, offsets, filters, i);
    LimitWord(contents, create, offsets, filters, i);
    JoinedSlice(create, filters, i);
    assert contents[lo..hi] == contents[..|joined|][lo..hi];
  }

  /** What the reader asks of a finished filter block, exactly: the filter of the keys
      filed for the 2048 bytes the block starts in; past the last filter, nothing. */
  lemma {:induction false} MatchesIff(contents: Bytes, create: Create, mayMatch: Match, offsets: seq<nat>,
                                      filters: seq<seq<Bytes>>, blockOffset: nat, key: Bytes)
    requires FilterHolds(contents, create, offsets, filters)
    ensures MayMatch(contents, mayMatch, blockOffset, key) <==>
      (blockOffset / 2048 < |filters| ==> mayMatch(key, Part(create, filters[blockOffset / 2048])))
  {
    FilterBase(contents, create, offsets, filters);
    BaseShift(blockOffset);
    if blockOffset / 2048 < |filters| {
      MatchAtIff(contents, create, mayMatch, offsets, filters, blockOffset / 2048, key);
    }
  }

  /** A key added under a block's filter is never filtered out for that block. */
  lemma {:induction false} AddedKeyMatches(contents: Bytes, create: Create, mayMatch: Match, offsets: seq<nat>,
                                           filters: seq<seq<Bytes>>, blockOffset: nat, key: Bytes)
    requires FilterHolds(contents, create, offsets, filters) && NoFalseNegatives(create, mayMatch)
    requires blockOffset / BASE < |filters| && key in filters[blockOffset / BASE]
    ensures MayMatch(contents, mayMatch, blockOffset, key)
  {
    MatchesIff(contents, create, mayMatch, offsets, filters, blockOffset, key);
    assert mayMatch(key, create(filters[blockOffset / BASE]));
  }
}
