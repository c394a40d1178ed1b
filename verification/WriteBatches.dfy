/** Write batches (db/write_batch.cc): encoding, iteration, and insertion into a
    memtable under consecutive sequence numbers. */
module WriteBatches {
  import opened Coding
  import opened MemTables
  import Entries

  datatype Item = PutItem(key: Bytes, value: Bytes) | DeleteItem(key: Bytes)

  datatype Status = Ok | TooSmall | BadPut | BadDelete | UnknownTag | WrongCount

  const BATCH_HEADER: nat := 12

  predicate Sized(it: Item) {
    |it.key| < U32 && (it.PutItem? ==> |it.value| < U32)
  }

  function ItemBytes(it: Item): Bytes {
    match it
    case PutItem(key, value) => [1] + (Prefixed(key) + Prefixed(value))
    case DeleteItem(key) => [0] + Prefixed(key)
  }

  function ItemsBytes(items: seq<Item>): Bytes {
    if items == [] then [] else ItemBytes(items[0]) + ItemsBytes(items[1..])
  }

  lemma {:induction false} ItemsBytesAppend(items: seq<Item>, it: Item)
    ensures ItemsBytes(items + [it]) == ItemsBytes(items) + ItemBytes(it)
    decreases |items|
  {
    if items == [] {
      assert (items + [it])[1..] == [] && [] + ItemBytes(it) == ItemBytes(it) + [];
    } else {
      assert (items + [it])[1..] == items[1..] + [it];
      ItemsBytesAppend(items[1..], it);
      Associate(ItemBytes(items[0]), ItemsBytes(items[1..]), ItemBytes(it));
    }
  }

  lemma {:induction false} Associate(a: Bytes, b: Bytes, c: Bytes)
    ensures a + (b + c) == (a + b) + c
  {
  }

  /** A batch as it is written to the log. */
  function BatchBytes(sequence: nat, items: seq<Item>): Bytes {
    Fixed(sequence, 8) + Fixed(|items|, 4) + ItemsBytes(items)
  }

  lemma {:induction false} Splice(a: Bytes, b: Bytes, c: Bytes, d: Bytes, e: Bytes)
    ensures (a + b + c)[..|a|] == a && (a + b + c)[|a| + |b|..] == c
    ensures a + d + c + e == a + d + (c + e)
  {
  }

  /** Rewriting the count and appending an item gives the longer batch. */
  lemma {:induction false} BatchAppend(sequence: nat, items: seq<Item>, it: Item)
    ensures var rep := BatchBytes(sequence, items);
      rep[..8] + Fixed(|items| + 1, 4) + rep[12..] + ItemBytes(it) == BatchBytes(sequence, items + [it])
  {
    ItemsBytesAppend(items, it);
    Splice(Fixed(sequence, 8), Fixed(|items|, 4), ItemsBytes(items), Fixed(|items| + 1, 4), ItemBytes(it));
  }

  class WriteBatch {
    var rep: Bytes
    ghost var sequence: nat
    ghost var items: seq<Item>

    ghost predicate Valid()
      reads this
    {
      rep == BatchBytes(sequence, items) && |items| < U32 && sequence < U64
    }

    constructor ()
      ensures Valid() && items == [] && sequence == 0
    {
      rep, sequence, items := Fixed(0, 8) + Fixed(0, 4), 0, [];
      new;
      assert ItemsBytes(items) == [];
    }

    method SetSequence(seqno: nat)
      requires Valid() && seqno < U64
      modifies this
      ensures Valid() && items == old(items) && sequence == seqno
    {
      rep := Fixed(seqno, 8) + rep[8..];
      sequence := seqno;
      assert rep == BatchBytes(sequence, items);
    }

    method Count() returns (n: nat)
      requires Valid()
      ensures n == |items|
    {
      Pow256Values();
      FixedRoundTrip(|items|, 4);
      assert rep[8..12] == Fixed(|items|, 4);
      n := FixedValue(rep[8..12]);
    }

    method Append(bytes: Bytes, ghost it: Item)
      requires Valid() && |items| + 1 < U32 && bytes == ItemBytes(it)
      modifies this
      ensures Valid() && items == old(items) + [it] && sequence == old(sequence)
    {
      var n := Count();
      BatchAppend(sequence, items, it);
      var counted := rep[..8] + Fixed(n + 1, 4) + rep[12..];
      assert counted + bytes == BatchBytes(sequence, items + [it]);
      rep := counted + bytes;
      items := items + [it];
    }

    method Put(key: Bytes, value: Bytes)
      requires Valid() && |items| + 1 < U32
      modifies this
      ensures Valid() && items == old(items) + [PutItem(key, value)] && sequence == old(sequence)
    {
      var bytes := PutLengthPrefixed([1], key);
      bytes := PutLengthPrefixed(bytes, value);
      Associate([1], Prefixed(key), Prefixed(value));
      Append(bytes, PutItem(key, value));
    }

    method Delete(key: Bytes)
      requires Valid() && |items| + 1 < U32
      modifies this
      ensures Valid() && items == old(items) + [DeleteItem(key)] && sequence == old(sequence)
    {
      var bytes := PutLengthPrefixed([0], key);
      Append(bytes, DeleteItem(key));
    }
  }

  // ----- iteration

  /** One item at the front of the input, or what is wrong with it. */
  datatype Parsed = Next(item: Item, rest: Bytes) | Wrong(status: Status)

  function ParseItem(s: Bytes): (r: Parsed)
    requires s != []
    ensures r.Next? ==> |r.rest| < |s|
  {
    if s[0] == 1 then
      match ParsePrefixed(s[1..])
      case None => Wrong(BadPut)
      case Some((key, more)) =>
        (match ParsePrefixed(more)
         case None => Wrong(BadPut)
         case Some((value, rest)) => Next(PutItem(key, value), rest))
    else if s[0] == 0 then
      match ParsePrefixed(s[1..])
      case None => Wrong(BadDelete)
      case Some((key, rest)) => Next(DeleteItem(key), rest)
    else Wrong(UnknownTag)
  }

  /** The items handed to the handler, and the status once the input is empty or wrong. */
  function ParseItems(s: Bytes): (seq<Item>, Status)
    decreases |s|
  {
    if s == [] then ([], Ok)
    else
      match ParseItem(s)
      case Wrong(status) => ([], status)
      case Next(item, rest) =>
        var more := ParseItems(rest);
        ([item] + more.0, more.1)
  }

  function Iterated(rep: Bytes): (seq<Item>, Status) {
    if |rep| < BATCH_HEADER then ([], TooSmall)
    else
      var (items, status) := ParseItems(rep[BATCH_HEADER..]);
      (items, if status == Ok && |items| != FixedValue(rep[8..12]) then WrongCount else status)
  }

  lemma {:induction false} DropTag(t: byte, p: Bytes, q: Bytes, rest: Bytes)
    ensures ([t] + (p + q) + rest)[1..] == p + (q + rest)
    ensures ([t] + p + rest)[1..] == p + rest
  {
    assert forall i :: 0 <= i < |p + (q + rest)| ==> ([t] + (p + q) + rest)[1..][i] == (p + (q + rest))[i];
  }

  lemma {:induction false} ParsesPut(key: Bytes, value: Bytes, rest: Bytes)
    requires |key| < U32 && |value| < U32
    ensures ItemBytes(PutItem(key, value)) + rest != []
    ensures ParseItem(ItemBytes(PutItem(key, value)) + rest) == Next(PutItem(key, value), rest)
  {
    DropTag(1, Prefixed(key), Prefixed(value), rest);
    PrefixedRoundTrip(key, Prefixed(value) + rest);
    PrefixedRoundTrip(value, rest);
  }

  lemma {:induction false} ParsesDelete(key: Bytes, rest: Bytes)
    requires |key| < U32
    ensures ItemBytes(DeleteItem(key)) + rest != []
    ensures ParseItem(ItemBytes(DeleteItem(key)) + rest) == Next(DeleteItem(key), rest)
  {
    DropTag(0, Prefixed(key), [], rest);
    PrefixedRoundTrip(key, rest);
  }

  lemma {:induction false} ParsesItem(it: Item, rest: Bytes)
    requires Sized(it)
    ensures ItemBytes(it) + rest != [] && ParseItem(ItemBytes(it) + rest) == Next(it, rest)
  {
    match it
    case PutItem(key, value) => ParsesPut(key, value, rest);
    case DeleteItem(key) => ParsesDelete(key, rest);
  }

  lemma {:induction false} ParsesItems(items: seq<Item>)
    requires forall it :: it in items ==> Sized(it)
    ensures ParseItems(ItemsBytes(items)) == (items, Ok)
    decreases |items|
  {
    if items != [] {
      ParsesItem(items[0], ItemsBytes(items[1..]));
      ParsesItems(items[1..]);
      assert [items[0]] + items[1..] == items;
    }
  }

  /** Iterating an encoded batch calls the handler with exactly its items. */
  lemma {:induction false} BatchRoundTrip(sequence: nat, items: seq<Item>)
    requires forall it :: it in items ==> Sized(it)
    requires |items| < U32 && sequence < U64
    ensures Iterated(BatchBytes(sequence, items)) == (items, Ok)
    ensures FixedValue(BatchBytes(sequence, items)[..8]) == sequence
  {
    var rep := BatchBytes(sequence, items);
    assert rep[BATCH_HEADER..] == ItemsBytes(items);
    assert rep[8..12] == Fixed(|items|, 4) && rep[..8] == Fixed(sequence, 8);
    Pow256Values();
    FixedRoundTrip(|items|, 4);
    FixedRoundTrip(sequence, 8);
    ParsesItems(items);
  }

  method ReadItem(s: Bytes) returns (r: Parsed)
    requires s != []
    ensures r == ParseItem(s)
  {
    if s[0] == 1 {
      var k := GetLengthPrefixed(s[1..]);
      if k.None? { return Wrong(BadPut); }
      var v := GetLengthPrefixed(k.value.1);
      if v.None? { return Wrong(BadPut); }
      return Next(PutItem(k.value.0, v.value.0), v.value.1);
    } else if s[0] == 0 {
      var k := GetLengthPrefixed(s[1..]);
      if k.None? { return Wrong(BadDelete); }
      return Next(DeleteItem(k.value.0), k.value.1);
    }
    return Wrong(UnknownTag);
  }

  method Iterate(rep: Bytes) returns (items: seq<Item>, status: Status)
    ensures (items, status) == Iterated(rep)
  {
    items := [];
    if |rep| < BATCH_HEADER {
      return [], TooSmall;
    }
    var input := rep[BATCH_HEADER..];
    ghost var all := ParseItems(input);
    assert items + all.0 == all.0;
    while input != []
      invariant all == (items + ParseItems(input).0, ParseItems(input).1)
      decreases |input|
    {
      var r := ReadItem(input);
      if r.Wrong? {
        assert items + [] == items;
        return items, r.status;
      }
      assert items + ([r.item] + ParseItems(r.rest).0) == (items + [r.item]) + ParseItems(r.rest).0;
      items := items + [r.item];
      input := r.rest;
    }
    assert items + [] == items;
    var count := FixedValue(rep[8..12]);
    status := if |items| != count then WrongCount else Ok;
  }

  // ----- insertion

  function Stamp(it: Item, seqno: nat): Op {
    match it
    case PutItem(key, value) => Op(seqno, true, key, value)
    case DeleteItem(key) => Op(seqno, false, key, [])
  }

  /** The operations of a batch: consecutive sequence numbers in batch order. */
  function Stamped(items: seq<Item>, sequence: nat): seq<Op> {
    seq(|items|, i requires 0 <= i < |items| => Stamp(items[i], sequence + i))
  }

  /** No operation of the memtable has one of these sequence numbers. */
  ghost predicate Unused(ops: seq<Op>, lo: nat, hi: nat) {
    forall o :: o in ops ==> o.seqno < lo || hi <= o.seqno
  }

  lemma {:induction false} StillUnused(before: seq<Op>, ops: seq<Op>, items: seq<Item>, sequence: nat, i: nat)
    requires i < |items| && Unused(before, sequence, sequence + |items|)
    requires multiset(ops) == multiset(before) + multiset(Stamped(items, sequence)[..i])
    ensures forall o :: o in ops ==> o.seqno != sequence + i
  {
    forall o | o in ops
      ensures o.seqno != sequence + i
    {
      assert o in multiset(ops);
      assert o in before || o in Stamped(items, sequence)[..i];
    }
  }

  lemma {:induction false} StampedStep(items: seq<Item>, sequence: nat, i: nat)
    requires i < |items|
    ensures multiset(Stamped(items, sequence)[..i + 1]) ==
            multiset(Stamped(items, sequence)[..i]) + multiset{Stamp(items[i], sequence + i)}
  {
    var all := Stamped(items, sequence);
    assert all[..i + 1] == all[..i] + [all[i]];
  }

  /** MemTableInserter: one handler call. */
  method InsertItem(it: Item, seqno: nat, mem: MemTable)
    requires mem.Valid() && Sized(it) && |it.key| + 8 < U32 && seqno <= Entries.MAX_SEQUENCE
    requires forall o :: o in mem.ops ==> o.seqno != seqno
    modifies mem
    ensures mem.Valid() && multiset(mem.ops) == multiset(old(mem.ops)) + multiset{Stamp(it, seqno)}
  {
    match it {
      case PutItem(key, value) => mem.Add(seqno, true, key, value);
      case DeleteItem(key) => mem.Add(seqno, false, key, []);
    }
  }

  /** The handler calls of one batch: operation i gets sequence number i of the batch. */
  method InsertItems(items: seq<Item>, sequence: nat, mem: MemTable)
    requires mem.Valid() && sequence + |items| <= Entries.MAX_SEQUENCE + 1
    requires forall it :: it in items ==> Sized(it) && |it.key| + 8 < U32
    requires Unused(mem.ops, sequence, sequence + |items|)
    modifies mem
    ensures mem.Valid() && multiset(mem.ops) == multiset(old(mem.ops)) + multiset(Stamped(items, sequence))
  {
    ghost var all := Stamped(items, sequence);
    for i := 0 to |items|
      invariant mem.Valid() && multiset(mem.ops) == multiset(old(mem.ops)) + multiset(all[..i])
    {
      StillUnused(old(mem.ops), mem.ops, items, sequence, i);
      StampedStep(items, sequence, i);
      InsertItem(items[i], sequence + i, mem);
    }
    assert all[..|items|] == all;
  }

  /** Items read from a string are shorter than it. */
  lemma {:induction false} ItemsFit(s: Bytes)
    ensures forall it :: it in ParseItems(s).0 ==> |it.key| < |s| && (it.PutItem? ==> |it.value| < |s|)
    decreases |s|
  {
    if s != [] && ParseItem(s).Next? {
      ItemFits(s);
      ItemsFit(ParseItem(s).rest);
    }
  }

  lemma {:induction false} ItemFits(s: Bytes)
    requires s != [] && ParseItem(s).Next?
    ensures var it := ParseItem(s).item; |it.key| < |s| && (it.PutItem? ==> |it.value| < |s|)
  {
  }

  /** WriteBatchInternal::InsertInto on any bytes: every item before the first fault goes
      into the memtable, under consecutive sequences from the header's.  The caller has
      numbered the batch with sequences that are free. */
  method InsertInto(rep: Bytes, mem: MemTable) returns (status: Status)
    requires mem.Valid() && 8 <= |rep| && |rep| + 8 < U32
    requires FixedValue(rep[..8]) + |Iterated(rep).0| <= Entries.MAX_SEQUENCE + 1
    requires Unused(mem.ops, FixedValue(rep[..8]), FixedValue(rep[..8]) + |Iterated(rep).0|)
    modifies mem
    ensures mem.Valid() && status == Iterated(rep).1
    ensures multiset(mem.ops) == multiset(old(mem.ops)) + multiset(Stamped(Iterated(rep).0, FixedValue(rep[..8])))
  {
    var calls;
    calls, status := Iterate(rep);
    if |rep| >= BATCH_HEADER {
      ItemsFit(rep[BATCH_HEADER..]);
    }
    InsertItems(calls, FixedValue(rep[..8]), mem);
  }

  /** A batch that was built by Put and Delete goes in whole. */
  method InsertBatch(rep: Bytes, mem: MemTable, ghost sequence: nat, ghost items: seq<Item>) returns (status: Status)
    requires mem.Valid() && rep == BatchBytes(sequence, items) && |rep| + 8 < U32
    requires sequence + |items| <= Entries.MAX_SEQUENCE + 1 && |items| < U32
    requires (forall it :: it in items ==> Sized(it)) && Unused(mem.ops, sequence, sequence + |items|)
    modifies mem
    ensures status == Ok && mem.Valid()
    ensures multiset(mem.ops) == multiset(old(mem.ops)) + multiset(Stamped(items, sequence))
  {
    BatchRoundTrip(sequence, items);
    status := InsertInto(rep, mem);
  }
}
