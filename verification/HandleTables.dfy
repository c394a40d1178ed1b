/** HandleTable (util/cache.cc): a chained hash table that resizes itself. A chain of
    next_hash pointers is the sequence it spells. */
module HandleTables {
  import opened Coding

  datatype Item = Item(key: Bytes, id: nat)

  type Hash = Bytes -> nat

  function Slot(hash: Hash, key: Bytes, length: nat): (s: nat)
    requires length > 0
    ensures s < length
  {
    hash(key) % length
  }

  ghost predicate UniqueKeys(chain: seq<Item>) {
    forall i, j :: 0 <= i < j < |chain| ==> chain[i].key != chain[j].key
  }

  /** Every item is in its own slot, at most once. */
  ghost predicate Placed(hash: Hash, list: seq<seq<Item>>) {
    forall b: nat :: b < |list| ==> ChainOk(hash, list, b)
  }

  ghost predicate ChainOk(hash: Hash, list: seq<seq<Item>>, b: nat)
    requires b < |list|
  {
    UniqueKeys(list[b]) && forall x :: x in list[b] ==> Slot(hash, x.key, |list|) == b
  }

  ghost predicate Has(hash: Hash, list: seq<seq<Item>>, x: Item) {
    |list| > 0 && x in list[Slot(hash, x.key, |list|)]
  }

  function TotalLength(list: seq<seq<Item>>): nat {
    if list == [] then 0 else TotalLength(list[..|list| - 1]) + |list[|list| - 1]|
  }

  lemma {:induction false} TotalUpdate(list: seq<seq<Item>>, b: nat, chain: seq<Item>)
    requires b < |list|
    ensures TotalLength(list[b := chain]) == TotalLength(list) - |list[b]| + |chain|
    decreases |list|
  {
    var n := |list| - 1;
    if b < n {
      TotalUpdate(list[..n], b, chain);
      assert list[b := chain][..n] == list[..n][b := chain];
    } else {
      assert list[b := chain][..n] == list[..n];
    }
  }

  /** The items of the first i chains and of the first j links of chain i. */
  ghost predicate Before(hash: Hash, list: seq<seq<Item>>, i: nat, j: nat, x: Item)
    requires |list| > 0 && i <= |list| && (i < |list| ==> j <= |list[i]|)
  {
    var s := Slot(hash, x.key, |list|);
    if s < i then x in list[s] else s == i && x in list[i][..j]
  }

  /** Rehashing has moved exactly these items. */
  ghost predicate Moved(hash: Hash, list: seq<seq<Item>>, i: nat, j: nat, wide: seq<seq<Item>>)
    requires |list| > 0 && i <= |list| && (i < |list| ==> j <= |list[i]|)
  {
    && |wide| > 0
    && Placed(hash, wide)
    && forall x :: Has(hash, wide, x) <==> Before(hash, list, i, j, x)
  }

  lemma {:induction false} PushFront(hash: Hash, list: seq<seq<Item>>, x: Item)
    requires |list| > 0 && Placed(hash, list)
    requires forall y :: y in list[Slot(hash, x.key, |list|)] ==> y.key != x.key
    ensures var s := Slot(hash, x.key, |list|);
      var more := list[s := [x] + list[s]];
      && Placed(hash, more)
      && (forall y :: Has(hash, more, y) <==> Has(hash, list, y) || y == x)
      && TotalLength(more) == TotalLength(list) + 1
  {
    var s := Slot(hash, x.key, |list|);
    var more := list[s := [x] + list[s]];
    TotalUpdate(list, s, [x] + list[s]);
    forall b: nat | b < |more|
      ensures ChainOk(hash, more, b)
    {
      assert ChainOk(hash, list, b);
    }
  }

  lemma {:induction false} MoveOne(hash: Hash, list: seq<seq<Item>>, i: nat, j: nat, wide: seq<seq<Item>>)
    requires |list| > 0 && i < |list| && j < |list[i]| && Placed(hash, list) && Moved(hash, list, i, j, wide)
    ensures var x := list[i][j];
      var s := Slot(hash, x.key, |wide|);
      Moved(hash, list, i, j + 1, wide[s := [x] + wide[s]]) &&
      TotalLength(wide[s := [x] + wide[s]]) == TotalLength(wide) + 1
  {
    var x := list[i][j];
    assert ChainOk(hash, list, i);
    var s := Slot(hash, x.key, |wide|);
    assert ChainOk(hash, wide, s);
    forall y | y in wide[s]
      ensures y.key != x.key
    {
      assert Has(hash, wide, y);
      assert Before(hash, list, i, j, y);
    }
    PushFront(hash, wide, x);
    assert list[i][..j + 1] == list[i][..j] + [x];
  }

  function EmptyChains(n: nat): (list: seq<seq<Item>>)
    ensures |list| == n
  {
    seq(n, _ => [])
  }

  lemma {:induction false} EmptyTotal(n: nat)
    ensures TotalLength(EmptyChains(n)) == 0
    decreases n
  {
    if n > 0 {
      EmptyTotal(n - 1);
      assert EmptyChains(n)[..n - 1] == EmptyChains(n - 1);
    }
  }

  /** A new or changed link in one chain. */
  lemma {:induction false} SetLink(hash: Hash, list: seq<seq<Item>>, s: nat, i: nat, x: Item)
    requires |list| > 0 && Placed(hash, list) && s == Slot(hash, x.key, |list|) && i <= |list[s]|
    requires forall k :: 0 <= k < |list[s]| && k != i ==> list[s][k].key != x.key
    ensures var chain := list[s][..i] + [x] + if i < |list[s]| then list[s][i + 1..] else [];
      var more := list[s := chain];
      && Placed(hash, more)
      && (forall y :: Has(hash, more, y) <==> y == x || (Has(hash, list, y) && !(i < |list[s]| && y == list[s][i])))
      && TotalLength(more) == TotalLength(list) + if i < |list[s]| then 0 else 1
  {
    var was := list[s];
    var chain := was[..i] + [x] + if i < |was| then was[i + 1..] else [];
    var more := list[s := chain];
    assert ChainOk(hash, list, s);
    TotalUpdate(list, s, chain);
    ChainMembers(was, i);
    assert forall y :: y in chain <==> y == x || y in was[..i] + (if i < |was| then was[i + 1..] else []);
    forall y
      ensures Has(hash, more, y) <==> y == x || (Has(hash, list, y) && !(i < |was| && y == was[i]))
    {
      assert i < |was| ==> was[i] in list[s];
    }
    forall b: nat | b < |more|
      ensures ChainOk(hash, more, b)
    {
      assert ChainOk(hash, list, b);
    }
  }

  /** A link taken out of one chain. */
  lemma {:induction false} CutLink(hash: Hash, list: seq<seq<Item>>, s: nat, i: nat)
    requires |list| > 0 && Placed(hash, list) && s < |list| && i < |list[s]|
    ensures var more := list[s := list[s][..i] + list[s][i + 1..]];
      && Placed(hash, more)
      && (forall y :: Has(hash, more, y) <==> Has(hash, list, y) && y != list[s][i])
      && TotalLength(more) == TotalLength(list) - 1
  {
    var chain := list[s][..i] + list[s][i + 1..];
    var more := list[s := chain];
    assert ChainOk(hash, list, s);
    TotalUpdate(list, s, chain);
    ChainMembers(list[s], i);
    forall b: nat | b < |more|
      ensures ChainOk(hash, more, b)
    {
      assert ChainOk(hash, list, b);
    }
  }

  lemma {:induction false} ChainMembers(chain: seq<Item>, i: nat)
    requires UniqueKeys(chain) && i <= |chain|
    ensures forall y :: y in chain[..i] + (if i < |chain| then chain[i + 1..] else []) <==>
                        y in chain && !(i < |chain| && y == chain[i])
  {
  }

  /** The chains stand for a map. */
  ghost predicate Rep(hash: Hash, list: seq<seq<Item>>, contents: map<Bytes, nat>) {
    && |list| > 0
    && Placed(hash, list)
    && TotalLength(list) == |contents|
    && forall x: Item :: Has(hash, list, x) <==> x.key in contents && contents[x.key] == x.id
  }

  /** A link of the chain holds the key, or the chain has no such link. */
  ghost predicate Points(hash: Hash, list: seq<seq<Item>>, key: Bytes, s: nat, i: nat) {
    && |list| > 0
    && s == Slot(hash, key, |list|)
    && i <= |list[s]|
    && (i < |list[s]| ==> list[s][i].key == key)
    && forall k :: 0 <= k < i ==> list[s][k].key != key
  }

  /** Where the search ends decides whether the key is in the map. */
  lemma {:induction false} PointsFinds(hash: Hash, list: seq<seq<Item>>, contents: map<Bytes, nat>, key: Bytes, s: nat, i: nat)
    requires Rep(hash, list, contents) && Points(hash, list, key, s, i)
    ensures key in contents <==> i < |list[s]|
    ensures i < |list[s]| ==> contents[key] == list[s][i].id
    ensures forall k :: 0 <= k < |list[s]| && k != i ==> list[s][k].key != key
  {
    assert ChainOk(hash, list, s);
    assert i < |list[s]| ==> Has(hash, list, list[s][i]);
    assert key in contents ==> Has(hash, list, Item(key, contents[key]));
  }

  function WithLink(list: seq<seq<Item>>, s: nat, i: nat, x: Item): seq<seq<Item>>
    requires s < |list| && i <= |list[s]|
  {
    list[s := list[s][..i] + [x] + if i < |list[s]| then list[s][i + 1..] else []]
  }

  lemma {:induction false} RepSet(hash: Hash, list: seq<seq<Item>>, contents: map<Bytes, nat>, s: nat, i: nat, x: Item)
    requires Rep(hash, list, contents) && Points(hash, list, x.key, s, i)
    ensures Rep(hash, WithLink(list, s, i, x), contents[x.key := x.id])
    ensures |contents[x.key := x.id]| == |contents| + if x.key in contents then 0 else 1
  {
    PointsFinds(hash, list, contents, x.key, s, i);
    SetLink(hash, list, s, i, x);
    var more := contents[x.key := x.id];
    assert more.Keys == contents.Keys + {x.key};
    assert |more| == |more.Keys| && |contents| == |contents.Keys|;
  }

  lemma {:induction false} RepCut(hash: Hash, list: seq<seq<Item>>, contents: map<Bytes, nat>, s: nat, i: nat, key: Bytes)
    requires Rep(hash, list, contents) && Points(hash, list, key, s, i) && i < |list[s]|
    ensures Rep(hash, list[s := list[s][..i] + list[s][i + 1..]], contents - {key})
    ensures |contents - {key}| == |contents| - 1
  {
    PointsFinds(hash, list, contents, key, s, i);
    CutLink(hash, list, s, i);
    var less := contents - {key};
    assert less.Keys == contents.Keys - {key};
    assert |less| == |less.Keys| && |contents| == |contents.Keys|;
  }

  class HandleTable {
    const hash: Hash
    var length: nat
    var elems: nat
    var list: seq<seq<Item>>
    /** The map it stands for. */
    ghost var contents: map<Bytes, nat>

    ghost predicate Valid()
      reads this
    {
      |list| == length && elems == |contents| && Rep(hash, list, contents)
    }

    constructor (hash: Hash)
      ensures Valid() && contents == map[] && this.hash == hash && elems <= length
    {
      this.hash := hash;
      length, elems, list, contents := 4, 0, EmptyChains(4), map[];
      new;
      EmptyTotal(4);
    }

    /** FindPointer: the link that holds the key, or the end of the chain. */
    method FindPointer(key: Bytes) returns (slot: nat, i: nat)
      requires Valid()
      ensures Points(hash, list, key, slot, i)
    {
      slot, i := hash(key) % length, 0;
      while i < |list[slot]| && list[slot][i].key != key
        invariant 0 <= i <= |list[slot]|
        invariant forall k :: 0 <= k < i ==> list[slot][k].key != key
      {
        i := i + 1;
      }
    }

    method Lookup(key: Bytes) returns (r: Option<nat>)
      requires Valid()
      ensures r == if key in contents then Some(contents[key]) else None
    {
      var slot, i := FindPointer(key);
      PointsFinds(hash, list, contents, key, slot, i);
      r := if i < |list[slot]| then Some(list[slot][i].id) else None;
    }

    method Insert(key: Bytes, id: nat) returns (r: Option<nat>)
      requires Valid()
      modifies this
      ensures Valid() && contents == old(contents)[key := id]
      ensures r == if key in old(contents) then Some(old(contents)[key]) else None
      ensures old(elems <= length) ==> elems <= length
    {
      var slot, i := FindPointer(key);
      PointsFinds(hash, list, contents, key, slot, i);
      RepSet(hash, list, contents, slot, i, Item(key, id));
      r := if i < |list[slot]| then Some(list[slot][i].id) else None;
      list := WithLink(list, slot, i, Item(key, id));
      contents := contents[key := id];
      if r.None? {
        elems := elems + 1;
        if elems > length {
          Resize();
        }
      }
    }

    method Remove(key: Bytes) returns (r: Option<nat>)
      requires Valid()
      modifies this
      ensures Valid() && contents == old(contents) - {key}
      ensures r == if key in old(contents) then Some(old(contents)[key]) else None
    {
      var slot, i := FindPointer(key);
      PointsFinds(hash, list, contents, key, slot, i);
      r := None;
      if i < |list[slot]| {
        RepCut(hash, list, contents, slot, i, key);
        r := Some(list[slot][i].id);
        list := list[slot := list[slot][..i] + list[slot][i + 1..]];
        elems := elems - 1;
        contents := contents - {key};
      }
    }

    /** More buckets, the same map. */
    method Resize()
      requires Valid()
      modifies this`list, this`length
      ensures Valid() && elems <= length && (length == 4 || length < 2 * elems)
    {
      var newLength := 4;
      while newLength < elems
        invariant newLength == 4 || 4 <= newLength < 2 * elems
        decreases elems - newLength
      {
        newLength := newLength * 2;
      }
      var wide := EmptyChains(newLength);
      EmptyTotal(newLength);
      for i := 0 to length
        invariant Valid() && unchanged(this)
        invariant |wide| == newLength && Moved(hash, list, i, 0, wide)
        invariant TotalLength(wide) == TotalLength(list[..i])
      {
        wide := MoveChain(i, wide);
        assert list[..i + 1][..i] == list[..i];
      }
      assert list[..length] == list;
      list := wide;
      length := newLength;
    }

    /** One chain of the old array into the new one, link by link. */
    method MoveChain(i: nat, before: seq<seq<Item>>) returns (wide: seq<seq<Item>>)
      requires Valid() && i < |list| && Moved(hash, list, i, 0, before)
      ensures |wide| == |before| && Moved(hash, list, i + 1, 0, wide)
      ensures TotalLength(wide) == TotalLength(before) + |list[i]|
    {
      wide := before;
      for j := 0 to |list[i]|
        invariant |wide| == |before| && Moved(hash, list, i, j, wide)
        invariant TotalLength(wide) == TotalLength(before) + j
      {
        MoveOne(hash, list, i, j, wide);
        var s := hash(list[i][j].key) % |wide|;
        wide := wide[s := [list[i][j]] + wide[s]];
      }
      assert list[i][..|list[i]|] == list[i];
    }
  }
}
