/** LRUCache (util/cache.cc), one shard. Entries are numbered as they are allocated; the
    circular list of next and prev pointers is the sequence it spells, oldest first. */
module LruCaches {
  import opened Coding
  import opened HandleTables

  /** A heap-allocated entry; "alive" until it is freed. */
  datatype Entry = Entry(key: Bytes, charge: nat, refs: nat, alive: bool)

  ghost predicate Distinct(ids: seq<nat>) {
    forall i, j :: Differ(ids, i, j)
  }

  predicate Differ(ids: seq<nat>, i: int, j: int) {
    0 <= i < j < |ids| ==> ids[i] != ids[j]
  }

  lemma {:induction false} DistinctTail(ids: seq<nat>)
    requires Distinct(ids) && ids != []
    ensures Distinct(ids[1..]) && ids[0] !in ids[1..]
  {
    var rest := ids[1..];
    forall i, j
      ensures Differ(rest, i, j)
    {
      assert Differ(ids, i + 1, j + 1);
    }
    forall j | 0 <= j < |rest|
      ensures rest[j] != ids[0]
    {
      assert Differ(ids, 0, j + 1);
    }
  }

  lemma {:induction false} DistinctJoin(ids: seq<nat>, x: nat)
    requires Distinct(ids) && x !in ids
    ensures Distinct([x] + ids) && Distinct(ids + [x])
  {
    forall i, j
      ensures Differ([x] + ids, i, j) && Differ(ids + [x], i, j)
    {
      assert Differ(ids, i - 1, j - 1) && Differ(ids, i, j);
    }
  }

  /** Charges of the entries that have not been freed. */
  function Charges(arena: seq<Entry>): nat {
    if arena == [] then 0
    else Charges(arena[..|arena| - 1]) + if arena[|arena| - 1].alive then arena[|arena| - 1].charge else 0
  }

  function ChargeOf(e: Entry): nat {
    if e.alive then e.charge else 0
  }

  lemma {:induction false} ChargesUpdate(arena: seq<Entry>, id: nat, e: Entry)
    requires id < |arena|
    ensures Charges(arena[id := e]) == Charges(arena) - ChargeOf(arena[id]) + ChargeOf(e)
    ensures ChargeOf(arena[id]) <= Charges(arena)
    decreases |arena|
  {
    var n := |arena| - 1;
    if id < n {
      ChargesUpdate(arena[..n], id, e);
      assert arena[id := e][..n] == arena[..n][id := e];
    } else {
      assert arena[id := e][..n] == arena[..n];
    }
  }

  lemma {:induction false} ChargesAppend(arena: seq<Entry>, e: Entry)
    ensures Charges(arena + [e]) == Charges(arena) + ChargeOf(e)
  {
    assert (arena + [e])[..|arena|] == arena;
  }

  /** An id taken out of a list. */
  function Without(ids: seq<nat>, id: nat): seq<nat> {
    if ids == [] then [] else if ids[0] == id then ids[1..] else [ids[0]] + Without(ids[1..], id)
  }

  lemma {:induction false} WithoutMembers(ids: seq<nat>, id: nat)
    requires Distinct(ids)
    ensures Distinct(Without(ids, id)) && forall x :: x in Without(ids, id) <==> x in ids && x != id
    decreases |ids|
  {
    if ids != [] {
      DistinctTail(ids);
      assert forall x :: x in ids <==> x == ids[0] || x in ids[1..];
      if ids[0] != id {
        WithoutMembers(ids[1..], id);
        DistinctJoin(Without(ids[1..], id), ids[0]);
      }
    }
  }

  /** Taking an entry out closes the gap and moves nothing. */
  lemma {:induction false} WithoutAt(ids: seq<nat>, n: nat)
    requires Distinct(ids) && n < |ids|
    ensures Without(ids, ids[n]) == ids[..n] + ids[n + 1..]
    decreases |ids|
  {
    if n == 0 {
      assert ids[..0] == [];
    } else {
      assert Differ(ids, 0, n);
      DistinctTail(ids);
      WithoutAt(ids[1..], n - 1);
      assert ids[1..][n - 1] == ids[n];
      assert ids[..n] + ids[n + 1..] == [ids[0]] + (ids[1..][..n - 1] + ids[1..][n..]);
    }
  }

  // ----- the history of a cache, from the calls and what they returned

  datatype Call = Inserted(key: Bytes, id: nat) | Hit(key: Bytes, id: nat) | Missed(key: Bytes) | Erased(key: Bytes) | Released(id: nat)

  predicate Uses(c: Call, id: nat) {
    (c.Inserted? || c.Hit?) && c.id == id
  }

  /** Which call used the entry last: the one that inserted it, or the last that found it. */
  function LastUse(calls: seq<Call>, id: nat): int {
    if calls == [] then -1
    else if Uses(calls[|calls| - 1], id) then |calls| - 1
    else LastUse(calls[..|calls| - 1], id)
  }

  /** The entry last inserted for the key, unless it was erased since. */
  function LatestOf(calls: seq<Call>, key: Bytes): Option<nat> {
    if calls == [] then None
    else
      var c := calls[|calls| - 1];
      if c.Inserted? && c.key == key then Some(c.id)
      else if c.Erased? && c.key == key then None
      else LatestOf(calls[..|calls| - 1], key)
  }

  /** The list is in the order of last use, oldest first. */
  ghost predicate ByLastUse(lru: seq<nat>, calls: seq<Call>) {
    && (forall i :: 0 <= i < |lru| ==> LastUse(calls, lru[i]) >= 0)
    && (forall i, j :: UsedBefore(lru, calls, i, j))
  }

  predicate UsedBefore(lru: seq<nat>, calls: seq<Call>, i: int, j: int) {
    0 <= i < j < |lru| ==> LastUse(calls, lru[i]) < LastUse(calls, lru[j])
  }

  /** A cached key has the entry last inserted for it. */
  ghost predicate Latest(contents: map<Bytes, nat>, calls: seq<Call>) {
    forall k :: k in contents ==> LatestOf(calls, k) == Some(contents[k])
  }

  ghost predicate Recalled(lru: seq<nat>, contents: map<Bytes, nat>, calls: seq<Call>) {
    ByLastUse(lru, calls) && Latest(contents, calls)
  }

  lemma {:induction false} LastUseBounds(calls: seq<Call>, id: nat)
    ensures -1 <= LastUse(calls, id) < |calls|
    ensures LastUse(calls, id) >= 0 ==> Uses(calls[LastUse(calls, id)], id)
    ensures forall i :: LastUse(calls, id) < i < |calls| ==> !Uses(calls[i], id)
    decreases |calls|
  {
    if calls != [] && !Uses(calls[|calls| - 1], id) {
      LastUseBounds(calls[..|calls| - 1], id);
    }
  }

  lemma {:induction false} LastUseStep(calls: seq<Call>, c: Call, id: nat)
    ensures LastUse(calls + [c], id) == if Uses(c, id) then |calls| else LastUse(calls, id)
    ensures LastUse(calls, id) < |calls|
  {
    LastUseBounds(calls, id);
    assert (calls + [c])[..|calls|] == calls;
  }

  lemma {:induction false} LatestStep(calls: seq<Call>, c: Call, key: Bytes)
    ensures LatestOf(calls + [c], key) ==
            if c.Inserted? && c.key == key then Some(c.id) else if c.Erased? && c.key == key then None else LatestOf(calls, key)
  {
    assert (calls + [c])[..|calls|] == calls;
  }

  /** A call that uses no cached entry leaves the order of last use alone. */
  lemma {:induction false} OrderStays(lru: seq<nat>, calls: seq<Call>, c: Call)
    requires ByLastUse(lru, calls) && forall id :: id in lru ==> !Uses(c, id)
    ensures ByLastUse(lru, calls + [c])
  {
    forall i | 0 <= i < |lru|
      ensures LastUse(calls + [c], lru[i]) == LastUse(calls, lru[i])
    {
      assert lru[i] in lru;
      LastUseStep(calls, c, lru[i]);
    }
    forall i, j
      ensures UsedBefore(lru, calls + [c], i, j)
    {
      assert UsedBefore(lru, calls, i, j);
    }
  }

  /** An entry taken out leaves the others in order. */
  lemma {:induction false} OrderWithout(lru: seq<nat>, calls: seq<Call>, id: nat)
    requires ByLastUse(lru, calls) && Distinct(lru) && id in lru
    ensures ByLastUse(Without(lru, id), calls)
  {
    var n :| 0 <= n < |lru| && lru[n] == id;
    WithoutAt(lru, n);
    OrderCut(lru, calls, n, lru[..n] + lru[n + 1..]);
  }

  lemma {:induction false} OrderCut(lru: seq<nat>, calls: seq<Call>, n: nat, less: seq<nat>)
    requires ByLastUse(lru, calls) && n < |lru|
    requires |less| == |lru| - 1 && forall i :: 0 <= i < |less| ==> less[i] == lru[if i < n then i else i + 1]
    ensures ByLastUse(less, calls)
  {
    forall i, j
      ensures UsedBefore(less, calls, i, j)
    {
      assert UsedBefore(lru, calls, if i < n then i else i + 1, if j < n then j else j + 1);
    }
  }

  /** The entry just used goes to the new end. */
  lemma {:induction false} OrderUsed(lru: seq<nat>, calls: seq<Call>, c: Call, id: nat)
    requires ByLastUse(lru, calls) && id !in lru && Uses(c, id)
    ensures ByLastUse(lru + [id], calls + [c])
  {
    OrderStays(lru, calls, c);
    LastUseStep(calls, c, id);
    var more := lru + [id];
    forall i, j
      ensures UsedBefore(more, calls + [c], i, j)
    {
      assert UsedBefore(lru, calls + [c], i, j);
      if 0 <= i < |lru| {
        LastUseStep(calls, c, lru[i]);
      }
    }
  }

  lemma {:induction false} OrderTail(lru: seq<nat>, calls: seq<Call>)
    requires ByLastUse(lru, calls) && lru != []
    ensures ByLastUse(lru[1..], calls)
  {
    OrderCut(lru, calls, 0, lru[1..]);
  }

  lemma {:induction false} RecalledHit(lru: seq<nat>, contents: map<Bytes, nat>, calls: seq<Call>, key: Bytes, id: nat)
    requires Recalled(lru, contents, calls) && Distinct(lru) && id in lru
    ensures Recalled(Without(lru, id) + [id], contents, calls + [Hit(key, id)])
  {
    OrderWithout(lru, calls, id);
    WithoutMembers(lru, id);
    OrderUsed(Without(lru, id), calls, Hit(key, id), id);
    forall k | k in contents
      ensures LatestOf(calls + [Hit(key, id)], k) == Some(contents[k])
    {
      LatestStep(calls, Hit(key, id), k);
    }
  }

  lemma {:induction false} RecalledQuiet(lru: seq<nat>, contents: map<Bytes, nat>, calls: seq<Call>, c: Call)
    requires Recalled(lru, contents, calls) && (c.Missed? || c.Released?)
    ensures Recalled(lru, contents, calls + [c])
  {
    OrderStays(lru, calls, c);
    forall k | k in contents
      ensures LatestOf(calls + [c], k) == Some(contents[k])
    {
      LatestStep(calls, c, k);
    }
  }

  lemma {:induction false} RecalledErase(lru: seq<nat>, contents: map<Bytes, nat>, calls: seq<Call>, key: Bytes)
    requires Recalled(lru, contents, calls) && Distinct(lru) && (key in contents ==> contents[key] in lru)
    ensures Recalled(Rest(lru, contents, key), contents - {key}, calls + [Erased(key)])
  {
    if key in contents {
      OrderWithout(lru, calls, contents[key]);
    }
    OrderStays(Rest(lru, contents, key), calls, Erased(key));
    forall k | k in contents - {key}
      ensures LatestOf(calls + [Erased(key)], k) == Some(contents[k])
    {
      LatestStep(calls, Erased(key), k);
    }
  }

  lemma {:induction false} RecalledInsert(lru: seq<nat>, contents: map<Bytes, nat>, calls: seq<Call>, key: Bytes, id: nat)
    requires Recalled(lru, contents, calls) && Distinct(lru) && (key in contents ==> contents[key] in lru) && id !in lru
    ensures Recalled(Rest(lru, contents, key) + [id], contents[key := id], calls + [Inserted(key, id)])
  {
    if key in contents {
      OrderWithout(lru, calls, contents[key]);
    }
    RestMembers(lru, contents, key);
    OrderUsed(Rest(lru, contents, key), calls, Inserted(key, id), id);
    forall k | k in contents[key := id]
      ensures LatestOf(calls + [Inserted(key, id)], k) == Some(contents[key := id][k])
    {
      LatestStep(calls, Inserted(key, id), k);
    }
  }

  lemma {:induction false} RecalledEvict(lru: seq<nat>, contents: map<Bytes, nat>, calls: seq<Call>, key: Bytes)
    requires Recalled(lru, contents, calls) && lru != []
    ensures Recalled(lru[1..], contents - {key}, calls)
  {
    OrderTail(lru, calls);
  }

  // ----- what every call keeps

  /** References are the outstanding claims (handles given out, or references about to be
      dropped) plus one while the entry is in the list. */
  ghost predicate RefsAt(arena: seq<Entry>, lru: seq<nat>, claims: multiset<nat>, id: nat)
    requires id < |arena|
  {
    && arena[id].refs == claims[id] + (if id in lru then 1 else 0)
    && (arena[id].alive <==> arena[id].refs > 0)
  }

  ghost predicate Counted(arena: seq<Entry>, lru: seq<nat>, claims: multiset<nat>) {
    && Distinct(lru)
    && (forall id :: id in lru || id in claims ==> id < |arena|)
    && (forall id: nat :: id < |arena| ==> RefsAt(arena, lru, claims, id))
  }

  /** Each freed entry is freed once, and usage counts the others. */
  ghost predicate Accounted(arena: seq<Entry>, usage: nat, freed: seq<nat>) {
    && usage == Charges(arena)
    && Distinct(freed)
    && (forall id :: id in freed ==> id < |arena|)
    && (forall id: nat :: id < |arena| ==> (id in freed <==> !arena[id].alive))
  }

  /** The table and the list hold the same entries, one for each key. */
  ghost predicate Synced(arena: seq<Entry>, lru: seq<nat>, contents: map<Bytes, nat>) {
    && (forall id :: id in lru ==> id < |arena|)
    && (forall k :: k in contents ==> contents[k] in lru && arena[contents[k]].key == k)
    && (forall id :: id in lru ==> arena[id].key in contents && contents[arena[id].key] == id)
  }

  /** The entry after a reference is dropped. */
  function Dropped(e: Entry): Entry
    requires e.refs > 0
  {
    Entry(e.key, e.charge, e.refs - 1, e.refs > 1)
  }

  lemma {:induction false} DropKeeps(arena: seq<Entry>, lru: seq<nat>, claims: multiset<nat>, usage: nat, freed: seq<nat>, id: nat)
    requires Counted(arena, lru, claims) && Accounted(arena, usage, freed) && id in claims
    ensures arena[id].refs > 0 && arena[id].alive
    ensures Counted(arena[id := Dropped(arena[id])], lru, claims - multiset{id})
    ensures arena[id].refs > 1 ==> Accounted(arena[id := Dropped(arena[id])], usage, freed)
    ensures arena[id].refs == 1 ==> arena[id].charge <= usage
    ensures arena[id].refs == 1 ==> Accounted(arena[id := Dropped(arena[id])], usage - arena[id].charge, freed + [id])
  {
    assert RefsAt(arena, lru, claims, id);
    var more, less := arena[id := Dropped(arena[id])], claims - multiset{id};
    ChargesUpdate(arena, id, Dropped(arena[id]));
    forall x: nat | x < |more|
      ensures RefsAt(more, lru, less, x)
    {
      assert RefsAt(arena, lru, claims, x);
    }
    if arena[id].refs == 1 {
      DistinctJoin(freed, id);
    }
  }

  lemma {:induction false} UnlinkKeeps(arena: seq<Entry>, lru: seq<nat>, claims: multiset<nat>, id: nat)
    requires Counted(arena, lru, claims) && id in lru
    ensures Counted(arena, Without(lru, id), claims + multiset{id})
  {
    WithoutMembers(lru, id);
    forall x: nat | x < |arena|
      ensures RefsAt(arena, Without(lru, id), claims + multiset{id}, x)
    {
      assert RefsAt(arena, lru, claims, x);
    }
  }

  lemma {:induction false} LinkKeeps(arena: seq<Entry>, lru: seq<nat>, claims: multiset<nat>, id: nat)
    requires Counted(arena, lru, claims) && id in claims && id !in lru
    ensures Counted(arena, lru + [id], claims - multiset{id})
  {
    DistinctJoin(lru, id);
    forall x: nat | x < |arena|
      ensures RefsAt(arena, lru + [id], claims - multiset{id}, x)
    {
      assert RefsAt(arena, lru, claims, x);
    }
  }

  /** A handle given out on a cached entry. */
  lemma {:induction false} ClaimKeeps(arena: seq<Entry>, lru: seq<nat>, claims: multiset<nat>, usage: nat, freed: seq<nat>, id: nat)
    requires Counted(arena, lru, claims) && Accounted(arena, usage, freed) && id in lru
    ensures var more := arena[id := arena[id].(refs := arena[id].refs + 1)];
      Counted(more, lru, claims + multiset{id}) && Accounted(more, usage, freed)
  {
    assert RefsAt(arena, lru, claims, id);
    var more := arena[id := arena[id].(refs := arena[id].refs + 1)];
    ChargesUpdate(arena, id, more[id]);
    forall x: nat | x < |more|
      ensures RefsAt(more, lru, claims + multiset{id}, x)
    {
      assert RefsAt(arena, lru, claims, x);
    }
  }

  /** A new entry with one reference for the list and one for the handle, both pending. */
  lemma {:induction false} NewKeeps(arena: seq<Entry>, lru: seq<nat>, claims: multiset<nat>, usage: nat, freed: seq<nat>, e: Entry)
    requires Counted(arena, lru, claims) && Accounted(arena, usage, freed) && e.alive && e.refs == 2
    ensures var id := |arena|;
      && id !in lru
      && Counted(arena + [e], lru, claims + multiset{id, id})
      && Accounted(arena + [e], usage + e.charge, freed)
  {
    var id, more := |arena|, arena + [e];
    ChargesAppend(arena, e);
    assert id !in claims && claims[id] == 0;
    forall x: nat | x < |more|
      ensures RefsAt(more, lru, claims + multiset{id, id}, x)
    {
      if x < |arena| {
        assert RefsAt(arena, lru, claims, x);
      }
    }
  }

  // ----- how the table and the list stay together

  lemma {:induction false} SyncedDrop(arena: seq<Entry>, lru: seq<nat>, contents: map<Bytes, nat>, id: nat, e: Entry)
    requires Synced(arena, lru, contents) && id < |arena| && e.key == arena[id].key
    ensures Synced(arena[id := e], lru, contents)
  {
  }

  lemma {:induction false} SyncedRemove(arena: seq<Entry>, lru: seq<nat>, contents: map<Bytes, nat>, id: nat)
    requires Synced(arena, lru, contents) && id in lru && Distinct(lru)
    ensures Synced(arena, Without(lru, id), contents - {arena[id].key})
  {
    WithoutMembers(lru, id);
  }

  lemma {:induction false} SyncedTouch(arena: seq<Entry>, lru: seq<nat>, contents: map<Bytes, nat>, id: nat)
    requires Synced(arena, lru, contents) && id in lru && Distinct(lru)
    ensures Synced(arena, Without(lru, id) + [id], contents)
  {
    WithoutMembers(lru, id);
  }

  /** A new entry takes the place of the one with its key. */
  lemma {:induction false} SyncedInsert(arena: seq<Entry>, lru: seq<nat>, contents: map<Bytes, nat>, e: Entry)
    requires Synced(arena, lru, contents) && Distinct(lru)
    ensures Synced(arena + [e], Rest(lru, contents, e.key) + [|arena|], contents[e.key := |arena|])
  {
    var id, rest := |arena|, Rest(lru, contents, e.key);
    RestMembers(lru, contents, e.key);
    var more, next, ids := arena + [e], contents[e.key := id], rest + [id];
    forall k | k in next
      ensures next[k] in ids && more[next[k]].key == k
    {
      if k != e.key {
        assert contents[k] in lru && arena[contents[k]].key == k;
      }
    }
    forall x | x in ids
      ensures x < |more| && more[x].key in next && next[more[x].key] == x
    {
      if x != id {
        assert x in lru && contents[arena[x].key] == x;
      }
    }
  }

  lemma {:induction false} RestMembers(lru: seq<nat>, contents: map<Bytes, nat>, key: Bytes)
    requires Distinct(lru)
    ensures forall x :: x in Rest(lru, contents, key) <==> x in lru && !(key in contents && contents[key] == x)
  {
    if key in contents {
      WithoutMembers(lru, contents[key]);
    }
  }

  lemma {:induction false} WithoutAppend(ids: seq<nat>, id: nat, x: nat)
    requires x in ids && Distinct(ids)
    ensures Without(ids + [id], x) == Without(ids, x) + [id]
    decreases |ids|
  {
    if ids[0] == x {
      assert (ids + [id])[1..] == ids[1..] + [id];
    } else {
      assert x in ids[1..];
      assert (ids + [id])[1..] == ids[1..] + [id];
      DistinctTail(ids);
      WithoutAppend(ids[1..], id, x);
    }
  }

  // ----- the list operations and reference counts

  /** The entries, the list and the accounting. */
  datatype Core = Core(arena: seq<Entry>, lru: seq<nat>, usage: nat, freed: seq<nat>)

  ghost predicate Good(c: Core, claims: multiset<nat>) {
    Counted(c.arena, c.lru, claims) && Accounted(c.arena, c.usage, c.freed)
  }

  /** Unref: the last reference frees the entry. */
  function Unref(c: Core, id: nat): Core
    requires id < |c.arena| && c.arena[id].refs > 0 && (c.arena[id].refs == 1 ==> c.arena[id].charge <= c.usage)
  {
    var arena := c.arena[id := Dropped(c.arena[id])];
    if c.arena[id].refs == 1 then Core(arena, c.lru, c.usage - c.arena[id].charge, c.freed + [id])
    else Core(arena, c.lru, c.usage, c.freed)
  }

  /** LRU_Remove then Unref: the list gives up its reference. */
  function Evicted(c: Core, id: nat): Core
    requires id < |c.arena| && c.arena[id].refs > 0 && (c.arena[id].refs == 1 ==> c.arena[id].charge <= c.usage)
  {
    Unref(c.(lru := Without(c.lru, id)), id)
  }

  /** Entries keep their key and charge for ever. */
  ghost predicate SameEntries(a: seq<Entry>, b: seq<Entry>) {
    |a| <= |b| && forall i :: 0 <= i < |a| ==> b[i].key == a[i].key && b[i].charge == a[i].charge
  }

  /** What an entry gave back when its last reference went. */
  function FreedCharge(e: Entry): nat {
    if e.alive then 0 else e.charge
  }

  /** The k oldest entries are gone, and before the last of them went the cache
      was still over its capacity. */
  ghost predicate EvictedFirst(c: Core, all: seq<nat>, k: int, capacity: nat) {
    && 0 <= k <= |all| && c.lru == all[k..]
    && (k > 0 ==> all[k - 1] < |c.arena| && c.usage + FreedCharge(c.arena[all[k - 1]]) > capacity)
  }

  /** A handle on a cached entry, which becomes the newest. */
  function Touched(c: Core, id: nat): Core
    requires id < |c.arena|
  {
    c.(arena := c.arena[id := c.arena[id].(refs := c.arena[id].refs + 1)], lru := Without(c.lru, id) + [id])
  }

  /** A new entry with two references: the list's and the returned handle's. */
  function Allocated(c: Core, key: Bytes, charge: nat): Core {
    Core(c.arena + [Entry(key, charge, 2, true)], c.lru + [|c.arena|], c.usage + charge, c.freed)
  }

  lemma {:induction false} UnrefGood(c: Core, claims: multiset<nat>, id: nat)
    requires Good(c, claims) && id in claims
    ensures id < |c.arena| && c.arena[id].refs > 0 && (c.arena[id].refs == 1 ==> c.arena[id].charge <= c.usage)
    ensures Good(Unref(c, id), claims - multiset{id}) && Unref(c, id).usage <= c.usage
  {
    DropKeeps(c.arena, c.lru, claims, c.usage, c.freed, id);
  }

  lemma {:induction false} EvictedGood(c: Core, claims: multiset<nat>, contents: map<Bytes, nat>, id: nat)
    requires Good(c, claims) && Synced(c.arena, c.lru, contents) && id in c.lru
    ensures id < |c.arena| && c.arena[id].refs > 0 && (c.arena[id].refs == 1 ==> c.arena[id].charge <= c.usage)
    ensures Good(Evicted(c, id), claims) && Evicted(c, id).usage <= c.usage
    ensures Synced(Evicted(c, id).arena, Evicted(c, id).lru, contents - {c.arena[id].key})
  {
    UnlinkKeeps(c.arena, c.lru, claims, id);
    UnrefGood(c.(lru := Without(c.lru, id)), claims + multiset{id}, id);
    assert claims + multiset{id} - multiset{id} == claims;
    SyncedRemove(c.arena, c.lru, contents, id);
    SyncedDrop(c.arena, Without(c.lru, id), contents - {c.arena[id].key}, id, Dropped(c.arena[id]));
  }

  /** Taking out a key's entry, or nothing, keeps list and table together. */
  lemma {:induction false} ErasedGood(c: Core, claims: multiset<nat>, contents: map<Bytes, nat>, key: Bytes)
    requires Good(c, claims) && Synced(c.arena, c.lru, contents)
    ensures key !in contents ==> contents - {key} == contents
    ensures key in contents ==>
              var id := contents[key];
              && id < |c.arena| && c.arena[id].refs > 0 && (c.arena[id].refs == 1 ==> c.arena[id].charge <= c.usage)
              && Good(Evicted(c, id), claims)
              && Synced(Evicted(c, id).arena, Evicted(c, id).lru, contents - {key})
              && SameEntries(c.arena, Evicted(c, id).arena)
  {
    if key in contents {
      EvictedGood(c, claims, contents, contents[key]);
      EvictedSame(c, contents[key]);
    }
  }

  /** Everything a cache keeps, besides its table's own invariant. */
  ghost predicate CacheOk(c: Core, claims: multiset<nat>, contents: map<Bytes, nat>, calls: seq<Call>) {
    Good(c, claims) && Synced(c.arena, c.lru, contents) && Recalled(c.lru, contents, calls)
  }

  lemma {:induction false} ReleaseOk(c: Core, claims: multiset<nat>, contents: map<Bytes, nat>, calls: seq<Call>, id: nat)
    requires CacheOk(c, claims, contents, calls) && id in claims
    ensures id < |c.arena| && c.arena[id].refs > 0 && (c.arena[id].refs == 1 ==> c.arena[id].charge <= c.usage)
    ensures CacheOk(Unref(c, id), claims - multiset{id}, contents, calls + [Released(id)])
    ensures Unref(c, id).lru == c.lru && SameEntries(c.arena, Unref(c, id).arena)
  {
    UnrefGood(c, claims, id);
    SyncedDrop(c.arena, c.lru, contents, id, Dropped(c.arena[id]));
    RecalledQuiet(c.lru, contents, calls, Released(id));
  }

  ghost predicate Evictable(c: Core, contents: map<Bytes, nat>, key: Bytes) {
    key in contents ==>
      var id := contents[key];
      id < |c.arena| && c.arena[id].refs > 0 && (c.arena[id].refs == 1 ==> c.arena[id].charge <= c.usage)
  }

  ghost function ErasedCore(c: Core, contents: map<Bytes, nat>, key: Bytes): Core
    requires Evictable(c, contents, key)
  {
    if key in contents then Evicted(c, contents[key]) else c
  }

  lemma {:induction false} EraseOk(c: Core, claims: multiset<nat>, contents: map<Bytes, nat>, calls: seq<Call>, key: Bytes)
    requires CacheOk(c, claims, contents, calls)
    ensures Evictable(c, contents, key)
    ensures var c' := ErasedCore(c, contents, key);
      && CacheOk(c', claims, contents - {key}, calls + [Erased(key)])
      && c'.lru == Rest(c.lru, contents, key) && SameEntries(c.arena, c'.arena)
  {
    ErasedGood(c, claims, contents, key);
    RecalledErase(c.lru, contents, calls, key);
  }

  lemma {:induction false} OldestGood(c: Core, claims: multiset<nat>, contents: map<Bytes, nat>)
    requires Good(c, claims) && Synced(c.arena, c.lru, contents) && c.lru != []
    ensures var id := c.lru[0];
            && id < |c.arena| && c.arena[id].refs > 0 && (c.arena[id].refs == 1 ==> c.arena[id].charge <= c.usage)
            && var d := Evicted(c, id);
            && Good(d, claims) && Synced(d.arena, d.lru, contents - {c.arena[id].key})
            && d.lru == c.lru[1..] && c.freed <= d.freed && id < |d.arena| && d.usage + FreedCharge(d.arena[id]) == c.usage
            && SameEntries(c.arena, d.arena)
  {
    EvictedGood(c, claims, contents, c.lru[0]);
    EvictedSame(c, c.lru[0]);
  }

  lemma {:induction false} EvictedSame(c: Core, id: nat)
    requires id < |c.arena| && c.arena[id].refs > 0 && (c.arena[id].refs == 1 ==> c.arena[id].charge <= c.usage)
    ensures SameEntries(c.arena, Evicted(c, id).arena)
  {
  }

  lemma {:induction false} TouchedCounts(c: Core, claims: multiset<nat>, id: nat)
    requires Good(c, claims) && id in c.lru
    ensures id < |c.arena| && Good(Touched(c, id), claims + multiset{id})
  {
    var arena := c.arena[id := c.arena[id].(refs := c.arena[id].refs + 1)];
    var one, two := claims + multiset{id}, claims + multiset{id} + multiset{id};
    ClaimKeeps(c.arena, c.lru, claims, c.usage, c.freed, id);
    UnlinkKeeps(arena, c.lru, one, id);
    WithoutMembers(c.lru, id);
    LinkKeeps(arena, Without(c.lru, id), two, id);
    assert two - multiset{id} == one;
  }

  lemma {:induction false} TouchedGood(c: Core, claims: multiset<nat>, contents: map<Bytes, nat>, id: nat)
    requires Good(c, claims) && Synced(c.arena, c.lru, contents) && id in c.lru
    ensures id < |c.arena| && Good(Touched(c, id), claims + multiset{id})
    ensures Synced(Touched(c, id).arena, Touched(c, id).lru, contents)
  {
    TouchedCounts(c, claims, id);
    SyncedTouch(c.arena, c.lru, contents, id);
    SyncedDrop(c.arena, Without(c.lru, id) + [id], contents, id, c.arena[id].(refs := c.arena[id].refs + 1));
  }

  lemma {:induction false} AllocatedGood(c: Core, claims: multiset<nat>, key: Bytes, charge: nat)
    requires Good(c, claims)
    ensures Good(Allocated(c, key, charge), claims + multiset{|c.arena|})
  {
    var id, e := |c.arena|, Entry(key, charge, 2, true);
    NewKeeps(c.arena, c.lru, claims, c.usage, c.freed, e);
    LinkKeeps(c.arena + [e], c.lru, claims + multiset{id, id}, id);
    assert claims + multiset{id, id} - multiset{id} == claims + multiset{id};
  }

  /** Dropping an entry that the table no longer has. */
  lemma {:induction false} ReplacedGood(c: Core, claims: multiset<nat>, x: nat)
    requires Good(c, claims) && x in c.lru
    ensures x < |c.arena| && c.arena[x].refs > 0 && (c.arena[x].refs == 1 ==> c.arena[x].charge <= c.usage)
    ensures Good(Evicted(c, x), claims)
  {
    UnlinkKeeps(c.arena, c.lru, claims, x);
    UnrefGood(c.(lru := Without(c.lru, x)), claims + multiset{x}, x);
    assert claims + multiset{x} - multiset{x} == claims;
  }

  /** The list and the table after a new entry has taken its key's place. */
  lemma {:induction false} InsertedGood(c: Core, claims: multiset<nat>, contents: map<Bytes, nat>, key: Bytes, charge: nat)
    requires Good(c, claims) && Synced(c.arena, c.lru, contents)
    ensures var id, d := |c.arena|, Allocated(c, key, charge);
      && Good(d, claims + multiset{id})
      && (key !in contents ==> Synced(d.arena, d.lru, contents[key := id]))
      && (key in contents ==>
            var x := contents[key];
            && x in d.lru && x < |d.arena| && d.arena[x].refs > 0
            && (d.arena[x].refs == 1 ==> d.arena[x].charge <= d.usage)
            && Good(Evicted(d, x), claims + multiset{id})
            && Evicted(d, x).lru == Without(c.lru, x) + [id]
            && Synced(Evicted(d, x).arena, Evicted(d, x).lru, contents[key := id]))
  {
    var id, d, e := |c.arena|, Allocated(c, key, charge), Entry(key, charge, 2, true);
    AllocatedGood(c, claims, key, charge);
    SyncedInsert(c.arena, c.lru, contents, e);
    if key in contents {
      var x := contents[key];
      ReplacedGood(d, claims + multiset{id}, x);
      WithoutAppend(c.lru, id, x);
      SyncedDrop(d.arena, Without(c.lru, x) + [id], contents[key := id], x, Dropped(d.arena[x]));
    }
  }

  class LRUCache {
    const table: HandleTable
    var capacity: nat
    var core: Core
    /** The handles callers hold. */
    ghost var claims: multiset<nat>
    /** The calls so far, and what they returned. */
    ghost var calls: seq<Call>

    ghost predicate Valid()
      reads this, table
    {
      table.Valid() && CacheOk(core, claims, table.contents, calls)
    }

    constructor (hash: Hash, capacity: nat)
      ensures Valid() && fresh(table) && core.lru == [] && core.freed == [] && claims == multiset{} && calls == []
      ensures this.capacity == capacity
    {
      table := new HandleTable(hash);
      this.capacity, core, claims, calls := capacity, Core([], [], 0, []), multiset{}, [];
    }

    /** A hit hands out a handle and makes the entry the newest. */
    method Lookup(key: Bytes) returns (r: Option<nat>)
      requires Valid()
      modifies this`core, this`claims, this`calls
      ensures Valid() && calls == old(calls) + [if r.Some? then Hit(key, r.value) else Missed(key)]
      ensures r == if key in table.contents then Some(table.contents[key]) else None
      ensures r.Some? ==> core.lru == Without(old(core.lru), r.value) + [r.value] && claims == old(claims) + multiset{r.value}
      ensures r.None? ==> core == old(core) && claims == old(claims)
      ensures SameEntries(old(core.arena), core.arena)
    {
      r := table.Lookup(key);
      if r.Some? {
        TouchedGood(core, claims, table.contents, r.value);
        RecalledHit(core.lru, table.contents, calls, key, r.value);
        core := Touched(core, r.value);
        claims := claims + multiset{r.value};
        calls := calls + [Hit(key, r.value)];
      } else {
        RecalledQuiet(core.lru, table.contents, calls, Missed(key));
        calls := calls + [Missed(key)];
      }
    }

    method Release(handle: nat)
      requires Valid() && handle in claims
      modifies this`core, this`claims, this`calls
      ensures calls == old(calls) + [Released(handle)]
      ensures Valid() && core.lru == old(core.lru) && claims == old(claims) - multiset{handle}
      ensures core.freed == old(core.freed) + if old(core.arena)[handle].refs == 1 then [handle] else []
      ensures SameEntries(old(core.arena), core.arena)
    {
      ReleaseOk(core, claims, table.contents, calls, handle);
      core := Unref(core, handle);
      claims := claims - multiset{handle};
      calls := calls + [Released(handle)];
    }

    method Erase(key: Bytes)
      requires Valid()
      modifies this`core, this`calls, table
      ensures Valid() && table.contents == old(table.contents) - {key} && calls == old(calls) + [Erased(key)]
      ensures core.lru == if key in old(table.contents) then Without(old(core.lru), old(table.contents)[key]) else old(core.lru)
      ensures SameEntries(old(core.arena), core.arena)
    {
      EraseOk(core, claims, table.contents, calls, key);
      ghost var after := ErasedCore(core, table.contents, key);
      calls := calls + [Erased(key)];
      var e := table.Remove(key);
      if e.Some? {
        core := Evicted(core, e.value);
      }
      assert core == after;
    }

    /** One turn of the eviction loop: the oldest entry leaves. */
    method EvictOldest()
      requires Valid() && core.lru != []
      modifies this`core, table
      ensures Valid() && core.lru == old(core.lru)[1..] && old(core.freed) <= core.freed && core.usage <= old(core.usage)
      ensures old(core.lru)[0] < |core.arena| && core.usage + FreedCharge(core.arena[old(core.lru)[0]]) == old(core.usage)
      ensures SameEntries(old(core.arena), core.arena)
    {
      ghost var contents := table.contents;
      OldestGood(core, claims, contents);
      var id := core.lru[0];
      var key := core.arena[id].key;
      RecalledEvict(core.lru, contents, calls, key);
      var next := Evicted(core, id);
      assert Good(next, claims) && Synced(next.arena, next.lru, contents - {key}) && Recalled(next.lru, contents - {key}, calls);
      var _ := table.Remove(key);
      core := next;
    }

    /** Entries leave from the old end while the cache is over its capacity. */
    method Evict()
      requires Valid()
      modifies this`core, table
      ensures Valid() && old(core.freed) <= core.freed
      ensures exists k :: EvictedFirst(core, old(core.lru), k, capacity)
      ensures core.usage <= capacity || core.lru == []
      ensures old(core.usage) <= capacity ==> core.lru == old(core.lru)
      ensures SameEntries(old(core.arena), core.arena)
    {
      ghost var k := 0;
      while core.usage > capacity && core.lru != []
        invariant Valid() && old(core.freed) <= core.freed && core.usage <= old(core.usage)
        invariant EvictedFirst(core, old(core.lru), k, capacity) && SameEntries(old(core.arena), core.arena)
        invariant old(core.usage) <= capacity ==> core.lru == old(core.lru)
        decreases |core.lru|
      {
        EvictOldest();
        k := k + 1;
      }
    }

    /** Insert up to its eviction loop: the entry is the newest and its key's only one. */
    method Place(key: Bytes, charge: nat) returns (id: nat)
      requires Valid()
      modifies this`core, this`claims, this`calls, table
      ensures Valid() && id == |old(core.arena)| && claims == old(claims) + multiset{id}
      ensures calls == old(calls) + [Inserted(key, id)]
      ensures old(core.freed) <= core.freed && table.contents == old(table.contents)[key := id]
      ensures core.lru == Rest(old(core.lru), old(table.contents), key) + [id]
      ensures SameEntries(old(core.arena) + [Entry(key, charge, 2, true)], core.arena)
    {
      InsertedGood(core, claims, table.contents, key, charge);
      RecalledInsert(core.lru, table.contents, calls, key, |core.arena|);
      calls := calls + [Inserted(key, |core.arena|)];
      id := |core.arena|;
      core := Allocated(core, key, charge);
      claims := claims + multiset{id};
      var was := table.Insert(key, id);
      if was.Some? {
        EvictedSame(core, was.value);
        core := Evicted(core, was.value);
      }
    }

    method Insert(key: Bytes, charge: nat) returns (id: nat)
      requires Valid()
      modifies this`core, this`claims, this`calls, table
      ensures Valid() && id == |old(core.arena)| && claims == old(claims) + multiset{id}
      ensures calls == old(calls) + [Inserted(key, id)]
      ensures core.usage <= capacity || core.lru == []
      ensures old(core.freed) <= core.freed
      ensures var all := Rest(old(core.lru), old(table.contents), key) + [id];
        exists k :: EvictedFirst(core, all, k, capacity)
      ensures SameEntries(old(core.arena) + [Entry(key, charge, 2, true)], core.arena)
    {
      id := Place(key, charge);
      Evict();
    }
  }

  /** The list without the entry that has this key. */
  ghost function Rest(lru: seq<nat>, contents: map<Bytes, nat>, key: Bytes): seq<nat> {
    if key in contents then Without(lru, contents[key]) else lru
  }
}
