/** The memtable's skip list: searches, insertion through a possibly stale hint,
    and readers that run while an insertion is being linked.

    Nodes live in an arena and are never freed, so a node pointer is an index;
    node 0 is the head and -1 is NULL. */
module SkipLists {

  const MAX_HEIGHT: nat := 12
  const HEAD: nat := 0
  const NIL: int := -1

  type Key = int

  /** keys[n] and next[n][level] for every node n; |next[n]| is its height. */
  datatype Arena = Arena(keys: seq<Key>, next: seq<seq<int>>, maxHeight: nat)

  ghost predicate Links(a: Arena, l: nat, s: seq<nat>) {
    && |a.keys| == |a.next|
    && |s| > 0 && s[0] == HEAD
    && (forall i :: 0 <= i < |s| ==> s[i] < |a.keys| && l < |a.next[s[i]]|)
    && (forall i :: 0 <= i < |s| ==> a.next[s[i]][l] == if i + 1 < |s| then s[i + 1] else NIL)
    && (forall i :: 1 <= i < |s| ==> s[i] != HEAD)
    && (forall i, j :: 1 <= i < j < |s| ==> a.keys[s[i]] < a.keys[s[j]])
  }

  /** "lists" names the nodes of each level in order.  Every level is strictly
      sorted and a sublist of the level below. */
  ghost predicate Good(a: Arena, lists: seq<seq<nat>>) {
    && |a.keys| == |a.next| > 0
    && |a.next[HEAD]| == MAX_HEIGHT == |lists|
    && 1 <= a.maxHeight <= MAX_HEIGHT
    && (forall l :: 0 <= l < MAX_HEIGHT ==> Links(a, l, lists[l]))
    && (forall k, l, n :: 0 <= k < l < MAX_HEIGHT && n in lists[l] ==> n in lists[k])
    && (forall l :: a.maxHeight <= l < MAX_HEIGHT ==> lists[l] == [HEAD])
  }

  /** "prev" is the last node before the key at a level and "obs" follows it. */
  ghost predicate Exact(a: Arena, s: seq<nat>, key: Key, prev: nat, obs: int)
    requires forall i :: 0 <= i < |s| ==> s[i] < |a.keys|
  {
    exists p: nat :: Splits(a, s, key, p) && prev == s[p] && obs == if p + 1 < |s| then s[p + 1] else NIL
  }

  /** Position p is the last one whose key is before "key". */
  ghost predicate Splits(a: Arena, s: seq<nat>, key: Key, p: nat)
    requires forall i :: 0 <= i < |s| ==> s[i] < |a.keys|
  {
    && p < |s|
    && (p > 0 ==> a.keys[s[p]] < key)
    && (p + 1 < |s| ==> key <= a.keys[s[p + 1]])
  }

  /** Reading a next pointer from position p of a level. */
  lemma {:induction false} ReadNext(a: Arena, lists: seq<seq<nat>>, level: nat, p: nat, key: Key)
    requires Good(a, lists) && level < MAX_HEIGHT && p < |lists[level]|
    requires p > 0 ==> a.keys[lists[level][p]] < key
    ensures level < |a.next[lists[level][p]]|
    ensures var next := a.next[lists[level][p]][level];
            && next == (if p + 1 < |lists[level]| then lists[level][p + 1] else NIL)
            && NIL <= next < |a.keys|
            && (next == NIL || key <= a.keys[next] ==> Exact(a, lists[level], key, lists[level][p], next))
  {
    assert Links(a, level, lists[level]);
    var next := a.next[lists[level][p]][level];
    assert p + 1 < |lists[level]| ==> 0 <= lists[level][p + 1] < |a.keys|;
    if next == NIL || key <= a.keys[next] {
      assert Splits(a, lists[level], key, p);
    }
  }

  /** The levels in use from "low" up have the exact neighbours of the key. */
  ghost predicate Searched(a: Arena, lists: seq<seq<nat>>, key: Key, prev: seq<nat>, obs: seq<int>, low: nat)
    requires Good(a, lists) && |prev| == |obs| == MAX_HEIGHT
  {
    assert forall l :: 0 <= l < MAX_HEIGHT ==> Links(a, l, lists[l]);
    forall l :: low <= l < a.maxHeight ==> Exact(a, lists[l], key, prev[l], obs[l])
  }

  lemma {:induction false} RecordLevel(a: Arena, lists: seq<seq<nat>>, key: Key, prev: seq<nat>, obs: seq<int>,
                                       level: nat, node: nat, next: int)
    requires Good(a, lists) && |prev| == |obs| == MAX_HEIGHT && level < MAX_HEIGHT
    requires Searched(a, lists, key, prev, obs, level + 1) && Links(a, level, lists[level])
    requires Exact(a, lists[level], key, node, next)
    ensures Searched(a, lists, key, prev[level := node], obs[level := next], level)
  {
  }

  lemma {:induction false} InLevelBelow(a: Arena, lists: seq<seq<nat>>, level: nat, p: nat) returns (q: nat)
    requires Good(a, lists) && 0 < level < MAX_HEIGHT && p < |lists[level]|
    ensures q < |lists[level - 1]| && lists[level - 1][q] == lists[level][p]
    ensures p > 0 ==> q > 0
  {
    assert lists[level][p] in lists[level];
    assert lists[level][p] in lists[level - 1];
    q :| 0 <= q < |lists[level - 1]| && lists[level - 1][q] == lists[level][p];
    assert Links(a, level, lists[level]) && Links(a, level - 1, lists[level - 1]);
  }

  lemma {:induction false} SplitsAll(a: Arena, l: nat, s: seq<nat>, key: Key, p: nat)
    requires Links(a, l, s) && Splits(a, s, key, p)
    ensures forall i :: 1 <= i <= p ==> a.keys[s[i]] < key
    ensures forall i :: p < i < |s| ==> key <= a.keys[s[i]]
  {
  }

  /** A hint as it may be long after it was made: each prev is still in its
      level and before the key, each obs is NULL or not before the key. */
  ghost predicate HintOk(a: Arena, lists: seq<seq<nat>>, key: Key, prev: seq<nat>, obs: seq<int>)
    requires Good(a, lists)
  {
    && |prev| == |obs| == MAX_HEIGHT
    && forall l :: 0 <= l < MAX_HEIGHT ==> HintOkAt(a, lists[l], key, prev[l], obs[l])
  }

  ghost predicate HintOkAt(a: Arena, s: seq<nat>, key: Key, prev: nat, obs: int) {
    && prev in s && prev < |a.keys|
    && (prev == HEAD || a.keys[prev] < key)
    && (obs == NIL || (0 <= obs < |a.keys| && key <= a.keys[obs]))
  }

  /** Later states of the list: keys are immutable and nodes stay in their levels. */
  ghost predicate Grows(a: Arena, lists: seq<seq<nat>>, b: Arena, lists': seq<seq<nat>>) {
    && Good(a, lists) && Good(b, lists')
    && a.keys <= b.keys
    && forall l, n :: 0 <= l < MAX_HEIGHT && n in lists[l] ==> n in lists'[l]
  }

  /** A hint survives any insertions made since. */
  lemma {:induction false} HintSurvives(a: Arena, lists: seq<seq<nat>>, b: Arena, lists': seq<seq<nat>>,
                     key: Key, prev: seq<nat>, obs: seq<int>)
    requires Grows(a, lists, b, lists') && HintOk(a, lists, key, prev, obs)
    ensures HintOk(b, lists', key, prev, obs)
  {
    forall l | 0 <= l < MAX_HEIGHT
      ensures HintOkAt(b, lists'[l], key, prev[l], obs[l])
    {
      assert HintOkAt(a, lists[l], key, prev[l], obs[l]);
    }
  }

  lemma {:induction false} ExactIsHint(a: Arena, lists: seq<seq<nat>>, l: nat, key: Key, prev: nat, obs: int)
    requires Good(a, lists) && l < MAX_HEIGHT
    requires Exact(a, lists[l], key, prev, obs)
    ensures HintOkAt(a, lists[l], key, prev, obs)
  {
    assert Links(a, l, lists[l]);
    var p: nat :| Splits(a, lists[l], key, p) && prev == lists[l][p] && obs == if p + 1 < |lists[l]| then lists[l][p + 1] else NIL;
  }

  // ----- one insertion, store by store

  function InsertAfter(s: seq<nat>, p: nat, x: nat): seq<nat>
    requires p < |s|
  {
    s[..p + 1] + [x] + s[p + 1..]
  }

  function AddNode(a: Arena, key: Key, height: nat): Arena {
    a.(keys := a.keys + [key], next := a.next + [seq(height, _ => NIL)])
  }

  /** Set the new node's pointer at one level, then publish it in "prev". */
  function LinkAt(a: Arena, x: nat, prev: nat, l: nat): Arena
    requires x < |a.next| && prev < |a.next| && l < |a.next[x]| && l < |a.next[prev]|
  {
    var next := a.next[x := a.next[x][l := a.next[prev][l]]];
    a.(next := next[prev := next[prev][l := x]])
  }

  lemma {:induction false} AddNodeGrows(a: Arena, lists: seq<seq<nat>>, key: Key, height: nat)
    requires Good(a, lists)
    ensures Grows(a, lists, AddNode(a, key, height), lists)
    ensures forall l :: 0 <= l < MAX_HEIGHT ==> |a.keys| !in lists[l]
  {
    var b := AddNode(a, key, height);
    forall l | 0 <= l < MAX_HEIGHT
      ensures Links(b, l, lists[l]) && |a.keys| !in lists[l]
    {
      assert Links(a, l, lists[l]);
    }
  }

  lemma {:induction false} RaiseGrows(a: Arena, lists: seq<seq<nat>>, height: nat)
    requires Good(a, lists) && a.maxHeight <= height <= MAX_HEIGHT
    ensures Grows(a, lists, a.(maxHeight := height), lists)
  {
    var b := a.(maxHeight := height);
    forall l | 0 <= l < MAX_HEIGHT
      ensures Links(b, l, lists[l])
    {
      assert Links(a, l, lists[l]);
    }
  }

  /** x may be linked next at level l: it is in all levels below and in no other. */
  ghost predicate Linkable(a: Arena, lists: seq<seq<nat>>, x: nat, l: nat)
    requires Good(a, lists)
  {
    && HEAD < x < |a.keys| && l < |a.next[x]| && l < a.maxHeight
    && (forall m :: l <= m < MAX_HEIGHT ==> x !in lists[m])
    && (forall m :: 0 <= m < l ==> x in lists[m])
  }

  lemma {:induction false} DistinctNodes(a: Arena, l: nat, s: seq<nat>)
    requires Links(a, l, s)
    ensures forall i, j :: 0 <= i < j < |s| ==> s[i] != s[j]
  {
    forall i, j | 0 <= i < j < |s|
      ensures s[i] != s[j]
    {
      assert i > 0 ==> a.keys[s[i]] < a.keys[s[j]];
    }
  }

  lemma {:induction false} LinkedPointer(a: Arena, l: nat, s: seq<nat>, x: nat, p: nat, i: nat)
    requires Links(a, l, s)
    requires HEAD < x < |a.keys| && l < |a.next[x]| && x !in s && p < |s|
    requires i < |s| + 1
    ensures var b, t := LinkAt(a, x, s[p], l), InsertAfter(s, p, x);
            t[i] < |b.keys| && l < |b.next[t[i]]| && b.next[t[i]][l] == (if i + 1 < |t| then t[i + 1] else NIL)
  {
    var t := InsertAfter(s, p, x);
    DistinctNodes(a, l, s);
    if i < p {
      assert t[i] == s[i] && s[i] != s[p] && t[i + 1] == s[i + 1];
    } else if i == p {
      assert t[i] == s[p] && t[i + 1] == x;
    } else if i == p + 1 {
      assert t[i] == x;
    } else {
      assert t[i] == s[i - 1] && s[i - 1] != s[p];
    }
  }

  lemma {:induction false} InsertedOrder(a: Arena, l: nat, s: seq<nat>, x: nat, p: nat)
    requires Links(a, l, s) && x < |a.keys|
    requires Splits(a, s, a.keys[x], p)
    requires p + 1 < |s| ==> a.keys[s[p + 1]] != a.keys[x]
    ensures var t := InsertAfter(s, p, x);
            && (forall i :: 0 <= i < |t| ==> t[i] < |a.keys|)
            && (forall i, j :: 1 <= i < j < |t| ==> a.keys[t[i]] < a.keys[t[j]])
  {
    var t := InsertAfter(s, p, x);
    SplitsAll(a, l, s, a.keys[x], p);
    forall i | 0 <= i < |t|
      ensures t[i] < |a.keys|
    {
      InsertedAt(s, p, x, i);
    }
    forall i, j | 1 <= i < j < |t|
      ensures a.keys[t[i]] < a.keys[t[j]]
    {
      InsertedAt(s, p, x, i);
      InsertedAt(s, p, x, j);
      assert j > p + 2 ==> a.keys[s[p + 1]] < a.keys[s[j - 1]];
    }
  }

  lemma {:induction false} InsertedAt(s: seq<nat>, p: nat, x: nat, i: nat)
    requires p < |s| && i <= |s|
    ensures InsertAfter(s, p, x)[i] == if i <= p then s[i] else if i == p + 1 then x else s[i - 1]
  {
  }

  lemma {:induction false} LinkedLevel(a: Arena, l: nat, s: seq<nat>, x: nat, p: nat)
    requires Links(a, l, s)
    requires HEAD < x < |a.keys| && l < |a.next[x]| && x !in s
    requires Splits(a, s, a.keys[x], p)
    requires p + 1 < |s| ==> a.keys[s[p + 1]] != a.keys[x]
    ensures Links(LinkAt(a, x, s[p], l), l, InsertAfter(s, p, x))
  {
    var b, t := LinkAt(a, x, s[p], l), InsertAfter(s, p, x);
    InsertedOrder(a, l, s, x, p);
    forall i | 0 <= i < |t|
      ensures t[i] < |b.keys| && l < |b.next[t[i]]|
    {
      LinkedPointer(a, l, s, x, p, i);
    }
    forall i | 0 <= i < |t|
      ensures b.next[t[i]][l] == if i + 1 < |t| then t[i + 1] else NIL
    {
      LinkedPointer(a, l, s, x, p, i);
    }
    forall i | 1 <= i < |t|
      ensures t[i] != HEAD
    {
      InsertedAt(s, p, x, i);
    }
    InsertedAt(s, p, x, 0);
    assert |b.keys| == |b.next|;
    assert forall i :: 0 <= i < |t| ==> t[i] < |b.keys| && l < |b.next[t[i]]|;
    assert forall i :: 0 <= i < |t| ==> b.next[t[i]][l] == if i + 1 < |t| then t[i + 1] else NIL;
    assert forall i, j :: 1 <= i < j < |t| ==> b.keys[t[i]] < b.keys[t[j]];
  }

  lemma {:induction false} OtherLevel(a: Arena, l: nat, m: nat, s: seq<nat>, x: nat, prev: nat)
    requires Links(a, m, s) && m != l
    requires x < |a.next| && prev < |a.next| && l < |a.next[x]| && l < |a.next[prev]|
    ensures Links(LinkAt(a, x, prev, l), m, s)
  {
  }

  /** The list is good after every single link, not only after the last. */
  lemma {:induction false} LinkGrows(a: Arena, lists: seq<seq<nat>>, x: nat, l: nat, p: nat)
    requires Good(a, lists) && l < MAX_HEIGHT && Linkable(a, lists, x, l)
    requires Splits(a, lists[l], a.keys[x], p)
    requires p + 1 < |lists[l]| ==> a.keys[lists[l][p + 1]] != a.keys[x]
    ensures l < |a.next[lists[l][p]]|
    ensures Grows(a, lists, LinkAt(a, x, lists[l][p], l), lists[l := InsertAfter(lists[l], p, x)])
  {
    assert Links(a, l, lists[l]);
    var b := LinkAt(a, x, lists[l][p], l);
    var lists' := lists[l := InsertAfter(lists[l], p, x)];
    LinkedLevel(a, l, lists[l], x, p);
    forall m | 0 <= m < MAX_HEIGHT
      ensures Links(b, m, lists'[m])
    {
      if m != l {
        assert Links(a, m, lists[m]);
        OtherLevel(a, l, m, lists[m], x, lists[l][p]);
      }
    }
    InsertedMembers(lists[l], p, x);
  }

  lemma {:induction false} InsertedMembers(s: seq<nat>, p: nat, x: nat)
    requires p < |s|
    ensures forall n :: n in InsertAfter(s, p, x) <==> n in s || n == x
  {
    assert s == s[..p + 1] + s[p + 1..];
  }

  ghost function KeysOf(a: Arena, lists: seq<seq<nat>>): set<Key>
    requires Good(a, lists)
  {
    assert Links(a, 0, lists[0]);
    set i | 1 <= i < |lists[0]| :: a.keys[lists[0][i]]
  }

  lemma {:induction false} NodeKey(a: Arena, lists: seq<seq<nat>>, l: nat, n: nat)
    requires Good(a, lists) && l < MAX_HEIGHT && n in lists[l] && n != HEAD
    ensures n < |a.keys| && a.keys[n] in KeysOf(a, lists)
  {
    assert Links(a, 0, lists[0]);
    assert n in lists[0];
    var i :| 0 <= i < |lists[0]| && lists[0][i] == n;
    assert 1 <= i;
  }

  lemma {:induction false} KeysAfterInsert(a: Arena, lists: seq<seq<nat>>, b: Arena, lists': seq<seq<nat>>, x: nat)
    requires Grows(a, lists, b, lists')
    requires HEAD < x < |b.keys|
    requires forall n :: n in lists'[0] <==> n in lists[0] || n == x
    ensures KeysOf(b, lists') == KeysOf(a, lists) + {b.keys[x]}
  {
    assert Links(a, 0, lists[0]) && Links(b, 0, lists'[0]);
    forall k | k in KeysOf(b, lists')
      ensures k in KeysOf(a, lists) + {b.keys[x]}
    {
      var i :| 1 <= i < |lists'[0]| && k == b.keys[lists'[0][i]];
      var n := lists'[0][i];
      assert n in lists'[0];
      if n != x {
        NodeKey(a, lists, 0, n);
      }
    }
    forall k | k in KeysOf(a, lists)
      ensures k in KeysOf(b, lists')
    {
      var i :| 1 <= i < |lists[0]| && k == a.keys[lists[0][i]];
      assert lists[0][i] in lists'[0];
      NodeKey(b, lists', 0, lists[0][i]);
    }
    assert x in lists'[0];
    NodeKey(b, lists', 0, x);
  }

  /** Where the next link goes: the hint is exact and the key is new. */
  ghost predicate ReadyToLink(a: Arena, lists: seq<seq<nat>>, key: Key, l: nat, prev: nat)
    requires Good(a, lists) && l < MAX_HEIGHT
  {
    exists p: nat :: LinkPoint(a, lists, key, l, prev, p)
  }

  ghost predicate LinkPoint(a: Arena, lists: seq<seq<nat>>, key: Key, l: nat, prev: nat, p: nat)
    requires Good(a, lists) && l < MAX_HEIGHT
  {
    assert Links(a, l, lists[l]);
    && Splits(a, lists[l], key, p)
    && prev == lists[l][p]
    && (p + 1 < |lists[l]| ==> a.keys[lists[l][p + 1]] != key)
  }

  lemma {:induction false} ExactIsReady(a: Arena, lists: seq<seq<nat>>, key: Key, l: nat, prev: nat, obs: int)
    requires Good(a, lists) && l < MAX_HEIGHT && key !in KeysOf(a, lists)
    requires Exact(a, lists[l], key, prev, obs)
    ensures ReadyToLink(a, lists, key, l, prev)
  {
    assert Links(a, l, lists[l]);
    var p: nat :| Splits(a, lists[l], key, p) && prev == lists[l][p] && obs == if p + 1 < |lists[l]| then lists[l][p + 1] else NIL;
    if p + 1 < |lists[l]| {
      assert lists[l][p + 1] in lists[l];
      NodeKey(a, lists, l, lists[l][p + 1]);
    }
    assert LinkPoint(a, lists, key, l, prev, p);
  }

  /** A link point of one level is not disturbed while others are linked. */
  lemma {:induction false} ReadyStays(a: Arena, lists: seq<seq<nat>>, b: Arena, lists': seq<seq<nat>>, key: Key, l: nat, prev: nat)
    requires Grows(a, lists, b, lists') && l < MAX_HEIGHT && lists'[l] == lists[l]
    requires ReadyToLink(a, lists, key, l, prev)
    ensures ReadyToLink(b, lists', key, l, prev)
  {
    var p: nat :| LinkPoint(a, lists, key, l, prev, p);
    assert Links(a, l, lists[l]);
    assert LinkPoint(b, lists', key, l, prev, p);
  }

  class InsertHint {
    var x: int
    var prev: seq<nat>
    var obs: seq<int>

    constructor ()
      ensures prev == seq(MAX_HEIGHT, _ => HEAD) && obs == seq(MAX_HEIGHT, _ => NIL)
    {
      x := NIL;
      prev := seq(MAX_HEIGHT, _ => HEAD);
      obs := seq(MAX_HEIGHT, _ => NIL);
    }
  }

  lemma {:induction false} EmptyGood(a: Arena, lists: seq<seq<nat>>)
    requires |a.keys| == |a.next| == 1 == a.maxHeight && |a.next[HEAD]| == MAX_HEIGHT == |lists|
    requires forall l :: 0 <= l < MAX_HEIGHT ==> a.next[HEAD][l] == NIL
    requires forall l :: 0 <= l < MAX_HEIGHT ==> lists[l] == [HEAD]
    ensures Good(a, lists) && KeysOf(a, lists) == {}
  {
  }

  class SkipList {
    var arena: Arena
    ghost var lists: seq<seq<nat>>

    constructor ()
      ensures Good(arena, lists) && Keys() == {}
    {
      arena := Arena([0], [seq(MAX_HEIGHT, _ => NIL)], 1);
      lists := seq(MAX_HEIGHT, _ => [HEAD]);
      new;
      EmptyGood(arena, lists);
    }

    /** The keys in the list. */
    ghost function Keys(): set<Key>
      requires Good(arena, lists)
      reads this
    {
      KeysOf(arena, lists)
    }

    function KeyIsAfterNode(key: Key, n: int): bool
      requires n == NIL || 0 <= n < |arena.keys|
      reads this
    {
      n != NIL && arena.keys[n] < key
    }

    /** First node at or after the key; fills the hint below the current height. */
    method FindGreaterOrEqual(key: Key, prev: seq<nat>, obs: seq<int>)
      returns (x: int, prev': seq<nat>, obs': seq<int>)
      requires Good(arena, lists)
      requires |prev| == |obs| == MAX_HEIGHT
      ensures |prev'| == |obs'| == MAX_HEIGHT
      ensures Searched(arena, lists, key, prev', obs', 0)
      ensures forall l :: arena.maxHeight <= l < MAX_HEIGHT ==> prev'[l] == prev[l] && obs'[l] == obs[l]
      ensures x == obs'[0]
    {
      prev', obs' := prev, obs;
      var node := HEAD;
      var level := arena.maxHeight - 1;
      ghost var p: nat := 0;
      while true
        invariant 0 <= level < arena.maxHeight
        invariant p < |lists[level]| && lists[level][p] == node
        invariant p > 0 ==> arena.keys[node] < key
        invariant |prev'| == |obs'| == MAX_HEIGHT && Searched(arena, lists, key, prev', obs', level + 1)
        invariant forall l :: arena.maxHeight <= l < MAX_HEIGHT ==> prev'[l] == prev[l] && obs'[l] == obs[l]
        decreases level, |lists[level]| - p
      {
        ReadNext(arena, lists, level, p, key);
        var next := arena.next[node][level];
        if KeyIsAfterNode(key, next) {
          node := next;
          p := p + 1;
        } else {
          RecordLevel(arena, lists, key, prev', obs', level, node, next);
          prev' := prev'[level := node];
          obs' := obs'[level := next];
          if level == 0 {
            return next, prev', obs';
          }
          p := InLevelBelow(arena, lists, level, p);
          level := level - 1;
        }
      }
    }

    /** The InsertHint constructor: a search made without the list's lock. */
    method MakeHint(key: Key) returns (ih: InsertHint)
      requires Good(arena, lists)
      ensures fresh(ih)
      ensures HintOk(arena, lists, key, ih.prev, ih.obs)
    {
      ih := new InsertHint();
      var x, prev, obs := FindGreaterOrEqual(key, ih.prev, ih.obs);
      ih.x, ih.prev, ih.obs := x, prev, obs;
      forall l | 0 <= l < MAX_HEIGHT
        ensures HintOkAt(arena, lists[l], key, prev[l], obs[l])
      {
        if l < arena.maxHeight {
          ExactIsHint(arena, lists, l, key, prev[l], obs[l]);
        }
      }
    }

    /** Brings a stale hint up to date: at every level its nodes become those a
        fresh search would find. */
    method UpdateHint(ih: InsertHint, key: Key)
      requires Good(arena, lists)
      requires HintOk(arena, lists, key, ih.prev, ih.obs)
      modifies ih
      ensures |ih.prev| == |ih.obs| == MAX_HEIGHT
      ensures forall l :: 0 <= l < MAX_HEIGHT ==> Exact(arena, lists[l], key, ih.prev[l], ih.obs[l])
      ensures ih.x == ih.obs[0]
    {
      var level := 0;
      while level < MAX_HEIGHT
        invariant 0 <= level <= MAX_HEIGHT
        invariant |ih.prev| == |ih.obs| == MAX_HEIGHT
        invariant forall l :: 0 <= l < level ==> Exact(arena, lists[l], key, ih.prev[l], ih.obs[l])
        invariant forall l :: level <= l < MAX_HEIGHT ==> HintOkAt(arena, lists[l], key, ih.prev[l], ih.obs[l])
      {
        var x, next := AdvanceHint(level, ih.prev[level], ih.obs[level], key);
        ih.prev := ih.prev[level := x];
        ih.obs := ih.obs[level := next];
        level := level + 1;
      }
      ih.x := ih.obs[0];
    }

    method AdvanceHint(level: nat, prev: nat, obs: int, key: Key) returns (x: nat, next: int)
      requires Good(arena, lists) && level < MAX_HEIGHT
      requires HintOkAt(arena, lists[level], key, prev, obs)
      ensures Exact(arena, lists[level], key, x, next)
    {
      x := prev;
      ghost var p: nat :| p < |lists[level]| && lists[level][p] == x;
      assert Links(arena, level, lists[level]);
      while true
        invariant p < |lists[level]| && lists[level][p] == x
        invariant p > 0 ==> arena.keys[x] < key
        decreases |lists[level]| - p
      {
        ReadNext(arena, lists, level, p, key);
        next := arena.next[x][level];
        if next == obs || !KeyIsAfterNode(key, next) {
          break;
        }
        x := next;
        p := p + 1;
      }
    }

    /** Inserts through a hint made at any earlier time for the same key. */
    method InsertWithHint(ih: InsertHint, key: Key, height: nat)
      requires Good(arena, lists)
      requires HintOk(arena, lists, key, ih.prev, ih.obs)
      requires 1 <= height <= MAX_HEIGHT
      requires key !in Keys()
      modifies this, ih
      ensures Grows(old(arena), old(lists), arena, lists)
      ensures arena.keys == old(arena).keys + [key]
      ensures forall l, n :: 0 <= l < MAX_HEIGHT ==>
                (n in lists[l] <==> n in old(lists)[l] || (l < height && n == |old(arena).keys|))
      ensures Keys() == old(Keys()) + {key}
    {
      UpdateHint(ih, key);
      var prev: seq<nat> := ih.prev;
      forall l | 0 <= l < MAX_HEIGHT
        ensures ReadyToLink(arena, lists, key, l, prev[l])
      {
        ExactIsReady(arena, lists, key, l, prev[l], ih.obs[l]);
      }
      if height > arena.maxHeight {
        prev := RaiseTo(prev, key, height);
      }
      var x := |arena.keys|;
      AddNodeGrows(arena, lists, key, height);
      forall l | 0 <= l < MAX_HEIGHT
        ensures ReadyToLink(AddNode(arena, key, height), lists, key, l, prev[l])
      {
        ReadyStays(arena, lists, AddNode(arena, key, height), lists, key, l, prev[l]);
      }
      arena := AddNode(arena, key, height);
      LinkLevels(x, key, height, prev);
      KeysAfterInsert(old(arena), old(lists), arena, lists, x);
    }

    /** New levels start at the head. */
    method RaiseTo(given: seq<nat>, key: Key, height: nat) returns (prev: seq<nat>)
      requires Good(arena, lists) && arena.maxHeight < height <= MAX_HEIGHT && |given| == MAX_HEIGHT
      requires forall l :: 0 <= l < MAX_HEIGHT ==> ReadyToLink(arena, lists, key, l, given[l])
      modifies this`arena
      ensures arena == old(arena).(maxHeight := height) && Good(arena, lists) && Grows(old(arena), lists, arena, lists)
      ensures |prev| == MAX_HEIGHT && forall l :: 0 <= l < MAX_HEIGHT ==> ReadyToLink(arena, lists, key, l, prev[l])
    {
      prev := given;
      var i := arena.maxHeight;
      while i < height
        invariant arena.maxHeight <= i <= height
        invariant |prev| == MAX_HEIGHT
        invariant forall l :: 0 <= l < MAX_HEIGHT ==> ReadyToLink(arena, lists, key, l, prev[l])
      {
        assert lists[i] == [HEAD];
        assert LinkPoint(arena, lists, key, i, HEAD, 0);
        prev := prev[i := HEAD];
        i := i + 1;
      }
      RaiseGrows(arena, lists, height);
      forall l | 0 <= l < MAX_HEIGHT
        ensures ReadyToLink(arena.(maxHeight := height), lists, key, l, prev[l])
      {
        ReadyStays(arena, lists, arena.(maxHeight := height), lists, key, l, prev[l]);
      }
      arena := arena.(maxHeight := height);
    }

    /** Publishes node x level by level, from the bottom. */
    method LinkLevels(x: nat, key: Key, height: nat, prev: seq<nat>)
      requires Good(arena, lists)
      requires |prev| == MAX_HEIGHT && 1 <= height <= arena.maxHeight
      requires HEAD < x < |arena.keys| && arena.keys[x] == key && |arena.next[x]| == height
      requires forall l :: 0 <= l < MAX_HEIGHT ==> x !in lists[l]
      requires forall l :: 0 <= l < MAX_HEIGHT ==> ReadyToLink(arena, lists, key, l, prev[l])
      modifies this
      ensures Grows(old(arena), old(lists), arena, lists)
      ensures arena.keys == old(arena).keys
      ensures forall l, n :: 0 <= l < MAX_HEIGHT ==> (n in lists[l] <==> n in old(lists)[l] || (l < height && n == x))
    {
      var i := 0;
      while i < height
        invariant 0 <= i <= height
        invariant Good(arena, lists)
        invariant arena.keys == old(arena).keys && arena.maxHeight == old(arena).maxHeight && |arena.next[x]| == height
        invariant forall l, n :: 0 <= l < MAX_HEIGHT ==> (n in lists[l] <==> n in old(lists)[l] || (l < i && n == x))
        invariant forall l :: i <= l < MAX_HEIGHT ==> ReadyToLink(arena, lists, key, l, prev[l])
      {
        ghost var p: nat :| LinkPoint(arena, lists, key, i, prev[i], p);
        ghost var lists' := lists[i := InsertAfter(lists[i], p, x)];
        assert Linkable(arena, lists, x, i);
        LinkGrows(arena, lists, x, i, p);
        InsertedMembers(lists[i], p, x);
        forall l | i + 1 <= l < MAX_HEIGHT
          ensures ReadyToLink(LinkAt(arena, x, prev[i], i), lists', key, l, prev[l])
        {
          ReadyStays(arena, lists, LinkAt(arena, x, prev[i], i), lists', key, l, prev[l]);
        }
        arena := LinkAt(arena, x, prev[i], i);
        lists := lists';
        i := i + 1;
      }
    }

    /** Last node before the key, or the head. */
    method FindLessThan(key: Key) returns (x: nat)
      requires Good(arena, lists)
      ensures exists obs :: Exact(arena, lists[0], key, x, obs)
    {
      x := HEAD;
      var level := arena.maxHeight - 1;
      ghost var p: nat := 0;
      while true
        invariant 0 <= level < arena.maxHeight
        invariant p < |lists[level]| && lists[level][p] == x
        invariant p > 0 ==> arena.keys[x] < key
        decreases level, |lists[level]| - p
      {
        ReadNext(arena, lists, level, p, key);
        var next := arena.next[x][level];
        if next == NIL || arena.keys[next] >= key {
          if level == 0 {
            return;
          }
          p := InLevelBelow(arena, lists, level, p);
          level := level - 1;
        } else {
          x := next;
          p := p + 1;
        }
      }
    }

    /** Last node of the list, or the head if it is empty. */
    method FindLast() returns (x: nat)
      requires Good(arena, lists)
      ensures x == lists[0][|lists[0]| - 1]
    {
      x := HEAD;
      var level := arena.maxHeight - 1;
      ghost var p: nat := 0;
      while true
        invariant 0 <= level < arena.maxHeight
        invariant p < |lists[level]| && lists[level][p] == x
        decreases level, |lists[level]| - p
      {
        ReadNext(arena, lists, level, p, arena.keys[x] + 1);
        var next := arena.next[x][level];
        if next == NIL {
          if level == 0 {
            return;
          }
          p := InLevelBelow(arena, lists, level, p);
          level := level - 1;
        } else {
          x := next;
          p := p + 1;
        }
      }
    }

    method Contains(key: Key) returns (found: bool)
      requires Good(arena, lists)
      ensures found <==> key in Keys()
    {
      var x, prev, obs := FindGreaterOrEqual(key, seq(MAX_HEIGHT, _ => HEAD), seq(MAX_HEIGHT, _ => NIL));
      FirstAtOrAfter(arena, lists, key, x);
      found := x != NIL && arena.keys[x] == key;
    }
  }

  /** x is the first node at or after the key. */
  ghost predicate RightAnswer(a: Arena, lists: seq<seq<nat>>, key: Key, x: int)
    requires Good(a, lists)
  {
    assert Links(a, 0, lists[0]);
    exists prev: nat :: Exact(a, lists[0], key, prev, x)
  }

  /** The node after the exact predecessor decides membership. */
  lemma {:induction false} FirstAtOrAfter(a: Arena, lists: seq<seq<nat>>, key: Key, x: int)
    requires Good(a, lists)
    requires RightAnswer(a, lists, key, x)
    ensures NIL <= x < |a.keys|
    ensures x != NIL ==> x != HEAD && x in lists[0]
    ensures key in KeysOf(a, lists) <==> x != NIL && a.keys[x] == key
  {
    assert Links(a, 0, lists[0]);
    var s := lists[0];
    var prev: nat :| Exact(a, s, key, prev, x);
    var p: nat :| Splits(a, s, key, p) && prev == s[p] && x == if p + 1 < |s| then s[p + 1] else NIL;
    SplitsAll(a, 0, s, key, p);
    if key in KeysOf(a, lists) {
      var i :| 1 <= i < |s| && a.keys[s[i]] == key;
      assert i == p + 1;
    }
  }

  // ----- readers that run while an insertion is in progress

  /** A search in flight, at node x of a level, or finished with a result; the
      hint it fills goes along. */
  datatype Reader =
    | Searching(x: nat, level: nat, prev: seq<nat>, obs: seq<int>)
    | Done(result: int, prev: seq<nat>, obs: seq<int>)

  ghost predicate ReaderOk(a: Arena, lists: seq<seq<nat>>, key: Key, r: Reader)
    requires Good(a, lists)
  {
    && HintOk(a, lists, key, r.prev, r.obs)
    && (r.Searching? ==>
          && r.level < MAX_HEIGHT
          && r.x in lists[r.level] && r.x < |a.keys|
          && (r.x == HEAD || a.keys[r.x] < key))
  }

  /** One atomic read of a next pointer and the move that follows. */
  function ReadStep(a: Arena, key: Key, r: Reader): Reader
    requires r.Searching? && r.x < |a.next| && r.level < |a.next[r.x]|
    requires NIL <= a.next[r.x][r.level] < |a.keys|
    requires r.level < |r.prev| == |r.obs|
  {
    var next := a.next[r.x][r.level];
    if next != NIL && a.keys[next] < key then r.(x := next)
    else
      var prev, obs := r.prev[r.level := r.x], r.obs[r.level := next];
      if r.level == 0 then Done(next, prev, obs) else Searching(r.x, r.level - 1, prev, obs)
  }

  lemma {:induction false} ReadStepOk(a: Arena, lists: seq<seq<nat>>, key: Key, r: Reader)
    requires Good(a, lists) && ReaderOk(a, lists, key, r) && r.Searching?
    ensures r.x < |a.next| && r.level < |a.next[r.x]| && NIL <= a.next[r.x][r.level] < |a.keys|
    ensures r.level < |r.prev| == |r.obs|
    ensures ReaderOk(a, lists, key, ReadStep(a, key, r))
    ensures ReadStep(a, key, r).Done? ==> Exact(a, lists[0], key, r.x, ReadStep(a, key, r).result)
  {
    var s := lists[r.level];
    assert Links(a, r.level, s);
    var p: nat :| p < |s| && s[p] == r.x;
    ReadNext(a, lists, r.level, p, key);
    if p + 1 < |s| {
      assert s[p + 1] in s;
    }
    var next := a.next[r.x][r.level];
    if next == NIL || key <= a.keys[next] {
      RecordHint(a, lists, key, r.prev, r.obs, r.level, r.x, next);
      assert r.level > 0 ==> r.x in lists[r.level - 1];
    }
  }

  lemma {:induction false} RecordHint(a: Arena, lists: seq<seq<nat>>, key: Key, prev: seq<nat>, obs: seq<int>,
                                      level: nat, x: nat, next: int)
    requires Good(a, lists) && HintOk(a, lists, key, prev, obs) && level < MAX_HEIGHT
    requires HintOkAt(a, lists[level], key, x, next)
    ensures HintOk(a, lists, key, prev[level := x], obs[level := next])
  {
  }

  /** A reader's place stays good whatever is linked meanwhile. */
  lemma {:induction false} ReaderSurvives(a: Arena, lists: seq<seq<nat>>, b: Arena, lists': seq<seq<nat>>, key: Key, r: Reader)
    requires Grows(a, lists, b, lists') && ReaderOk(a, lists, key, r)
    ensures ReaderOk(b, lists', key, r)
  {
    HintSurvives(a, lists, b, lists', key, r.prev, r.obs);
  }

  datatype Moment = Moment(arena: Arena, lists: seq<seq<nat>>, reader: Reader)

  /** A search interleaved with any writer steps: between two moments either the
      list grows or the reader takes one step. */
  ghost predicate Search(h: seq<Moment>, key: Key) {
    && |h| > 0
    && Good(h[0].arena, h[0].lists)
    && h[0].reader == Searching(HEAD, h[0].arena.maxHeight - 1,
                                seq(MAX_HEIGHT, _ => HEAD), seq(MAX_HEIGHT, _ => NIL))
    && forall i :: 0 <= i < |h| - 1 ==> SearchStep(h[i], h[i + 1], key)
  }

  ghost predicate SearchStep(m: Moment, m': Moment, key: Key) {
    || (m'.reader == m.reader && Grows(m.arena, m.lists, m'.arena, m'.lists))
    || (&& m'.arena == m.arena && m'.lists == m.lists
        && m.reader.Searching?
        && m.reader.x < |m.arena.next| && m.reader.level < |m.arena.next[m.reader.x]|
        && NIL <= m.arena.next[m.reader.x][m.reader.level] < |m.arena.keys|
        && m.reader.level < |m.reader.prev| == |m.reader.obs|
        && m'.reader == ReadStep(m.arena, key, m.reader))
  }

  /** The answer a finished search gives was the right one for the list at the
      moment of its last read, and that list held every key present at the start. */
  ghost predicate AnsweredAt(h: seq<Moment>, key: Key, i: nat)
    requires i < |h|
  {
    && Good(h[i].arena, h[i].lists)
    && Grows(h[0].arena, h[0].lists, h[i].arena, h[i].lists)
    && h[|h| - 1].reader.Done?
    && RightAnswer(h[i].arena, h[i].lists, key, h[|h| - 1].reader.result)
  }

  lemma {:induction false} GrowsTrans(a: Arena, la: seq<seq<nat>>, b: Arena, lb: seq<seq<nat>>, c: Arena, lc: seq<seq<nat>>)
    requires Grows(a, la, b, lb) && Grows(b, lb, c, lc)
    ensures Grows(a, la, c, lc)
  {
  }

  /** One step of a search or of a writer: a finished search is not touched, and
      one that finishes does so with the right answer. */
  lemma {:induction false} StepKeepsSearch(first: Moment, m: Moment, m': Moment, key: Key)
    requires Grows(first.arena, first.lists, m.arena, m.lists)
    requires ReaderOk(m.arena, m.lists, key, m.reader) && SearchStep(m, m', key)
    ensures Grows(first.arena, first.lists, m'.arena, m'.lists)
    ensures ReaderOk(m'.arena, m'.lists, key, m'.reader)
    ensures m.reader.Done? ==> m'.reader == m.reader
    ensures m.reader.Searching? && m'.reader.Done? ==> RightAnswer(m'.arena, m'.lists, key, m'.reader.result)
  {
    if m'.reader == m.reader && Grows(m.arena, m.lists, m'.arena, m'.lists) {
      GrowsTrans(first.arena, first.lists, m.arena, m.lists, m'.arena, m'.lists);
      ReaderSurvives(m.arena, m.lists, m'.arena, m'.lists, key, m.reader);
    } else {
      ReadStepOk(m.arena, m.lists, key, m.reader);
    }
  }

  lemma {:induction false} SearchIsLinearizable(h: seq<Moment>, key: Key)
    requires Search(h, key)
    ensures var m := h[|h| - 1];
            && Grows(h[0].arena, h[0].lists, m.arena, m.lists)
            && ReaderOk(m.arena, m.lists, key, m.reader)
            && (m.reader.Done? ==> exists i :: 0 <= i < |h| && AnsweredAt(h, key, i))
    decreases |h|
  {
    var n := |h| - 1;
    if n == 0 {
      forall l | 0 <= l < MAX_HEIGHT
        ensures HintOkAt(h[0].arena, h[0].lists[l], key, HEAD, NIL) && HEAD in h[0].lists[l]
      {
        HeadEverywhere(h[0].arena, h[0].lists, l);
      }
    } else {
      var front := h[..n];
      forall i | 0 <= i < |front| - 1
        ensures SearchStep(front[i], front[i + 1], key)
      {
        assert SearchStep(h[i], h[i + 1], key);
      }
      SearchIsLinearizable(front, key);
      assert front[n - 1] == h[n - 1] && SearchStep(h[n - 1], h[n - 1 + 1], key);
      StepKeepsSearch(h[0], h[n - 1], h[n], key);
      if h[n - 1].reader.Done? {
        var i :| 0 <= i < |front| && AnsweredAt(front, key, i);
        assert AnsweredAt(h, key, i);
      } else if h[n].reader.Done? {
        assert AnsweredAt(h, key, n);
      }
    }
  }

  lemma {:induction false} HeadEverywhere(a: Arena, lists: seq<seq<nat>>, l: nat)
    requires Good(a, lists) && l < MAX_HEIGHT
    ensures HEAD in lists[l]
  {
    assert Links(a, l, lists[l]);
    assert lists[l][0] in lists[l];
  }

  /** A concurrent reader never misses a key that was there when it began. */
  lemma {:induction false} ReaderNeverMisses(h: seq<Moment>, key: Key)
    requires Search(h, key) && h[|h| - 1].reader.Done?
    requires key in KeysOf(h[0].arena, h[0].lists)
    ensures var r := h[|h| - 1].reader.result; var a := h[|h| - 1].arena;
            0 <= r < |a.keys| && a.keys[r] == key
  {
    SearchIsLinearizable(h, key);
    var i :| 0 <= i < |h| && AnsweredAt(h, key, i);
    KeysOnlyGrow(h[0].arena, h[0].lists, h[i].arena, h[i].lists);
    FirstAtOrAfter(h[i].arena, h[i].lists, key, h[|h| - 1].reader.result);
    LaterGrows(h, key, i);
  }

  lemma {:induction false} KeysOnlyGrow(a: Arena, lists: seq<seq<nat>>, b: Arena, lists': seq<seq<nat>>)
    requires Grows(a, lists, b, lists')
    ensures KeysOf(a, lists) <= KeysOf(b, lists')
  {
    assert Links(a, 0, lists[0]);
    forall k | k in KeysOf(a, lists)
      ensures k in KeysOf(b, lists')
    {
      var i :| 1 <= i < |lists[0]| && k == a.keys[lists[0][i]];
      assert lists[0][i] in lists[0];
      NodeKey(b, lists', 0, lists[0][i]);
    }
  }

  lemma {:induction false} LaterGrows(h: seq<Moment>, key: Key, i: nat)
    requires Search(h, key) && i < |h| && Good(h[i].arena, h[i].lists)
    ensures Good(h[|h| - 1].arena, h[|h| - 1].lists)
    ensures Grows(h[i].arena, h[i].lists, h[|h| - 1].arena, h[|h| - 1].lists)
    decreases |h|
  {
    var n := |h| - 1;
    if i < n {
      var front := h[..n];
      forall j | 0 <= j < |front| - 1
        ensures SearchStep(front[j], front[j + 1], key)
      {
        assert SearchStep(h[j], h[j + 1], key);
      }
      LaterGrows(front, key, i);
      assert front[n - 1] == h[n - 1] && SearchStep(h[n - 1], h[n - 1 + 1], key);
      GrowsTrans(h[i].arena, h[i].lists, h[n - 1].arena, h[n - 1].lists, h[n].arena, h[n].lists);
    }
  }
}
