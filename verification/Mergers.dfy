/** The merging iterator: several sorted children seen as one sorted sequence,
    with a change of direction allowed at any step. */
module Mergers {
  import opened Entries
  import Lookups

  datatype Position = Off | On(entry: Entry)

  function Nth(s: seq<Entry>, i: int): Position {
    if 0 <= i < |s| then On(s[i]) else Off
  }

  ghost function Union(children: seq<seq<Entry>>): set<Entry> {
    set i, e | 0 <= i < |children| && e in children[i] :: e
  }

  /** Entries of different children never compare equal. */
  ghost predicate Distinct(children: seq<seq<Entry>>) {
    forall i, j :: Apart(children, i, j)
  }

  ghost predicate Apart(children: seq<seq<Entry>>, i: int, j: int) {
    0 <= i < j < |children| ==>
      forall a, b :: a in children[i] && b in children[j] ==> Before(a, b) || Before(b, a)
  }

  /** "merged" is the sorted merge of the children. */
  ghost predicate MergeOf(merged: seq<Entry>, children: seq<seq<Entry>>) {
    Sorted(merged) && Elements(merged) == Union(children)
  }

  /** There is only one such merge. */
  lemma {:induction false} MergeUnique(a: seq<Entry>, b: seq<Entry>)
    requires Sorted(a) && Sorted(b) && Elements(a) == Elements(b)
    ensures a == b
    decreases |a|
  {
    if a == [] {
      assert forall i :: 0 <= i < |b| ==> b[i] in Elements(b);
    } else {
      assert a[0] in Elements(b) && b != [];
      assert b[0] in Elements(a);
      SortedHead(a, b[0]);
      SortedHead(b, a[0]);
      SortedTail(a);
      SortedTail(b);
      MergeUnique(a[1..], b[1..]);
      assert a == [a[0]] + a[1..] && b == [b[0]] + b[1..];
    }
  }

  /** And there always is one. */
  lemma {:induction false} MergeExists(children: seq<seq<Entry>>) returns (merged: seq<Entry>)
    requires forall i :: 0 <= i < |children| ==> Sorted(children[i])
    requires Distinct(children)
    ensures MergeOf(merged, children)
  {
    forall a, b | a in Union(children) && b in Union(children) && a != b
      ensures Before(a, b) || Before(b, a)
    {
      var i :| 0 <= i < |children| && a in children[i];
      var j :| 0 <= j < |children| && b in children[j];
      assert Apart(children, i, j) && Apart(children, j, i);
    }
    merged := SortEntries(Union(children));
  }

  lemma {:induction false} SortEntries(es: set<Entry>) returns (s: seq<Entry>)
    requires forall a, b :: a in es && b in es && a != b ==> Before(a, b) || Before(b, a)
    ensures Sorted(s) && Elements(s) == es
    decreases |es|
  {
    s := [];
    if es != {} {
      var e :| e in es;
      var rest := SortEntries(es - {e});
      assert forall f :: f in rest ==> f in Elements(rest);
      s := InsertEntry(rest, e);
    }
  }

  lemma {:induction false} InsertEntry(s: seq<Entry>, e: Entry) returns (r: seq<Entry>)
    requires Sorted(s) && forall f :: f in s ==> Before(e, f) || Before(f, e)
    ensures Sorted(r) && Elements(r) == Elements(s) + {e}
  {
    var n := 0;
    while n < |s| && Before(s[n], e)
      invariant 0 <= n <= |s|
      invariant forall i :: 0 <= i < n ==> Before(s[i], e)
    {
      n := n + 1;
    }
    r := s[..n] + [e] + s[n..];
    forall k | n <= k < |s|
      ensures Before(e, s[k])
    {
      assert s[n] in s && (n < k ==> Before(s[n], s[k]));
    }
    SplicedSorted(s, n, e);
    assert s == s[..n] + s[n..];
  }

  lemma {:induction false} SplicedSorted(s: seq<Entry>, n: nat, e: Entry)
    requires Sorted(s) && n <= |s|
    requires forall k :: 0 <= k < n ==> Before(s[k], e)
    requires forall k :: n <= k < |s| ==> Before(e, s[k])
    ensures Sorted(s[..n] + [e] + s[n..])
  {
  }

  lemma {:induction false} SortedHead(s: seq<Entry>, e: Entry)
    requires Sorted(s) && e in s
    ensures s[0] == e || Before(s[0], e)
  {
    var i :| 0 <= i < |s| && s[i] == e;
  }

  lemma {:induction false} SortedTail(s: seq<Entry>)
    requires Sorted(s) && s != []
    ensures Sorted(s[1..]) && Elements(s[1..]) == Elements(s) - {s[0]}
  {
  }

  /** A child stands at its first entry after e. */
  ghost predicate Ahead(child: seq<Entry>, at: nat, e: Entry) {
    && at <= |child|
    && (forall x :: 0 <= x < at ==> !Before(e, child[x]))
    && (forall x :: at <= x < |child| ==> Before(e, child[x]))
  }

  /** A child stands at its last entry before e, or is not valid if it has none. */
  ghost predicate Back(child: seq<Entry>, at: nat, e: Entry) {
    && at <= |child|
    && (forall x :: 0 <= x <= at < |child| ==> Before(child[x], e))
    && (forall x :: (at == |child| || at < x) && 0 <= x < |child| ==> !Before(child[x], e))
  }

  /** All children but the current one are just past the entry, or all just before it. */
  ghost predicate OthersAhead(children: seq<seq<Entry>>, at: seq<nat>, current: int, e: Entry)
    requires |at| == |children|
  {
    forall i :: 0 <= i < |children| && i != current ==> Ahead(children[i], at[i], e)
  }

  ghost predicate OthersBack(children: seq<seq<Entry>>, at: seq<nat>, current: int, e: Entry)
    requires |at| == |children|
  {
    forall i :: 0 <= i < |children| && i != current ==> Back(children[i], at[i], e)
  }

  ghost predicate Offered(children: seq<seq<Entry>>, at: seq<nat>, i: int) {
    0 <= i < |children| == |at| && at[i] < |children[i]|
  }

  /** "current" is the valid child with the smallest entry, or -1 if none is valid. */
  ghost predicate Smallest(children: seq<seq<Entry>>, at: seq<nat>, current: int) {
    && (forall i :: current < 0 ==> !Offered(children, at, i))
    && (current >= 0 ==>
          && Offered(children, at, current)
          && forall i :: i != current && Offered(children, at, i) ==>
               Before(children[current][at[current]], children[i][at[i]]))
  }

  ghost predicate Largest(children: seq<seq<Entry>>, at: seq<nat>, current: int) {
    && (forall i :: current < 0 ==> !Offered(children, at, i))
    && (current >= 0 ==>
          && Offered(children, at, current)
          && forall i :: i != current && Offered(children, at, i) ==>
               Before(children[i][at[i]], children[current][at[current]]))
  }

  /** The first n entries of s, and no others, are in the initial segment "low". */
  ghost predicate Cut(s: seq<Entry>, n: nat, low: Entry -> bool) {
    && n <= |s|
    && (forall x :: 0 <= x < n ==> low(s[x]))
    && (forall x :: n <= x < |s| ==> !low(s[x]))
  }

  ghost predicate Closed(low: Entry -> bool) {
    forall a, b :: Before(a, b) && low(b) ==> low(a)
  }

  lemma {:induction false} MergedMembers(merged: seq<Entry>, children: seq<seq<Entry>>, i: nat, x: nat)
    requires MergeOf(merged, children)
    requires i < |children| && x < |children[i]|
    ensures children[i][x] in merged
  {
    assert children[i][x] in children[i];
    assert children[i][x] in Union(children);
  }

  lemma {:induction false} MergedOrigin(merged: seq<Entry>, children: seq<seq<Entry>>, p: nat) returns (i: nat, x: nat)
    requires MergeOf(merged, children) && p < |merged|
    ensures i < |children| && x < |children[i]| && children[i][x] == merged[p]
  {
    assert merged[p] in Elements(merged);
    i :| 0 <= i < |children| && merged[p] in children[i];
    x :| 0 <= x < |children[i]| && children[i][x] == merged[p];
  }

  function Chosen(children: seq<seq<Entry>>, at: seq<nat>, current: int): Position
    requires |at| == |children| && current < |children|
    requires current >= 0 ==> at[current] < |children[current]|
  {
    if current < 0 then Off else On(children[current][at[current]])
  }

  /** With every child just past a segment, the smallest child is at the place
      where the merged sequence leaves the segment. */
  lemma {:induction false} SmallestIsNext(children: seq<seq<Entry>>, merged: seq<Entry>, at: seq<nat>, current: int, low: Entry -> bool, n: nat)
    requires |at| == |children| && MergeOf(merged, children) && Closed(low)
    requires forall i :: 0 <= i < |children| ==> Sorted(children[i]) && Cut(children[i], at[i], low)
    requires Smallest(children, at, current)
    requires Cut(merged, n, low)
    ensures Chosen(children, at, current) == Nth(merged, n)
    ensures current >= 0 ==> forall i :: 0 <= i < |children| && i != current ==>
              Ahead(children[i], at[i], children[current][at[current]])
  {
    if current >= 0 {
      MergedMembers(merged, children, current, at[current]);
      var p :| 0 <= p < |merged| && merged[p] == children[current][at[current]];
      assert n < p ==> Before(merged[n], merged[p]);
    }
    if n < |merged| {
      var i, x := MergedOrigin(merged, children, n);
      assert Offered(children, at, i);
      assert at[i] < x ==> Before(children[i][at[i]], merged[n]);
    }
    if current >= 0 {
      var e := children[current][at[current]];
      forall i | 0 <= i < |children| && i != current
        ensures Ahead(children[i], at[i], e)
      {
        if Offered(children, at, i) {
          assert Before(e, children[i][at[i]]);
          assert forall x :: at[i] < x < |children[i]| ==> Before(children[i][at[i]], children[i][x]);
        }
      }
    }
  }

  /** Where a child stands when moving backwards past its first m entries. */
  function LastOf(child: seq<Entry>, m: nat): nat {
    if m == 0 then |child| else m - 1
  }

  ghost function BackCuts(children: seq<seq<Entry>>, at: seq<nat>): seq<nat>
    requires |at| == |children|
  {
    seq(|at|, i requires 0 <= i < |at| => if at[i] >= |children[i]| then 0 else at[i] + 1)
  }

  lemma {:induction false} LargestIsPrevious(children: seq<seq<Entry>>, merged: seq<Entry>, at: seq<nat>, cuts: seq<nat>, current: int,
                          low: Entry -> bool, n: nat)
    requires |at| == |children| == |cuts| && MergeOf(merged, children) && Closed(low)
    requires forall i :: 0 <= i < |children| ==>
               Sorted(children[i]) && Cut(children[i], cuts[i], low) && at[i] == LastOf(children[i], cuts[i])
    requires Largest(children, at, current)
    requires Cut(merged, n, low)
    ensures Chosen(children, at, current) == Nth(merged, n - 1)
    ensures current >= 0 ==> forall i :: 0 <= i < |children| && i != current ==>
              Back(children[i], at[i], children[current][at[current]])
  {
    if current >= 0 {
      MergedMembers(merged, children, current, at[current]);
      var p :| 0 <= p < |merged| && merged[p] == children[current][at[current]];
      assert p < n - 1 ==> Before(merged[p], merged[n - 1]);
    }
    if n > 0 {
      var i, x := MergedOrigin(merged, children, n - 1);
      assert forall y :: x < y < |children[i]| ==> Before(merged[n - 1], children[i][y]);
      assert Offered(children, at, i);
    }
    if current >= 0 {
      var e := children[current][at[current]];
      forall i | 0 <= i < |children| && i != current
        ensures Back(children[i], at[i], e)
      {
        if Offered(children, at, i) {
          assert Before(children[i][at[i]], e);
          assert forall x :: 0 <= x < at[i] ==> Before(children[i][x], children[i][at[i]]);
        }
      }
    }
  }

  /** Seek splits a sorted sequence at the target. */
  lemma {:induction false} SeekCuts(s: seq<Entry>, k: UserKey, snapshot: nat)
    requires Sorted(s)
    ensures Cut(s, Lookups.SeekRow(s, k, snapshot), e => BeforeKey(e, k, snapshot))
  {
    var n := Lookups.SeekRow(s, k, snapshot);
    assert forall x :: n < x < |s| ==> Before(s[n], s[x]);
  }

  lemma {:induction false} StepForward(child: seq<Entry>, at: nat)
    requires Sorted(child) && at < |child|
    ensures Ahead(child, at + 1, child[at])
  {
  }

  lemma {:induction false} StepBackward(child: seq<Entry>, at: nat)
    requires Sorted(child) && at < |child|
    ensures Back(child, if at == 0 then |child| else at - 1, child[at])
  {
  }

  lemma {:induction false} MovedAhead(children: seq<seq<Entry>>, at: seq<nat>, current: nat, e: Entry, n: nat)
    requires |at| == |children| && current < |children| && OthersAhead(children, at, current, e) && Ahead(children[current], n, e)
    ensures OthersAhead(children, at[current := n], -1, e)
  {
  }

  lemma {:induction false} MovedBack(children: seq<seq<Entry>>, at: seq<nat>, current: nat, e: Entry, n: nat)
    requires |at| == |children| && current < |children| && OthersBack(children, at, current, e) && Back(children[current], n, e)
    ensures OthersBack(children, at[current := n], -1, e)
  {
  }

  lemma {:induction false} AfterInMerged(children: seq<seq<Entry>>, merged: seq<Entry>, at: seq<nat>, current: int, e: Entry, q: nat)
    requires |at| == |children| && MergeOf(merged, children)
    requires (forall i :: 0 <= i < |children| ==> Sorted(children[i])) && OthersAhead(children, at, -1, e)
    requires Smallest(children, at, current)
    requires q < |merged| && merged[q] == e
    ensures Chosen(children, at, current) == Nth(merged, q + 1)
    ensures current >= 0 ==> OthersAhead(children, at, current, children[current][at[current]])
    ensures forall p :: 0 <= p < |merged| && merged[p] == e ==> p == q
  {
    var low := x => !Before(e, x);
    assert forall x :: 0 <= x < q ==> Before(merged[x], e);
    assert Cut(merged, q + 1, low);
    SmallestIsNext(children, merged, at, current, low, q + 1);
  }

  lemma {:induction false} BeforeInMerged(children: seq<seq<Entry>>, merged: seq<Entry>, at: seq<nat>, current: int, e: Entry, q: nat)
    requires |at| == |children| && MergeOf(merged, children)
    requires (forall i :: 0 <= i < |children| ==> Sorted(children[i])) && OthersBack(children, at, -1, e)
    requires Largest(children, at, current)
    requires q < |merged| && merged[q] == e
    ensures Chosen(children, at, current) == Nth(merged, q - 1)
    ensures current >= 0 ==> OthersBack(children, at, current, children[current][at[current]])
    ensures forall p :: 0 <= p < |merged| && merged[p] == e ==> p == q
  {
    var low := x => Before(x, e);
    assert forall x :: q < x < |merged| ==> Before(e, merged[x]);
    assert Cut(merged, q, low);
    LargestIsPrevious(children, merged, at, BackCuts(children, at), current, low, q);
  }

  /** The place behind a key, whether the child holds it or not. */
  method SeekPast(child: seq<Entry>, key: Entry) returns (n: nat)
    requires Sorted(child)
    ensures Ahead(child, n, key)
  {
    n := Lookups.SeekRow(child, key.key, key.seqno);
    SeekCuts(child, key.key, key.seqno);
    assert forall x :: n < x < |child| ==> Before(child[n], child[x]);
    if n < |child| && key.key == child[n].key && key.seqno == child[n].seqno {
      n := n + 1;
    }
  }

  class MergingIterator {
    const children: seq<seq<Entry>>
    ghost const merged: seq<Entry>

    /** Position of each child; equal to its length when the child is not valid. */
    var at: seq<nat>
    /** Index of the current child, or -1. */
    var current: int
    var forward: bool

    constructor (children: seq<seq<Entry>>, ghost merged: seq<Entry>)
      requires forall i :: 0 <= i < |children| ==> Sorted(children[i])
      requires Distinct(children) && MergeOf(merged, children)
      ensures this.children == children && this.merged == merged
      ensures Valid() && Current() == Off
    {
      this.children := children;
      this.merged := merged;
      at := seq(|children|, i requires 0 <= i < |children| => |children[i]|);
      current := -1;
      forward := true;
    }

    ghost predicate Shaped()
      reads this
    {
      && (forall i :: 0 <= i < |children| ==> Sorted(children[i]))
      && Distinct(children)
      && MergeOf(merged, children)
      && |at| == |children|
      && (forall i :: 0 <= i < |children| ==> at[i] <= |children[i]|)
      && -1 <= current < |children|
      && (current >= 0 ==> at[current] < |children[current]|)
    }

    function Current(): Position
      requires Shaped()
      reads this
    {
      Chosen(children, at, current)
    }

    ghost predicate Valid()
      reads this
    {
      && Shaped()
      && (current >= 0 ==>
            var e := children[current][at[current]];
            if forward then OthersAhead(children, at, current, e) else OthersBack(children, at, current, e))
    }

    /** Makes the child with the smallest key current. */
    method FindSmallest()
      requires Shaped()
      modifies this`current
      ensures Shaped()
      ensures Smallest(children, at, current)
    {
      var smallest := -1;
      var i := 0;
      while i < |children|
        invariant 0 <= i <= |children|
        invariant -1 <= smallest < i
        invariant smallest >= 0 ==> Offered(children, at, smallest)
        invariant forall j :: 0 <= j < i && j != smallest && Offered(children, at, j) ==>
                    smallest >= 0 && Before(children[smallest][at[smallest]], children[j][at[j]])
      {
        if at[i] < |children[i]| {
          if smallest >= 0 {
            assert Apart(children, smallest, i);
            assert children[i][at[i]] in children[i] && children[smallest][at[smallest]] in children[smallest];
          }
          if smallest < 0 {
            smallest := i;
          } else if Before(children[i][at[i]], children[smallest][at[smallest]]) {
            smallest := i;
          }
        }
        i := i + 1;
      }
      current := smallest;
    }

    method FindLargest()
      requires Shaped()
      modifies this`current
      ensures Shaped()
      ensures Largest(children, at, current)
    {
      var largest := -1;
      var i := |children| - 1;
      while i >= 0
        invariant -1 <= i < |children|
        invariant largest == -1 || i < largest < |children|
        invariant largest >= 0 ==> Offered(children, at, largest)
        invariant forall j :: i < j && j != largest && Offered(children, at, j) ==>
                    largest >= 0 && Before(children[j][at[j]], children[largest][at[largest]])
        decreases i + 1
      {
        if at[i] < |children[i]| {
          if largest >= 0 {
            assert Apart(children, i, largest);
            assert children[i][at[i]] in children[i] && children[largest][at[largest]] in children[largest];
          }
          if largest < 0 {
            largest := i;
          } else if Before(children[largest][at[largest]], children[i][at[i]]) {
            largest := i;
          }
        }
        i := i - 1;
      }
      current := largest;
    }

    /** Puts every other child just after the current key. */
    method AlignForward()
      requires Shaped() && current >= 0
      modifies this`at
      ensures Shaped() && at[current] == old(at[current])
      ensures OthersAhead(children, at, current, children[current][at[current]])
    {
      var key := children[current][at[current]];
      var i := 0;
      while i < |children|
        invariant 0 <= i <= |children|
        invariant Shaped() && at[current] == old(at[current])
        invariant forall j :: 0 <= j < i && j != current ==> Ahead(children[j], at[j], key)
      {
        if i != current {
          var n := SeekPast(children[i], key);
          at := at[i := n];
        }
        i := i + 1;
      }
    }

    /** Puts every other child just before the current key. */
    method AlignBackward()
      requires Shaped() && current >= 0
      modifies this`at
      ensures Shaped() && at[current] == old(at[current])
      ensures OthersBack(children, at, current, children[current][at[current]])
    {
      var key := children[current][at[current]];
      var i := 0;
      while i < |children|
        invariant 0 <= i <= |children|
        invariant Shaped() && at[current] == old(at[current])
        invariant forall j :: 0 <= j < i && j != current ==> Back(children[j], at[j], key)
      {
        if i != current {
          var n := Lookups.SeekRow(children[i], key.key, key.seqno);
          SeekCuts(children[i], key.key, key.seqno);
          if n < |children[i]| {
            at := at[i := if n == 0 then |children[i]| else n - 1];
          } else {
            at := at[i := if |children[i]| == 0 then 0 else |children[i]| - 1];
          }
        }
        i := i + 1;
      }
    }

    method Next()
      requires Valid() && current >= 0
      modifies this
      ensures Valid()
      ensures forall p :: 0 <= p < |merged| && On(merged[p]) == old(Current()) ==> Current() == Nth(merged, p + 1)
    {
      if !forward {
        AlignForward();
        forward := true;
      }
      Step();
    }

    /** The current child goes on, and the smallest entry of all is next. */
    method Step()
      requires Valid() && current >= 0 && forward
      modifies this
      ensures Valid()
      ensures forall p :: 0 <= p < |merged| && On(merged[p]) == old(Current()) ==> Current() == Nth(merged, p + 1)
    {
      ghost var e := children[current][at[current]];
      MergedMembers(merged, children, current, at[current]);
      StepForward(children[current], at[current]);
      MovedAhead(children, at, current, e, at[current] + 1);
      at := at[current := at[current] + 1];
      current := -1;
      FindSmallest();
      ghost var q :| 0 <= q < |merged| && merged[q] == e;
      AfterInMerged(children, merged, at, current, e, q);
    }

    method Prev()
      requires Valid() && current >= 0
      modifies this
      ensures Valid()
      ensures forall p :: 0 <= p < |merged| && On(merged[p]) == old(Current()) ==> Current() == Nth(merged, p - 1)
    {
      if forward {
        AlignBackward();
        forward := false;
      }
      StepBack();
    }

    /** The current child goes back, and the largest entry of all is next. */
    method StepBack()
      requires Valid() && current >= 0 && !forward
      modifies this
      ensures Valid()
      ensures forall p :: 0 <= p < |merged| && On(merged[p]) == old(Current()) ==> Current() == Nth(merged, p - 1)
    {
      ghost var e := children[current][at[current]];
      MergedMembers(merged, children, current, at[current]);
      StepBackward(children[current], at[current]);
      var n := if at[current] == 0 then |children[current]| else at[current] - 1;
      MovedBack(children, at, current, e, n);
      at := at[current := n];
      current := -1;
      FindLargest();
      ghost var q :| 0 <= q < |merged| && merged[q] == e;
      BeforeInMerged(children, merged, at, current, e, q);
    }

    method Seek(k: UserKey, snapshot: nat)
      requires Valid()
      modifies this
      ensures Valid()
      ensures Current() == Nth(merged, Lookups.SeekRow(merged, k, snapshot))
    {
      ghost var low := e => BeforeKey(e, k, snapshot);
      current := -1;
      var i := 0;
      while i < |children|
        invariant 0 <= i <= |children|
        invariant Shaped() && current == -1
        invariant forall j :: 0 <= j < i ==> Cut(children[j], at[j], low)
      {
        SeekCuts(children[i], k, snapshot);
        at := at[i := Lookups.SeekRow(children[i], k, snapshot)];
        i := i + 1;
      }
      FindSmallest();
      forward := true;
      SeekCuts(merged, k, snapshot);
      SmallestIsNext(children, merged, at, current, low, Lookups.SeekRow(merged, k, snapshot));
    }

    method SeekToFirst()
      requires Valid()
      modifies this
      ensures Valid()
      ensures Current() == Nth(merged, 0)
    {
      current := -1;
      var i := 0;
      while i < |children|
        invariant 0 <= i <= |children|
        invariant Shaped() && current == -1
        invariant forall j :: 0 <= j < i ==> at[j] == 0
      {
        at := at[i := 0];
        i := i + 1;
      }
      FindSmallest();
      forward := true;
      SmallestIsNext(children, merged, at, current, e => false, 0);
    }

    method SeekToLast()
      requires Valid()
      modifies this
      ensures Valid()
      ensures Current() == Nth(merged, |merged| - 1)
    {
      current := -1;
      var i := 0;
      while i < |children|
        invariant 0 <= i <= |children|
        invariant Shaped() && current == -1
        invariant forall j :: 0 <= j < i ==> at[j] == if |children[j]| == 0 then 0 else |children[j]| - 1
      {
        at := at[i := if |children[i]| == 0 then 0 else |children[i]| - 1];
        i := i + 1;
      }
      FindLargest();
      forward := false;
      LargestIsPrevious(children, merged, at, BackCuts(children, at), current, e => true, |merged|);
    }
  }

  // ----- runs

  datatype Op = Next | Prev | Seek(key: UserKey, snapshot: nat) | SeekToFirst | SeekToLast

  /** One operation of a cursor over a sequence. */
  ghost predicate Moves(merged: seq<Entry>, op: Op, c: Position, c': Position) {
    match op
    case Next => if c.Off? then c'.Off? else exists p :: 0 <= p < |merged| && c == On(merged[p]) && c' == Nth(merged, p + 1)
    case Prev => if c.Off? then c'.Off? else exists p :: 0 <= p < |merged| && c == On(merged[p]) && c' == Nth(merged, p - 1)
    case Seek(k, snapshot) => c' == Nth(merged, Lookups.SeekRow(merged, k, snapshot))
    case SeekToFirst => c' == Nth(merged, 0)
    case SeekToLast => c' == Nth(merged, |merged| - 1)
  }

  /** Any run of operations, with any changes of direction, is a run of a cursor over the
      sorted merge of the children. */
  method Replay(it: MergingIterator, ops: seq<Op>) returns (trace: seq<Position>)
    requires it.Valid()
    modifies it
    ensures it.Valid()
    ensures |trace| == |ops| + 1 && trace[0] == old(it.Current()) && trace[|ops|] == it.Current()
    ensures forall i :: 0 <= i < |ops| ==> Moves(it.merged, ops[i], trace[i], trace[i + 1])
  {
    trace := [it.Current()];
    for n := 0 to |ops|
      invariant it.Valid()
      invariant |trace| == n + 1 && trace[0] == old(it.Current()) && trace[n] == it.Current()
      invariant forall i :: 0 <= i < n ==> Moves(it.merged, ops[i], trace[i], trace[i + 1])
    {
      Operate(it, ops[n]);
      trace := trace + [it.Current()];
    }
  }

  method Operate(it: MergingIterator, op: Op)
    requires it.Valid()
    modifies it
    ensures it.Valid() && Moves(it.merged, op, old(it.Current()), it.Current())
  {
    if it.current >= 0 {
      MergedMembers(it.merged, it.children, it.current, it.at[it.current]);
    }
    match op {
      case Next => if it.current >= 0 { it.Next(); }
      case Prev => if it.current >= 0 { it.Prev(); }
      case Seek(k, snapshot) => it.Seek(k, snapshot);
      case SeekToFirst => it.SeekToFirst();
      case SeekToLast => it.SeekToLast();
    }
  }
}
