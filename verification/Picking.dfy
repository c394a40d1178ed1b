/** VersionSet::GetCompactionBoundaries and PickCompaction (db/version_set.cc). */
module Picking {
  import opened Coding
  import opened Levels
  import opened OverlapInputs
  import opened Store

  /** A level above 0 as std::sort leaves it: in key order, neighbours sharing at most an
      end key. */
  ghost predicate InOrder(files: seq<Table>) {
    && (forall i :: 0 <= i < |files| ==> files[i].Lo() <= files[i].Hi())
    && (forall i, j :: 0 <= i < j < |files| ==> files[i].Hi() <= files[j].Lo())
  }

  // ----- the two-pointer sweep

  /** [start, limit) is exactly the files of the lower level that overlap file a. */
  ghost predicate Covers(lower: seq<Table>, a: Table, start: nat, limit: nat) {
    && start <= limit <= |lower|
    && forall k :: 0 <= k < |lower| ==> (start <= k < limit <==> Overlaps(lower[k], a.Lo(), a.Hi()))
  }

  /** What the sweep carries from one file to the next. */
  ghost predicate Swept(lower: seq<Table>, start: nat, limit: nat, lo: int, hi: int) {
    && start <= |lower|
    && limit <= |lower|
    && (forall k :: 0 <= k < start ==> lower[k].Hi() < lo)
    && (forall k :: 0 <= k < limit ==> lower[k].Lo() <= hi)
  }

  /** The smallest start whose file is not wholly before the file of the upper level. */
  method AdvanceStart(lower: seq<Table>, from: nat, a: Table) returns (start: nat)
    requires from <= |lower| && forall k :: 0 <= k < from ==> lower[k].Hi() < a.Lo()
    ensures from <= start <= |lower|
    ensures forall k :: 0 <= k < start ==> lower[k].Hi() < a.Lo()
    ensures start < |lower| ==> lower[start].Hi() >= a.Lo()
  {
    start := from;
    while start < |lower| && lower[start].Hi() < a.Lo()
      invariant from <= start <= |lower|
      invariant forall k :: 0 <= k < start ==> lower[k].Hi() < a.Lo()
    {
      start := start + 1;
    }
  }

  method AdvanceLimit(lower: seq<Table>, from: nat, a: Table) returns (limit: nat)
    requires from <= |lower| && forall k :: 0 <= k < from ==> lower[k].Lo() <= a.Hi()
    ensures from <= limit <= |lower|
    ensures forall k :: 0 <= k < limit ==> lower[k].Lo() <= a.Hi()
    ensures limit < |lower| ==> lower[limit].Lo() > a.Hi()
  {
    limit := from;
    while limit < |lower| && lower[limit].Lo() <= a.Hi()
      invariant from <= limit <= |lower|
      invariant forall k :: 0 <= k < limit ==> lower[k].Lo() <= a.Hi()
    {
      limit := limit + 1;
    }
  }

  lemma {:induction false} SweepCovers(lower: seq<Table>, a: Table, start: nat, limit: nat)
    requires InOrder(lower) && a.Lo() <= a.Hi() && start <= limit <= |lower|
    requires forall k :: 0 <= k < start ==> lower[k].Hi() < a.Lo()
    requires start < |lower| ==> lower[start].Hi() >= a.Lo()
    requires forall k :: start <= k < limit ==> lower[k].Lo() <= a.Hi()
    requires limit < |lower| ==> lower[limit].Lo() > a.Hi()
    ensures Covers(lower, a, start, limit)
  {
  }

  method GetCompactionBoundaries(upper: seq<Table>, lower: seq<Table>) returns (bounds: seq<(nat, nat)>)
    requires InOrder(upper) && InOrder(lower)
    ensures |bounds| == |upper|
    ensures forall i :: 0 <= i < |upper| ==> Covers(lower, upper[i], bounds[i].0, bounds[i].1)
  {
    bounds := [];
    var start, limit := 0, 0;
    for i := 0 to |upper|
      invariant |bounds| == i
      invariant forall m :: 0 <= m < i ==> Covers(lower, upper[m], bounds[m].0, bounds[m].1)
      invariant start <= |lower| && limit <= |lower|
      invariant i > 0 ==> Swept(lower, start, limit, upper[i - 1].Lo(), upper[i - 1].Hi())
      invariant i == 0 ==> start == 0 && limit == 0
    {
      var a := upper[i];
      if i > 0 {
        assert upper[i - 1].Hi() <= upper[i].Lo();
      }
      var s := AdvanceStart(lower, start, a);
      forall k | 0 <= k < s
        ensures lower[k].Lo() <= a.Hi()
      {
        assert lower[k].Hi() < a.Lo();
      }
      var l := AdvanceLimit(lower, if s > limit then s else limit, a);
      SweepCovers(lower, a, s, l);
      start, limit := s, l;
      bounds := bounds + [(s, l)];
    }
  }

  // ----- consequences for slices

  /** The bounds of a slice of the upper level are what a scan of the lower level for the
      slice's whole range finds. */
  lemma {:induction false} SliceCovers(upper: seq<Table>, lower: seq<Table>, bounds: seq<(nat, nat)>, i: nat, j: nat)
    requires InOrder(upper) && InOrder(lower) && i <= j < |upper| == |bounds|
    requires forall m :: 0 <= m < |upper| ==> Covers(lower, upper[m], bounds[m].0, bounds[m].1)
    requires bounds[i].0 < bounds[i].1 && bounds[j].0 < bounds[j].1
    ensures bounds[i].0 <= bounds[j].0 && bounds[i].1 <= bounds[j].1
    ensures forall k :: 0 <= k < |lower| ==>
        (bounds[i].0 <= k < bounds[j].1 <==> Overlaps(lower[k], upper[i].Lo(), upper[j].Hi()))
  {
    var s, l := bounds[i].0, bounds[j].1;
    assert Covers(lower, upper[i], s, bounds[i].1) && Covers(lower, upper[j], bounds[j].0, l);
    assert i < j ==> upper[i].Hi() <= upper[j].Lo();
    assert Overlaps(lower[s], upper[i].Lo(), upper[i].Hi());
    assert Overlaps(lower[l - 1], upper[j].Lo(), upper[j].Hi());
    assert Overlaps(lower[bounds[i].1 - 1], upper[i].Lo(), upper[i].Hi());
    assert Overlaps(lower[bounds[j].0], upper[j].Lo(), upper[j].Hi());
    OrderedBounds(upper, lower, i, j, s, bounds[j].0);
    OrderedLimits(upper, lower, i, j, bounds[i].1 - 1, l - 1);
    forall k | 0 <= k < |lower|
      ensures s <= k < l <==> Overlaps(lower[k], upper[i].Lo(), upper[j].Hi())
    {
      if s < k { assert lower[s].Hi() <= lower[k].Lo(); }
      if k < s {
        assert !Overlaps(lower[k], upper[i].Lo(), upper[i].Hi()) && lower[k].Hi() <= lower[s].Lo();
      }
      if k < l - 1 { assert lower[k].Hi() <= lower[l - 1].Lo(); }
      if k >= l {
        assert !Overlaps(lower[k], upper[j].Lo(), upper[j].Hi()) && lower[l - 1].Hi() <= lower[k].Lo();
      }
    }
  }

  /** The first overlapped file does not move back. */
  lemma {:induction false} OrderedBounds(upper: seq<Table>, lower: seq<Table>, i: nat, j: nat, s: nat, t: nat)
    requires InOrder(upper) && InOrder(lower) && i <= j < |upper| && s < |lower| && t < |lower|
    requires Overlaps(lower[t], upper[j].Lo(), upper[j].Hi())
    requires forall k :: 0 <= k < s ==> !Overlaps(lower[k], upper[i].Lo(), upper[i].Hi())
    requires Overlaps(lower[s], upper[i].Lo(), upper[i].Hi())
    ensures s <= t
  {
  }

  lemma {:induction false} OrderedLimits(upper: seq<Table>, lower: seq<Table>, i: nat, j: nat, s: nat, t: nat)
    requires InOrder(upper) && InOrder(lower) && i <= j < |upper| && s < |lower| && t < |lower|
    requires Overlaps(lower[s], upper[i].Lo(), upper[i].Hi())
    requires forall k :: t < k < |lower| ==> !Overlaps(lower[k], upper[j].Lo(), upper[j].Hi())
    requires Overlaps(lower[t], upper[j].Lo(), upper[j].Hi())
    ensures s <= t
  {
  }

  // ----- sizes

  /** Bytes in the first n files: the prefix sums LA_sizes and LB_sizes. */
  function Sum(files: seq<Table>, size: Table -> nat, n: nat): nat
    requires n <= |files|
  {
    if n == 0 then 0 else Sum(files, size, n - 1) + size(files[n - 1])
  }

  lemma {:induction false} SumGrows(files: seq<Table>, size: Table -> nat, m: nat, n: nat)
    requires m <= n <= |files|
    ensures Sum(files, size, m) <= Sum(files, size, n)
    ensures m < n && (forall t :: t in files ==> size(t) > 0) ==> Sum(files, size, m) < Sum(files, size, n)
    decreases n - m
  {
    if m < n {
      SumGrows(files, size, m, n - 1);
      assert files[n - 1] in files;
    }
  }

  /** Sizes add up. */
  lemma {:induction false} SumSplits(a: seq<Table>, b: seq<Table>, size: Table -> nat)
    ensures Sum(a + b, size, |a| + |b|) == Sum(a, size, |a|) + Sum(b, size, |b|)
    ensures |a| == 1 ==> Sum(a, size, 1) == size(a[0])
    decreases |a| + |b|
  {
    if |b| > 0 {
      SumSplits(a, b[..|b| - 1], size);
      SumPrefix(b, b[..|b| - 1], size, |b| - 1);
      SumPrefix(a + b, a + b[..|b| - 1], size, |a| + |b| - 1);
    } else {
      assert a + b == a;
    }
  }

  lemma {:induction false} SumPrefix(files: seq<Table>, front: seq<Table>, size: Table -> nat, n: nat)
    requires n <= |files| && n <= |front| && files[..n] == front[..n]
    ensures Sum(files, size, n) == Sum(front, size, n)
    decreases n
  {
    if n > 0 {
      assert files[..n][..n - 1] == files[..n - 1] && front[..n][..n - 1] == front[..n - 1];
      assert files[..n][n - 1] == front[..n][n - 1];
      SumPrefix(files, front, size, n - 1);
    }
  }

  /** A level, the next one, and the sweep between them. */
  datatype Sweep = Sweep(upper: seq<Table>, lower: seq<Table>, bounds: seq<(nat, nat)>, size: Table -> nat)

  ghost predicate SweepOk(w: Sweep) {
    && InOrder(w.upper)
    && InOrder(w.lower)
    && |w.bounds| == |w.upper|
    && (forall t :: t in w.upper || t in w.lower ==> w.size(t) > 0)
    && forall i :: 0 <= i < |w.upper| ==> Covers(w.lower, w.upper[i], w.bounds[i].0, w.bounds[i].1)
  }

  predicate Empty(w: Sweep, i: nat)
    requires i < |w.bounds|
  {
    w.bounds[i].0 == w.bounds[i].1
  }

  function SizeUpper(w: Sweep, i: nat, j: nat): int
    requires i <= j < |w.upper|
  {
    Sum(w.upper, w.size, j + 1) - Sum(w.upper, w.size, i)
  }

  function SizeLower(w: Sweep, i: nat, j: nat): int
    requires i <= j < |w.bounds| && w.bounds[i].0 <= |w.lower| && w.bounds[j].1 <= |w.lower|
  {
    Sum(w.lower, w.size, w.bounds[j].1) - Sum(w.lower, w.size, w.bounds[i].0)
  }

  /** The overlapped bytes of a slice whose ends overlap something are positive. */
  lemma {:induction false} SizeLowerPositive(w: Sweep, i: nat, j: nat)
    requires SweepOk(w) && i <= j < |w.upper| && !Empty(w, i) && !Empty(w, j)
    ensures w.bounds[i].0 <= |w.lower| && w.bounds[j].1 <= |w.lower| && SizeLower(w, i, j) > 0
  {
    assert Covers(w.lower, w.upper[i], w.bounds[i].0, w.bounds[i].1);
    assert Covers(w.lower, w.upper[j], w.bounds[j].0, w.bounds[j].1);
    SliceCovers(w.upper, w.lower, w.bounds, i, j);
    SumGrows(w.lower, w.size, w.bounds[i].0, w.bounds[j].1);
  }

  ghost predicate AllOverlap(w: Sweep) {
    forall i: nat :: i < |w.bounds| ==> !Empty(w, i)
  }

  /** Upper and lower bytes of a slice. */
  ghost function Total(w: Sweep, i: nat, j: nat): int
    requires SweepOk(w) && AllOverlap(w) && i <= j < |w.upper|
  {
    SizeLowerPositive(w, i, j);
    SizeUpper(w, i, j) + SizeLower(w, i, j)
  }

  ghost function Ratio(w: Sweep, i: nat, j: nat): real
    requires SweepOk(w) && AllOverlap(w) && i <= j < |w.upper|
  {
    SizeLowerPositive(w, i, j);
    SizeUpper(w, i, j) as real / SizeLower(w, i, j) as real
  }

  lemma {:induction false} TotalGrows(w: Sweep, i: nat, j: nat, k: nat)
    requires SweepOk(w) && AllOverlap(w) && i <= j <= k < |w.upper|
    ensures Total(w, i, j) <= Total(w, i, k)
  {
    assert !Empty(w, j) && !Empty(w, k);
    assert Covers(w.lower, w.upper[j], w.bounds[j].0, w.bounds[j].1);
    assert Covers(w.lower, w.upper[k], w.bounds[k].0, w.bounds[k].1);
    SliceCovers(w.upper, w.lower, w.bounds, j, k);
    SumGrows(w.upper, w.size, j + 1, k + 1);
    SumGrows(w.lower, w.size, w.bounds[j].1, w.bounds[k].1);
  }

  /** The slices considered before (i, j). */
  predicate Earlier(a: nat, b: nat, i: nat, j: nat) {
    a < i || (a == i && b < j)
  }

  ghost predicate Standing(w: Sweep, limit: nat, i: nat, j: nat, best: Option<(nat, nat)>)
    requires SweepOk(w) && AllOverlap(w)
  {
    best.Some? ==>
      && best.value.0 <= best.value.1 < |w.upper| && Total(w, best.value.0, best.value.1) < limit
      && Earlier(best.value.0, best.value.1, i, j)
  }

  /** A slice under the limit with the best ratio so far, the smaller one on a tie, and
      the first one if there is still a tie. */
  ghost predicate BestSoFar(w: Sweep, limit: nat, i: nat, j: nat, best: Option<(nat, nat)>)
    requires SweepOk(w) && AllOverlap(w)
  {
    && Standing(w, limit, i, j, best)
    && forall a: nat, b: nat :: Beaten(w, limit, i, j, best, a, b)
  }

  ghost predicate Beaten(w: Sweep, limit: nat, i: nat, j: nat, best: Option<(nat, nat)>, a: nat, b: nat)
    requires SweepOk(w) && AllOverlap(w) && (best.Some? ==> best.value.0 <= best.value.1 < |w.upper|)
  {
    a <= b < |w.upper| && Earlier(a, b, i, j) && Total(w, a, b) < limit ==> best.Some? && AtLeast(w, best.value, a, b)
  }

  ghost predicate AtLeast(w: Sweep, best: (nat, nat), a: nat, b: nat)
    requires SweepOk(w) && AllOverlap(w) && best.0 <= best.1 < |w.upper| && a <= b < |w.upper|
  {
    Ratio(w, best.0, best.1) > Ratio(w, a, b) ||
    (Ratio(w, best.0, best.1) == Ratio(w, a, b) &&
     (Total(w, best.0, best.1) < Total(w, a, b) ||
      (Total(w, best.0, best.1) == Total(w, a, b) && !Earlier(a, b, best.0, best.1))))
  }

  // ----- the best slice

  method PrefixSums(files: seq<Table>, size: Table -> nat) returns (sums: seq<nat>)
    ensures |sums| == |files| + 1
    ensures forall k: nat :: k <= |files| ==> sums[k] == Sum(files, size, k)
  {
    sums := [0];
    for i := 0 to |files|
      invariant |sums| == i + 1
      invariant forall k: nat :: k <= i ==> sums[k] == Sum(files, size, k)
    {
      sums := sums + [sums[i] + size(files[i])];
    }
  }

  /** A slice too large ends the row: longer slices are larger still. */
  lemma {:induction false} RowEnds(w: Sweep, limit: nat, i: nat, j: nat, best: Option<(nat, nat)>)
    requires SweepOk(w) && AllOverlap(w) && i <= j < |w.upper| && Total(w, i, j) >= limit
    requires BestSoFar(w, limit, i, j, best)
    ensures BestSoFar(w, limit, i + 1, i + 1, best)
  {
    var n := i + 1;
    forall a: nat, b: nat
      ensures Beaten(w, limit, n, n, best, a, b)
    {
      assert Beaten(w, limit, i, j, best, a, b);
      if a == i && j <= b < |w.upper| {
        TotalGrows(w, i, j, b);
      }
    }
  }

  /** A row that runs to the last file. */
  lemma {:induction false} RowDone(w: Sweep, limit: nat, i: nat, best: Option<(nat, nat)>)
    requires SweepOk(w) && AllOverlap(w) && i < |w.upper| && BestSoFar(w, limit, i, |w.upper|, best)
    ensures BestSoFar(w, limit, i + 1, i + 1, best)
  {
    var n := i + 1;
    forall a: nat, b: nat
      ensures Beaten(w, limit, n, n, best, a, b)
    {
      assert Beaten(w, limit, i, |w.upper|, best, a, b);
    }
  }

  lemma {:induction false} NextBeats(w: Sweep, limit: nat, i: nat, j: nat, best: Option<(nat, nat)>, next: Option<(nat, nat)>,
                                     a: nat, b: nat)
    requires SweepOk(w) && AllOverlap(w) && i <= j < |w.upper| && Standing(w, limit, i, j, best)
    requires Beaten(w, limit, i, j, best, a, b)
    requires next == (if best.None? || !AtLeast(w, best.value, i, j) then Some((i, j)) else best)
    ensures Beaten(w, limit, i, j + 1, next, a, b)
  {
    if a <= b < |w.upper| && Earlier(a, b, i, j) && Total(w, a, b) < limit && next != best {
      Overtakes(w, best.value, i, j, a, b);
    }
  }

  lemma {:induction false} RowNext(w: Sweep, limit: nat, i: nat, j: nat, best: Option<(nat, nat)>, next: Option<(nat, nat)>)
    requires SweepOk(w) && AllOverlap(w) && i <= j < |w.upper| && Total(w, i, j) < limit
    requires BestSoFar(w, limit, i, j, best)
    requires next == (if best.None? || !AtLeast(w, best.value, i, j) then Some((i, j)) else best)
    ensures BestSoFar(w, limit, i, j + 1, next)
  {
    var m := j + 1;
    forall a: nat, b: nat
      ensures Beaten(w, limit, i, m, next, a, b)
    {
      assert Beaten(w, limit, i, j, best, a, b);
      NextBeats(w, limit, i, j, best, next, a, b);
    }
  }

  /** A later slice that is not as good or worse is better than all that were worse. */
  lemma {:induction false} Overtakes(w: Sweep, best: (nat, nat), i: nat, j: nat, a: nat, b: nat)
    requires SweepOk(w) && AllOverlap(w) && best.0 <= best.1 < |w.upper| && i <= j < |w.upper| && a <= b < |w.upper|
    requires Earlier(best.0, best.1, i, j) && AtLeast(w, best, a, b) && !AtLeast(w, best, i, j)
    ensures AtLeast(w, (i, j), a, b)
  {
  }

  /** best_idx, best_ratio and best_size. */
  datatype Best = Best(slice: Option<(nat, nat)>, ratio: real, size: int)

  /** The test on ratio and size, and the update. */
  function Improve(b: Best, i: nat, j: nat, sizeUpper: int, sizeLower: int): Best
    requires sizeLower > 0
  {
    var ratio := sizeUpper as real / sizeLower as real;
    if ratio > b.ratio || (ratio == b.ratio && sizeUpper + sizeLower < b.size) then
      Best(Some((i, j)), ratio, sizeUpper + sizeLower)
    else b
  }

  ghost predicate Tracks(w: Sweep, limit: nat, i: nat, j: nat, b: Best)
    requires SweepOk(w)
  {
    && (b.slice.Some? ==> b.slice.value.0 <= b.slice.value.1 < |w.upper|)
    && (AllOverlap(w) ==> BestSoFar(w, limit, i, j, b.slice))
    && (AllOverlap(w) ==>
          if b.slice.None? then b.ratio < 0.0
          else b.ratio == Ratio(w, b.slice.value.0, b.slice.value.1) && b.size == Total(w, b.slice.value.0, b.slice.value.1))
  }

  lemma {:induction false} ImproveTracks(w: Sweep, limit: nat, i: nat, j: nat, b: Best, sizeUpper: int, sizeLower: int)
    requires SweepOk(w) && i <= j < |w.upper| && Tracks(w, limit, i, j, b)
    requires w.bounds[i].0 <= |w.lower| && w.bounds[j].1 <= |w.lower|
    requires sizeUpper == SizeUpper(w, i, j) >= 0 && sizeLower == SizeLower(w, i, j) > 0
    requires sizeUpper + sizeLower < limit
    ensures Tracks(w, limit, i, j + 1, Improve(b, i, j, sizeUpper, sizeLower))
  {
    if AllOverlap(w) {
      assert Ratio(w, i, j) >= 0.0;
      RowNext(w, limit, i, j, b.slice, Improve(b, i, j, sizeUpper, sizeLower).slice);
    }
  }

  lemma {:induction false} TrivialTracks(w: Sweep, limit: nat, i: nat, j: nat, b: Best)
    requires SweepOk(w) && i <= j < |w.upper| && Empty(w, j) && Tracks(w, limit, i, j, b)
    ensures !AllOverlap(w) && Tracks(w, limit, i + 1, i + 1, b)
  {
  }

  lemma {:induction false} OverLimitTracks(w: Sweep, limit: nat, i: nat, j: nat, b: Best)
    requires SweepOk(w) && i <= j < |w.upper| && Tracks(w, limit, i, j, b)
    requires w.bounds[i].0 <= |w.lower| && w.bounds[j].1 <= |w.lower| && SizeUpper(w, i, j) + SizeLower(w, i, j) >= limit
    ensures Tracks(w, limit, i + 1, i + 1, b)
  {
    if AllOverlap(w) {
      RowEnds(w, limit, i, j, b.slice);
    }
  }

  lemma {:induction false} RowTracks(w: Sweep, limit: nat, i: nat, b: Best)
    requires SweepOk(w) && i < |w.upper| && Tracks(w, limit, i, |w.upper|, b)
    ensures Tracks(w, limit, i + 1, i + 1, b)
  {
    if AllOverlap(w) {
      RowDone(w, limit, i, b.slice);
    }
  }

  /** One slice's sizes, as the sums that were set up give them. */
  lemma {:induction false} SliceSizes(w: Sweep, i: nat, j: nat, upperSizes: seq<nat>, lowerSizes: seq<nat>)
    requires SweepOk(w) && i <= j < |w.upper| && !Empty(w, i) && !Empty(w, j)
    requires SumsOf(upperSizes, w.upper, w.size) && SumsOf(lowerSizes, w.lower, w.size)
    ensures w.bounds[i].0 <= |w.lower| && w.bounds[j].1 <= |w.lower|
    ensures upperSizes[j + 1] as int - upperSizes[i] as int == SizeUpper(w, i, j) >= 0
    ensures lowerSizes[w.bounds[j].1] as int - lowerSizes[w.bounds[i].0] as int == SizeLower(w, i, j) > 0
  {
    SizeLowerPositive(w, i, j);
    SumGrows(w.upper, w.size, i, j + 1);
  }

  ghost predicate SumsOf(sums: seq<nat>, files: seq<Table>, size: Table -> nat) {
    |sums| == |files| + 1 && forall k: nat :: k <= |files| ==> sums[k] == Sum(files, size, k)
  }

  /** One slice: a file that overlaps nothing below or a slice too large ends the row. */
  method TrySlice(w: Sweep, limit: nat, i: nat, j: nat, upperSizes: seq<nat>, lowerSizes: seq<nat>, from: Best)
    returns (trivial: bool, stop: bool, b: Best)
    requires SweepOk(w) && i <= j < |w.upper| && (i < j ==> !Empty(w, i)) && Tracks(w, limit, i, j, from)
    requires SumsOf(upperSizes, w.upper, w.size) && SumsOf(lowerSizes, w.lower, w.size)
    ensures trivial <==> Empty(w, j)
    ensures trivial ==> stop && !AllOverlap(w)
    ensures if stop then Tracks(w, limit, i + 1, i + 1, b) else Tracks(w, limit, i, j + 1, b)
  {
    if w.bounds[j].0 == w.bounds[j].1 {
      TrivialTracks(w, limit, i, j, from);
      return true, true, from;
    }
    SliceSizes(w, i, j, upperSizes, lowerSizes);
    var sizeUpper := upperSizes[j + 1] - upperSizes[i];
    var sizeLower := lowerSizes[w.bounds[j].1] - lowerSizes[w.bounds[i].0];
    if sizeUpper + sizeLower >= limit {
      OverLimitTracks(w, limit, i, j, from);
      return false, true, from;
    }
    ImproveTracks(w, limit, i, j, from, sizeUpper, sizeLower);
    return false, false, Improve(from, i, j, sizeUpper, sizeLower);
  }

  /** The inner loop: slices that start at file i. */
  method ScanRow(w: Sweep, limit: nat, i: nat, upperSizes: seq<nat>, lowerSizes: seq<nat>, from: Best)
    returns (trivial: bool, b: Best)
    requires SweepOk(w) && i < |w.upper| && Tracks(w, limit, i, i, from)
    requires SumsOf(upperSizes, w.upper, w.size) && SumsOf(lowerSizes, w.lower, w.size)
    ensures Empty(w, i) ==> trivial
    ensures trivial ==> !AllOverlap(w)
    ensures Tracks(w, limit, i + 1, i + 1, b)
  {
    trivial, b := false, from;
    var j := i;
    while j < |w.bounds|
      invariant i <= j <= |w.bounds| && !trivial
      invariant j > i ==> !Empty(w, i)
      invariant Tracks(w, limit, i, j, b)
    {
      var stop;
      trivial, stop, b := TrySlice(w, limit, i, j, upperSizes, lowerSizes, b);
      j := j + 1;
      if stop {
        return;
      }
    }
    RowTracks(w, limit, i, b);
  }

  /** The nested loops of PickCompaction: whether some file overlaps nothing below, and
      otherwise the slice with the best ratio among those under the size limit. */
  method FindBest(w: Sweep, limit: nat) returns (trivial: bool, b: Best)
    requires SweepOk(w)
    ensures trivial <==> !AllOverlap(w)
    ensures Tracks(w, limit, |w.upper|, |w.upper|, b)
  {
    var upperSizes := PrefixSums(w.upper, w.size);
    var lowerSizes := PrefixSums(w.lower, w.size);
    trivial, b := false, Best(None, -1.0, 0);
    for i := 0 to |w.bounds|
      invariant trivial ==> !AllOverlap(w)
      invariant forall m: nat :: m < i && Empty(w, m) ==> trivial
      invariant Tracks(w, limit, i, i, b)
    {
      var t;
      t, b := ScanRow(w, limit, i, upperSizes, lowerSizes, b);
      trivial := trivial || t;
    }
  }

  // ----- the choice

  datatype Pick = NoFiles | Move(tables: seq<Table>) | Compact(upper: seq<Table>, lower: seq<Table>)

  ghost function SetOf(files: seq<Table>): set<Table> {
    set t | t in files
  }

  /** GetRange: the smallest and largest user key of some files. */
  method GetRange(inputs: seq<Table>) returns (lo: int, hi: int)
    requires inputs != []
    ensures Hull(SetOf(inputs), lo, hi)
  {
    lo, hi := inputs[0].Lo(), inputs[0].Hi();
    for i := 1 to |inputs|
      invariant exists k :: 0 <= k < i && inputs[k].Lo() == lo
      invariant exists k :: 0 <= k < i && inputs[k].Hi() == hi
      invariant forall k :: 0 <= k < i ==> lo <= inputs[k].Lo() && inputs[k].Hi() <= hi
    {
      if inputs[i].Lo() < lo { lo := inputs[i].Lo(); }
      if inputs[i].Hi() > hi { hi := inputs[i].Hi(); }
    }
    var a :| 0 <= a < |inputs| && inputs[a].Lo() == lo;
    var b :| 0 <= b < |inputs| && inputs[b].Hi() == hi;
    assert inputs[a] in SetOf(inputs) && inputs[b] in SetOf(inputs);
  }

  /** Some tables of a level and exactly the tables of the next that overlap their range. */
  ghost predicate Matched(upper: seq<Table>, lower: seq<Table>, us: seq<Table>, ls: seq<Table>) {
    && us != []
    && SetOf(us) <= SetOf(upper)
    && exists lo, hi :: Hull(SetOf(us), lo, hi) && ls == Touching(lower, Range(Some(lo), Some(hi)))
  }

  /** SetupOtherInputs. */
  method SetupOtherInputs(upper: seq<Table>, lower: seq<Table>, us: seq<Table>) returns (ls: seq<Table>)
    requires us != [] && SetOf(us) <= SetOf(upper)
    ensures Matched(upper, lower, us, ls)
  {
    var lo, hi := GetRange(us);
    ls := GetOverlappingInputs(lower, Range(Some(lo), Some(hi)));
  }

  /** A file with an empty overlap, which can move down as it is. */
  ghost predicate FreeOf(lower: seq<Table>, t: Table) {
    forall u :: u in lower ==> !Overlaps(u, t.Lo(), t.Hi())
  }

  lemma {:induction false} OverlapsSome(w: Sweep, i: nat)
    requires SweepOk(w) && i < |w.upper| && w.bounds[i].0 != w.bounds[i].1
    ensures !FreeOf(w.lower, w.upper[i])
  {
    assert Covers(w.lower, w.upper[i], w.bounds[i].0, w.bounds[i].1);
    assert w.lower[w.bounds[i].0] in w.lower;
  }

  /** A trivial move takes all of them. */
  method FreeFiles(w: Sweep) returns (free: seq<Table>)
    requires SweepOk(w)
    ensures forall t :: t in free <==> t in w.upper && FreeOf(w.lower, t)
    ensures free != [] <==> !AllOverlap(w)
  {
    free := [];
    for i := 0 to |w.upper|
      invariant forall t :: t in free ==> t in w.upper && FreeOf(w.lower, t)
      invariant forall m: nat :: m < i && FreeOf(w.lower, w.upper[m]) ==> w.upper[m] in free
      invariant free != [] <==> exists m: nat :: m < i && Empty(w, m)
    {
      if w.bounds[i].0 == w.bounds[i].1 {
        assert Covers(w.lower, w.upper[i], w.bounds[i].0, w.bounds[i].1);
        assert Empty(w, i);
        free := free + [w.upper[i]];
      } else {
        OverlapsSome(w, i);
      }
    }
  }

  function Width(b: (nat, nat)): int {
    b.1 as int - b.0 as int
  }

  lemma {:induction false} RatioNotNegative(w: Sweep, i: nat, j: nat)
    requires SweepOk(w) && AllOverlap(w) && i <= j < |w.upper|
    ensures Ratio(w, i, j) >= 0.0
  {
    SizeLowerPositive(w, i, j);
    SumGrows(w.upper, w.size, i, j + 1);
  }

  /** The file that overlaps the fewest files below. */
  method LeastOverlap(w: Sweep) returns (k: nat)
    requires |w.bounds| > 0
    ensures k < |w.bounds|
    ensures forall m :: 0 <= m < |w.bounds| ==> Width(w.bounds[k]) <= Width(w.bounds[m])
    ensures forall m :: 0 <= m < k ==> Width(w.bounds[k]) < Width(w.bounds[m])
  {
    k := 0;
    for i := 0 to |w.bounds|
      invariant k <= i && k < |w.bounds|
      invariant forall m :: 0 <= m < i ==> Width(w.bounds[k]) <= Width(w.bounds[m])
      invariant forall m :: 0 <= m < k ==> Width(w.bounds[k]) < Width(w.bounds[m])
    {
      if Width(w.bounds[k]) > Width(w.bounds[i]) {
        k := i;
      }
    }
  }

  /** No slice under the limit has a greater ratio, nor the same ratio and less to move,
      and none before it has as good a ratio and as little to move. */
  ghost predicate BestSlice(w: Sweep, limit: nat, i: nat, j: nat)
    requires SweepOk(w) && AllOverlap(w)
  {
    && i <= j < |w.upper| && Total(w, i, j) < limit
    && forall a: nat, b: nat :: a <= b < |w.upper| && Total(w, a, b) < limit ==> AtLeast(w, (i, j), a, b)
  }

  predicate Pays(sizeUpper: nat, ratio: real, sizeLower: nat) {
    sizeUpper as real * ratio >= sizeLower as real
  }

  /** The same test in whole numbers: a to b is no worse than q to p. */
  predicate Outweighs(a: nat, p: int, q: int, b: nat) {
    a * p >= b * q
  }

  lemma {:induction false} PaysIff(a: nat, p: int, q: int, b: nat)
    requires q > 0
    ensures Pays(a, p as real / q as real, b) <==> Outweighs(a, p, q, b)
  {
    var r := p as real / q as real;
    assert r * q as real == p as real;
    assert (a as real * r) * q as real == a as real * p as real;
    assert (a * p) as real == a as real * p as real && (b * q) as real == b as real * q as real;
    Scale(a as real * r, b as real, q as real);
  }

  lemma {:induction false} Scale(x: real, y: real, q: real)
    requires q > 0.0
    ensures x >= y <==> x * q >= y * q
  {
    assert x * q - y * q == (x - y) * q;
  }

  /** At the best slice's ratio the whole upper level pays for the whole lower one. */
  ghost predicate WorthMovingAll(level: nat, w: Sweep, i: nat, j: nat)
    requires SweepOk(w) && AllOverlap(w) && i <= j < |w.upper|
  {
    SizeLowerPositive(w, i, j);
    level < 4 && Outweighs(Sum(w.upper, w.size, |w.upper|), SizeUpper(w, i, j), SizeLower(w, i, j), Sum(w.lower, w.size, |w.lower|))
  }

  /** The upper inputs: the whole level, a best slice, or, when every slice is
      over the limit, a file with the fewest overlaps. */
  ghost predicate Chosen(level: nat, w: Sweep, limit: nat, us: seq<Table>)
    requires SweepOk(w) && AllOverlap(w)
  {
    || (exists i: nat, j: nat :: BestSlice(w, limit, i, j) &&
          us == if WorthMovingAll(level, w, i, j) then w.upper else w.upper[i..j + 1])
    || (NothingFits(w, limit) && exists k: nat :: FewestOverlaps(w, k) && us == [w.upper[k]])
  }

  ghost predicate FewestOverlaps(w: Sweep, k: nat)
    requires |w.bounds| == |w.upper|
  {
    && k < |w.upper|
    && (forall m :: 0 <= m < |w.bounds| ==> Width(w.bounds[k]) <= Width(w.bounds[m]))
    && (forall m :: 0 <= m < k ==> Width(w.bounds[k]) < Width(w.bounds[m]))
  }

  ghost predicate NothingFits(w: Sweep, limit: nat)
    requires SweepOk(w) && AllOverlap(w)
  {
    forall a: nat, b: nat :: a <= b < |w.upper| ==> Total(w, a, b) >= limit
  }

  /** The finished search holds a best slice, or nothing is under the limit. */
  lemma {:induction false} SearchDecides(w: Sweep, limit: nat, b: Best)
    requires SweepOk(w) && AllOverlap(w) && Tracks(w, limit, |w.upper|, |w.upper|, b)
    ensures b.slice.Some? <==> b.ratio >= 0.0
    ensures b.slice.Some? ==>
              && BestSlice(w, limit, b.slice.value.0, b.slice.value.1)
              && b.ratio == Ratio(w, b.slice.value.0, b.slice.value.1)
    ensures b.slice.None? ==> NothingFits(w, limit)
  {
    assert forall x: nat, y: nat :: x <= y < |w.upper| ==> Earlier(x, y, |w.upper|, |w.upper|);
    forall x: nat, y: nat | x <= y < |w.upper| && Total(w, x, y) < limit
      ensures b.slice.Some? && AtLeast(w, b.slice.value, x, y)
    {
      assert Beaten(w, limit, |w.upper|, |w.upper|, b.slice, x, y);
    }
    if b.slice.Some? {
      RatioNotNegative(w, b.slice.value.0, b.slice.value.1);
    }
  }

  lemma {:induction false} ChoiceByRatio(level: nat, w: Sweep, limit: nat, i: nat, j: nat, us: seq<Table>)
    requires SweepOk(w) && AllOverlap(w) && BestSlice(w, limit, i, j)
    requires us == if WorthMovingAll(level, w, i, j) then w.upper else w.upper[i..j + 1]
    ensures us != [] && SetOf(us) <= SetOf(w.upper) && Chosen(level, w, limit, us)
  {
  }

  lemma {:induction false} ChoiceByOverlap(level: nat, w: Sweep, limit: nat, k: nat, us: seq<Table>)
    requires SweepOk(w) && AllOverlap(w) && NothingFits(w, limit)
    requires FewestOverlaps(w, k) && us == [w.upper[k]]
    ensures us != [] && SetOf(us) <= SetOf(w.upper) && Chosen(level, w, limit, us)
  {
  }

  /** Which files of the level to compact, when none can simply move. */
  method ChooseUpper(level: nat, w: Sweep, b: Best, limit: nat) returns (us: seq<Table>)
    requires SweepOk(w) && AllOverlap(w) && w.upper != [] && Tracks(w, limit, |w.upper|, |w.upper|, b)
    ensures us != [] && SetOf(us) <= SetOf(w.upper)
    ensures Chosen(level, w, limit, us)
  {
    SearchDecides(w, limit, b);
    if b.ratio >= 0.0 {
      var i, j := b.slice.value.0, b.slice.value.1;
      SizeLowerPositive(w, i, j);
      PaysIff(Sum(w.upper, w.size, |w.upper|), SizeUpper(w, i, j), SizeLower(w, i, j), Sum(w.lower, w.size, |w.lower|));
    }
    if level < 4 && b.ratio >= 0.0 && Pays(Sum(w.upper, w.size, |w.upper|), b.ratio, Sum(w.lower, w.size, |w.lower|)) {
      us := w.upper;
      ChoiceByRatio(level, w, limit, b.slice.value.0, b.slice.value.1, us);
    } else if b.ratio >= 0.0 {
      us := w.upper[b.slice.value.0..b.slice.value.1 + 1];
      ChoiceByRatio(level, w, limit, b.slice.value.0, b.slice.value.1, us);
    } else {
      var k := LeastOverlap(w);
      us := [w.upper[k]];
      ChoiceByOverlap(level, w, limit, k, us);
    }
  }

  ghost predicate WeighedBy(w: Sweep, upper: seq<Table>, lower: seq<Table>, size: Table -> nat) {
    w.upper == upper && w.lower == lower && w.size == size && SweepOk(w) && AllOverlap(w)
  }

  /** PickCompaction at a level above 0. */
  method PickCompaction(level: nat, upper: seq<Table>, lower: seq<Table>, size: Table -> nat, limit: nat)
    returns (pick: Pick)
    requires level > 0 && InOrder(upper) && InOrder(lower)
    requires forall t :: t in upper || t in lower ==> size(t) > 0
    ensures pick.NoFiles? <==> upper == []
    ensures pick.Move? <==> exists t :: t in upper && FreeOf(lower, t)
    ensures pick.Move? ==> pick.tables != [] && forall t :: t in pick.tables <==> t in upper && FreeOf(lower, t)
    ensures pick.Compact? ==> Matched(upper, lower, pick.upper, pick.lower)
    ensures pick.Compact? ==> exists w :: WeighedBy(w, upper, lower, size) && Chosen(level, w, limit, pick.upper)
  {
    if upper == [] {
      return NoFiles;
    }
    var bounds := GetCompactionBoundaries(upper, lower);
    var w := Sweep(upper, lower, bounds, size);
    var trivial, b := FindBest(w, limit);
    var free := FreeFiles(w);
    if trivial {
      assert free[0] in free;
      return Move(free);
    }
    forall t | t in upper
      ensures !FreeOf(lower, t)
    {
      var m :| 0 <= m < |upper| && upper[m] == t;
      assert !Empty(w, m);
      OverlapsSome(w, m);
    }
    var us := ChooseUpper(level, w, b, limit);
    assert WeighedBy(w, upper, lower, size);
    var ls := SetupOtherInputs(upper, lower, us);
    pick := Compact(us, ls);
  }

  function Least(a: nat, b: nat): nat {
    if a < b then a else b
  }

  lemma {:induction false} SliceStep(files: seq<Table>, s: nat, l: nat, n: nat)
    requires s <= l <= |files| && n < |files|
    ensures files[Least(s, n + 1)..Least(l, n + 1)] ==
            files[Least(s, n)..Least(l, n)] + if s <= n < l then [files[n]] else []
  {
  }

  lemma {:induction false} TouchingPrefix(files: seq<Table>, r: Range, s: nat, l: nat, n: nat)
    requires s <= l <= |files| && n <= |files|
    requires forall k :: 0 <= k < |files| ==> (s <= k < l <==> Touches(files[k], r))
    ensures Touching(files[..n], r) == files[Least(s, n)..Least(l, n)]
    decreases n
  {
    if n > 0 {
      TouchingPrefix(files, r, s, l, n - 1);
      TouchingStep(files, n - 1, r);
      SliceStep(files, s, l, n - 1);
      assert s <= n - 1 < l <==> Touches(files[n - 1], r);
    }
  }

  lemma {:induction false} TouchingIsSlice(files: seq<Table>, r: Range, s: nat, l: nat)
    requires s <= l <= |files| && forall k :: 0 <= k < |files| ==> (s <= k < l <==> Touches(files[k], r))
    ensures Touching(files, r) == files[s..l]
  {
    TouchingPrefix(files, r, s, l, |files|);
    assert files[..|files|] == files;
  }

  /** The slice of the next level the sweep found is what SetupOtherInputs recomputes. */
  lemma {:induction false} RescanFindsTheSlice(w: Sweep, i: nat, j: nat)
    requires SweepOk(w) && AllOverlap(w) && i <= j < |w.upper|
    ensures w.bounds[i].0 <= w.bounds[j].1 <= |w.lower|
    ensures Hull(SetOf(w.upper[i..j + 1]), w.upper[i].Lo(), w.upper[j].Hi())
    ensures Touching(w.lower, Range(Some(w.upper[i].Lo()), Some(w.upper[j].Hi()))) == w.lower[w.bounds[i].0..w.bounds[j].1]
  {
    assert !Empty(w, i) && !Empty(w, j);
    assert Covers(w.lower, w.upper[i], w.bounds[i].0, w.bounds[i].1);
    assert Covers(w.lower, w.upper[j], w.bounds[j].0, w.bounds[j].1);
    SliceCovers(w.upper, w.lower, w.bounds, i, j);
    TouchingIsSlice(w.lower, Range(Some(w.upper[i].Lo()), Some(w.upper[j].Hi())), w.bounds[i].0, w.bounds[j].1);
    SliceHull(w.upper, i, j);
  }

  lemma {:induction false} SliceHull(upper: seq<Table>, i: nat, j: nat)
    requires InOrder(upper) && i <= j < |upper|
    ensures Hull(SetOf(upper[i..j + 1]), upper[i].Lo(), upper[j].Hi())
  {
  }

  // ----- level 0

  /** std::sort with OldestFirst, by insertion. */
  function InsertOldest(files: seq<Table>, t: Table): seq<Table> {
    if files == [] || files[|files| - 1].number <= t.number then files + [t]
    else InsertOldest(files[..|files| - 1], t) + [files[|files| - 1]]
  }

  ghost predicate OldestFirst(files: seq<Table>) {
    forall i, j :: 0 <= i < j < |files| ==> files[i].number <= files[j].number
  }

  lemma {:induction false} InsertOldestKeeps(files: seq<Table>, t: Table)
    ensures multiset(InsertOldest(files, t)) == multiset(files) + multiset{t}
    decreases |files|
  {
    if files != [] && files[|files| - 1].number > t.number {
      InsertOldestKeeps(files[..|files| - 1], t);
      assert files == files[..|files| - 1] + [files[|files| - 1]];
    }
  }

  lemma {:induction false} InsertOldestOrdered(files: seq<Table>, t: Table)
    requires OldestFirst(files)
    ensures OldestFirst(InsertOldest(files, t))
    decreases |files|
  {
    if files != [] && files[|files| - 1].number > t.number {
      var init, last := files[..|files| - 1], files[|files| - 1];
      InsertOldestOrdered(init, t);
      InsertOldestKeeps(init, t);
      var r := InsertOldest(init, t);
      forall i | 0 <= i < |r|
        ensures r[i].number <= last.number
      {
        assert r[i] in multiset(r);
        assert r[i] == t || r[i] in init;
      }
    }
  }

  method SortOldest(files: seq<Table>) returns (sorted: seq<Table>)
    ensures OldestFirst(sorted) && multiset(sorted) == multiset(files)
  {
    sorted := [];
    for i := 0 to |files|
      invariant OldestFirst(sorted) && multiset(sorted) == multiset(files[..i])
    {
      assert files[..i + 1] == files[..i] + [files[i]];
      InsertOldestOrdered(sorted, files[i]);
      InsertOldestKeeps(sorted, files[i]);
      sorted := InsertOldest(sorted, files[i]);
    }
    assert files[..|files|] == files;
  }

  /** PickCompaction at level 0: the 32 oldest files. */
  method PickLevel0(files: seq<Table>, lower: seq<Table>) returns (pick: Pick)
    requires forall i, j :: 0 <= i < j < |files| ==> files[i].number != files[j].number
    ensures pick.NoFiles? <==> files == []
    ensures !pick.NoFiles? ==> pick.Compact? && Matched(files, lower, pick.upper, pick.lower)
    ensures pick.Compact? ==> |pick.upper| == if |files| < 32 then |files| else 32
    ensures pick.Compact? ==> forall t, u :: t in files && t !in pick.upper && u in pick.upper ==> u.number < t.number
  {
    if files == [] {
      return NoFiles;
    }
    var sorted := SortOldest(files);
    var n := if |sorted| < 32 then |sorted| else 32;
    var us := sorted[..n];
    assert |sorted| == |multiset(sorted)| == |files|;
    forall t
      ensures t in sorted <==> t in files
    {
      assert t in multiset(sorted) <==> t in multiset(files);
    }
    forall t, u | t in files && t !in us && u in us
      ensures u.number < t.number
    {
      var a :| 0 <= a < |sorted| && sorted[a] == t;
      var b :| 0 <= b < n && us[b] == u;
      assert sorted[b] == u && a >= n;
      assert u in sorted && u in files;
      var x :| 0 <= x < |files| && files[x] == t;
      var y :| 0 <= y < |files| && files[y] == u;
    }
    var ls := SetupOtherInputs(files, lower, us);
    pick := Compact(us, ls);
  }

  // ----- the picks are what the store's steps ask for

  /** A picked compaction may begin. */
  lemma {:induction false} MatchedIsPicked(files: Files, level: nat, upper: seq<Table>, lower: seq<Table>,
                                           us: seq<Table>, ls: seq<Table>)
    requires level + 1 < NUM_LEVELS == |files|
    requires SetOf(upper) == files[level] && SetOf(lower) == files[level + 1]
    requires Matched(upper, lower, us, ls)
    requires level == 0 ==> forall t, u :: t in upper && t !in us && u in us ==> u.number < t.number
    ensures Picked(files, level, SetOf(us), SetOf(ls))
  {
    var lo, hi :| Hull(SetOf(us), lo, hi) && ls == Touching(lower, Range(Some(lo), Some(hi)));
    forall t: Table
      ensures t in ls <==> t in lower && Overlaps(t, lo, hi)
    {
      TouchingFiles(lower, Range(Some(lo), Some(hi)), t);
    }
    assert SetOf(ls) == set t | t in files[level + 1] && Overlaps(t, lo, hi);
  }
}
