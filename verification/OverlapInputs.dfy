/** Version::GetOverlappingInputs (db/version_set.cc): the files of a level that overlap
    a user-key range, closed under overlap at level 0. */
module OverlapInputs {
  import opened Coding
  import opened Levels

  /** A user-key range, open on the sides that are not given. */
  datatype Range = Range(begin: Option<int>, end: Option<int>)

  predicate Touches(t: Table, r: Range) {
    !(r.begin.Some? && t.Hi() < r.begin.value) && !(r.end.Some? && t.Lo() > r.end.value)
  }

  ghost predicate Proper(files: seq<Table>) {
    forall t :: t in files ==> t.Lo() <= t.Hi()
  }

  /** The files that touch a range, in order. */
  function Touching(files: seq<Table>, r: Range): seq<Table> {
    if files == [] then []
    else
      var init, last := files[..|files| - 1], files[|files| - 1];
      Touching(init, r) + if Touches(last, r) then [last] else []
  }

  lemma {:induction false} TouchingFiles(files: seq<Table>, r: Range, t: Table)
    ensures t in Touching(files, r) <==> t in files && Touches(t, r)
    decreases |files|
  {
    if files != [] {
      var init, last := files[..|files| - 1], files[|files| - 1];
      TouchingFiles(init, r, t);
      assert files == init + [last];
    }
  }

  lemma {:induction false} TouchingStep(files: seq<Table>, i: nat, r: Range)
    requires i < |files|
    ensures Touching(files[..i + 1], r) == Touching(files[..i], r) + if Touches(files[i], r) then [files[i]] else []
  {
    assert files[..i + 1][..i] == files[..i];
  }

  // ----- closure at level 0

  /** A set of files that has every file touching the range and, with a file, every
      file overlapping it. */
  ghost predicate Closed(files: seq<Table>, r: Range, s: set<Table>) {
    && (forall t :: t in files && Touches(t, r) ==> t in s)
    && (forall t, u :: t in files && u in files && t in s && Overlaps(u, t.Lo(), t.Hi()) ==> u in s)
  }

  /** Everything that touches the range is in every closed set. */
  ghost predicate Forced(files: seq<Table>, r: Range, wide: Range) {
    forall s, t :: Closed(files, r, s) && t in files && Touches(t, wide) ==> t in s
  }

  /** The wide range reaches at least as far on both sides. */
  predicate Widens(wide: Range, r: Range) {
    && wide.begin.Some? == r.begin.Some?
    && wide.end.Some? == r.end.Some?
    && (r.begin.Some? ==> wide.begin.value <= r.begin.value)
    && (r.end.Some? ==> r.end.value <= wide.end.value)
  }

  lemma {:induction false} WidenLeft(files: seq<Table>, r: Range, wide: Range, t: Table)
    requires Forced(files, r, wide) && Proper(files) && t in files && Touches(t, wide)
    requires wide.begin.Some? && t.Lo() < wide.begin.value
    ensures Forced(files, r, wide.(begin := Some(t.Lo())))
  {
  }

  lemma {:induction false} WidenRight(files: seq<Table>, r: Range, wide: Range, t: Table)
    requires Forced(files, r, wide) && Proper(files) && t in files && Touches(t, wide)
    requires wide.end.Some? && t.Hi() > wide.end.value
    ensures Forced(files, r, wide.(end := Some(t.Hi())))
  {
  }

  /** No file that touches the range sticks out of it. */
  ghost predicate Contains(files: seq<Table>, wide: Range) {
    forall t :: t in files && Touches(t, wide) ==>
      && (wide.begin.Some? ==> wide.begin.value <= t.Lo())
      && (wide.end.Some? ==> t.Hi() <= wide.end.value)
  }

  lemma {:induction false} ContainedIsClosed(files: seq<Table>, r: Range, wide: Range)
    requires Widens(wide, r) && Contains(files, wide) && Proper(files)
    ensures Closed(files, r, set t | t in files && Touches(t, wide))
  {
  }

  /** Files that begin before, or end after, the range: what is left to widen. */
  ghost function LeftOf(files: seq<Table>, r: Range): set<Table> {
    set t | t in files && r.begin.Some? && t.Lo() < r.begin.value
  }

  ghost function RightOf(files: seq<Table>, r: Range): set<Table> {
    set t | t in files && r.end.Some? && t.Hi() > r.end.value
  }

  lemma {:induction false} LeftShrinks(files: seq<Table>, wide: Range, t: Table)
    requires t in files && wide.begin.Some? && t.Lo() < wide.begin.value
    ensures LeftOf(files, wide.(begin := Some(t.Lo()))) < LeftOf(files, wide)
  {
    assert t in LeftOf(files, wide) && t !in LeftOf(files, wide.(begin := Some(t.Lo())));
  }

  lemma {:induction false} RightShrinks(files: seq<Table>, wide: Range, t: Table)
    requires t in files && wide.end.Some? && t.Hi() > wide.end.value
    ensures RightOf(files, wide.(end := Some(t.Hi()))) < RightOf(files, wide)
    ensures LeftOf(files, wide.(end := Some(t.Hi()))) == LeftOf(files, wide)
  {
    assert t in RightOf(files, wide) && t !in RightOf(files, wide.(end := Some(t.Hi())));
  }

  /** The search at level 0 has looked at i files with the current range. */
  ghost predicate Searching(files: seq<Table>, r: Range, wide: Range, i: nat, inputs: seq<Table>) {
    && i <= |files|
    && Widens(wide, r)
    && Forced(files, r, wide)
    && inputs == Touching(files[..i], wide)
    && Contains(files[..i], wide)
  }

  lemma {:induction false} SearchNext(files: seq<Table>, r: Range, wide: Range, i: nat, inputs: seq<Table>)
    requires i < |files| && Searching(files, r, wide, i, inputs)
    requires Touches(files[i], wide) ==> Contains([files[i]], wide)
    ensures Searching(files, r, wide, i + 1, inputs + if Touches(files[i], wide) then [files[i]] else [])
  {
    TouchingStep(files, i, wide);
    assert files[..i + 1] == files[..i] + [files[i]];
    assert files[i] in [files[i]];
  }

  lemma {:induction false} SearchDone(files: seq<Table>, r: Range, wide: Range, inputs: seq<Table>)
    requires Proper(files) && Searching(files, r, wide, |files|, inputs)
    ensures Closed(files, r, set t | t in inputs)
    ensures forall s :: Closed(files, r, s) ==> (set t | t in inputs) <= s
    ensures inputs == Touching(files, wide)
  {
    assert files[..|files|] == files;
    ContainedIsClosed(files, r, wide);
    forall t: Table
      ensures t in inputs <==> t in files && Touches(t, wide)
    {
      TouchingFiles(files, wide, t);
    }
    assert (set t | t in inputs) == set t | t in files && Touches(t, wide);
  }

  /** At levels above 0: one pass. */
  method GetOverlappingInputs(files: seq<Table>, r: Range) returns (inputs: seq<Table>)
    ensures inputs == Touching(files, r)
  {
    inputs := [];
    for i := 0 to |files|
      invariant inputs == Touching(files[..i], r)
    {
      TouchingStep(files, i, r);
      if r.begin.Some? && files[i].Hi() < r.begin.value {
      } else if r.end.Some? && files[i].Lo() > r.end.value {
      } else {
        inputs := inputs + [files[i]];
      }
    }
    assert files[..|files|] == files;
  }

  /** At level 0: the search restarts with a wider range whenever a file sticks out, and
      ends with the least set of files closed under overlap with the range. */
  method GetOverlappingInputsLevel0(files: seq<Table>, r: Range) returns (inputs: seq<Table>)
    requires Proper(files)
    ensures Closed(files, r, set t | t in inputs)
    ensures forall s :: Closed(files, r, s) ==> (set t | t in inputs) <= s
    ensures exists wide :: Widens(wide, r) && inputs == Touching(files, wide)
  {
    var wide := r;
    inputs := [];
    var i := 0;
    while i < |files|
      invariant Searching(files, r, wide, i, inputs)
      decreases LeftOf(files, wide), RightOf(files, wide), |files| - i
    {
      var f := files[i];
      if wide.begin.Some? && f.Hi() < wide.begin.value {
        SearchNext(files, r, wide, i, inputs);
        i := i + 1;
      } else if wide.end.Some? && f.Lo() > wide.end.value {
        SearchNext(files, r, wide, i, inputs);
        i := i + 1;
      } else if wide.begin.Some? && f.Lo() < wide.begin.value {
        WidenLeft(files, r, wide, f);
        LeftShrinks(files, wide, f);
        wide, inputs, i := wide.(begin := Some(f.Lo())), [], 0;
      } else if wide.end.Some? && f.Hi() > wide.end.value {
        WidenRight(files, r, wide, f);
        RightShrinks(files, wide, f);
        wide, inputs, i := wide.(end := Some(f.Hi())), [], 0;
      } else {
        SearchNext(files, r, wide, i, inputs);
        inputs, i := inputs + [f], i + 1;
      }
    }
    SearchDone(files, r, wide, inputs);
  }
}
