/** VersionSet::Builder (db/version_set.cc): edits accumulated over a base version and
    saved as sorted file lists, as Recover and LogAndApply use it. */
module VersionBuilders {
  /** A file; its smallest internal key is its position in the comparator's order. */
  datatype File = File(number: nat, smallest: int)

  type Version = seq<seq<File>>

  /** What an edit does to the file lists: (level, number) and (level, file). */
  datatype Change = Change(deleted: set<(nat, nat)>, added: seq<(nat, File)>)

  /** BySmallestKey. */
  predicate FileBefore(a: File, b: File) {
    a.smallest < b.smallest || (a.smallest == b.smallest && a.number < b.number)
  }

  ghost predicate SortedFiles(fs: seq<File>) {
    forall i, j :: 0 <= i < j < |fs| ==> FileBefore(fs[i], fs[j])
  }

  /** Smallest keys never go down, and under the same one numbers go up. */
  ghost predicate KeysUp(fs: seq<File>) {
    && (forall i, j :: 0 <= i < j < |fs| ==> fs[i].smallest <= fs[j].smallest)
    && (forall i, j :: 0 <= i < j < |fs| && fs[i].smallest == fs[j].smallest ==> fs[i].number < fs[j].number)
  }

  ghost function Elements(fs: seq<File>): set<File> {
    set f | f in fs
  }

  ghost function Numbers(fs: set<File>): set<nat> {
    set f | f in fs :: f.number
  }

  // ----- one level

  /** Files that are not deleted. */
  ghost function Kept(fs: set<File>, deleted: set<nat>): set<File> {
    set f | f in fs && f.number !in deleted
  }

  /** Every file of the left comes before every file of the right. */
  ghost predicate AllBefore(a: seq<File>, b: seq<File>) {
    forall f, g :: f in a && g in b ==> FileBefore(f, g)
  }

  lemma {:induction false} AppendSorted(out: seq<File>, f: File)
    requires SortedFiles(out) && AllBefore(out, [f])
    ensures SortedFiles(out + [f])
  {
    assert f in [f];
  }

  /** MaybeAddFile: a deleted file is left out. */
  method MaybeAddFile(out: seq<File>, f: File, deleted: set<nat>) returns (r: seq<File>)
    requires SortedFiles(out) && AllBefore(out, [f])
    ensures SortedFiles(r) && Elements(r) == Elements(out) + Kept({f}, deleted)
    ensures forall g :: g in r ==> g in out || g == f
  {
    r := out;
    if f.number !in deleted {
      AppendSorted(out, f);
      r := out + [f];
    }
  }

  /** Where the merge stands: b base files and i added files are through. */
  ghost predicate Merged(base: seq<File>, b: nat, added: seq<File>, i: nat, deleted: set<nat>, out: seq<File>)
    requires b <= |base| && i <= |added|
  {
    && SortedFiles(out)
    && Elements(out) == Kept(Elements(base[..b]) + Elements(added[..i]), deleted)
    && AllBefore(out, base[b..])
    && AllBefore(out, added[i..])
  }

  lemma {:induction false} TakeBase(base: seq<File>, b: nat, added: seq<File>, i: nat, deleted: set<nat>, out: seq<File>, r: seq<File>)
    requires b < |base| && i <= |added| && Merged(base, b, added, i, deleted, out)
    requires SortedFiles(base) && SortedFiles(added) && (i < |added| ==> FileBefore(base[b], added[i]))
    requires SortedFiles(r) && Elements(r) == Elements(out) + Kept({base[b]}, deleted)
    requires forall g :: g in r ==> g in out || g == base[b]
    ensures Merged(base, b + 1, added, i, deleted, r)
  {
  }

  lemma {:induction false} TakeAdded(base: seq<File>, b: nat, added: seq<File>, i: nat, deleted: set<nat>, out: seq<File>, r: seq<File>)
    requires b <= |base| && i < |added| && Merged(base, b, added, i, deleted, out)
    requires SortedFiles(base) && SortedFiles(added) && (b < |base| ==> FileBefore(added[i], base[b]))
    requires SortedFiles(r) && Elements(r) == Elements(out) + Kept({added[i]}, deleted)
    requires forall g :: g in r ==> g in out || g == added[i]
    ensures Merged(base, b, added, i + 1, deleted, r)
  {
  }

  /** The loop that copies base files up to the next added file. */
  method CopySmaller(base: seq<File>, start: nat, added: seq<File>, i: nat, deleted: set<nat>, before: seq<File>)
    returns (b: nat, out: seq<File>)
    requires start <= |base| && i <= |added| && Merged(base, start, added, i, deleted, before)
    requires SortedFiles(base) && SortedFiles(added) && Elements(base) !! Elements(added)
    ensures start <= b <= |base| && Merged(base, b, added, i, deleted, out)
    ensures if i < |added| then b < |base| ==> FileBefore(added[i], base[b]) else b == |base|
  {
    b, out := start, before;
    while b < |base| && (i == |added| || !FileBefore(added[i], base[b]))
      invariant start <= b <= |base| && Merged(base, b, added, i, deleted, out)
    {
      assert base[b] in base[b..] && base[b] in Elements(base);
      assert i < |added| ==> added[i] in Elements(added);
      var r := MaybeAddFile(out, base[b], deleted);
      TakeBase(base, b, added, i, deleted, out, r);
      b, out := b + 1, r;
    }
  }

  /** SaveTo for one level: the files of both lists that are not deleted, in order. */
  method SaveLevel(base: seq<File>, added: seq<File>, deleted: set<nat>) returns (out: seq<File>)
    requires SortedFiles(base) && SortedFiles(added) && Elements(base) !! Elements(added)
    ensures SortedFiles(out) && Elements(out) == Kept(Elements(base) + Elements(added), deleted)
  {
    out := [];
    var b := 0;
    for i := 0 to |added|
      invariant b <= |base| && Merged(base, b, added, i, deleted, out)
    {
      b, out := CopySmaller(base, b, added, i, deleted, out);
      assert added[i] in added[i..];
      var r := MaybeAddFile(out, added[i], deleted);
      TakeAdded(base, b, added, i, deleted, out, r);
      out := r;
    }
    b, out := CopySmaller(base, b, added, |added|, deleted, out);
    assert base[..|base|] == base && added[..|added|] == added;
  }

  /** A sorted list is determined by its files. */
  lemma {:induction false} SortedUnique(a: seq<File>, b: seq<File>)
    requires SortedFiles(a) && SortedFiles(b) && Elements(a) == Elements(b)
    ensures a == b
    decreases |a|
  {
    assert b != [] ==> b[0] in Elements(b);
    if a != [] {
      assert a[0] in Elements(b) && b != [];
      assert b[0] in Elements(a);
      var m :| 0 <= m < |b| && b[m] == a[0];
      var n :| 0 <= n < |a| && a[n] == b[0];
      assert a[0] == b[0];
      TailElements(a);
      TailElements(b);
      SortedUnique(a[1..], b[1..]);
      assert a == [a[0]] + a[1..] && b == [b[0]] + b[1..];
    }
  }

  lemma {:induction false} TailElements(a: seq<File>)
    requires SortedFiles(a) && a != []
    ensures Elements(a[1..]) == Elements(a) - {a[0]}
  {
    assert a == [a[0]] + a[1..];
    assert forall f :: f in a[1..] ==> FileBefore(a[0], f);
  }

  // ----- the builder

  /** Insertion into the ordered set of added files. */
  function InsertFile(fs: seq<File>, f: File): seq<File> {
    if fs == [] || FileBefore(fs[|fs| - 1], f) then fs + [f]
    else if fs[|fs| - 1] == f then fs
    else InsertFile(fs[..|fs| - 1], f) + [fs[|fs| - 1]]
  }

  lemma {:induction false} InsertFileSorted(fs: seq<File>, f: File)
    requires SortedFiles(fs)
    ensures SortedFiles(InsertFile(fs, f)) && Elements(InsertFile(fs, f)) == Elements(fs) + {f}
    decreases |fs|
  {
    if fs != [] && !FileBefore(fs[|fs| - 1], f) && fs[|fs| - 1] != f {
      var init, last := fs[..|fs| - 1], fs[|fs| - 1];
      InsertFileSorted(init, f);
      var r := InsertFile(init, f);
      assert fs == init + [last];
      assert forall g :: g in r ==> g in Elements(r);
      forall g | g in r
        ensures FileBefore(g, last)
      {
        assert g in Elements(init) || g == f;
      }
      assert Elements(r + [last]) == Elements(r) + {last};
    } else if fs == [] || FileBefore(fs[|fs| - 1], f) {
      assert forall j :: 0 <= j < |fs| - 1 ==> FileBefore(fs[j], fs[|fs| - 1]);
    }
  }

  /** Numbers that have been used at each level. */
  type Used = seq<set<nat>>

  /** An edit's new files have numbers their level has not seen. */
  ghost predicate FreshAt(used: Used, c: Change, k: nat)
    requires k < |c.added|
  {
    && c.added[k].0 < |used|
    && c.added[k].1.number !in used[c.added[k].0]
    && forall j: nat :: j < k && c.added[j].0 == c.added[k].0 ==> c.added[j].1.number != c.added[k].1.number
  }

  ghost predicate Fresh(used: Used, c: Change) {
    && (forall k: nat :: k < |c.added| ==> FreshAt(used, c, k))
    && (forall d :: d in c.deleted ==> d.0 < |used|)
  }

  ghost function NewFiles(c: Change, k: nat, l: nat): set<File>
    requires k <= |c.added|
  {
    set j: nat | j < k && c.added[j].0 == l :: c.added[j].1
  }

  /** The files of a level after an edit. */
  ghost function After(files: set<File>, c: Change, l: nat): set<File> {
    Undeleted(files, c, l) + NewFiles(c, |c.added|, l)
  }

  ghost function Undeleted(files: set<File>, c: Change, l: nat): set<File> {
    set f | f in files && (l, f.number) !in c.deleted
  }

  ghost function DeletedAt(c: Change, l: nat): set<nat> {
    set d | d in c.deleted && d.0 == l :: d.1
  }

  /** The numbers used once an edit is in. */
  ghost function Use(used: Used, c: Change): Used {
    seq(|used|, l requires 0 <= l < |used| => used[l] + Numbers(NewFiles(c, |c.added|, l)))
  }

  lemma {:induction false} NewFilesStep(c: Change, k: nat, l: nat)
    requires k < |c.added|
    ensures NewFiles(c, k + 1, l) == NewFiles(c, k, l) + if c.added[k].0 == l then {c.added[k].1} else {}
  {
  }

  /** A file that an edit brings back: it was marked, and its number is added with
      another file. */
  ghost predicate Revives(all: set<File>, deleted: set<nat>, c: Change, l: nat, g: File) {
    var more := NewFiles(c, |c.added|, l);
    g in all && g.number in deleted + DeletedAt(c, l) && g.number in Numbers(more) && g !in more
  }

  /** Adding a file lifts the mark of its number.  What a builder then lists is what the
      edit means if and only if the edit brings back no marked file. */
  lemma {:induction false} ApplyMeansEditIff(all: set<File>, deleted: set<nat>, c: Change, l: nat)
    ensures var more := NewFiles(c, |c.added|, l);
      Kept(all + more, deleted + DeletedAt(c, l) - Numbers(more)) == After(Kept(all, deleted), c, l)
      <==> !exists g :: Revives(all, deleted, c, l, g)
  {
    var more := NewFiles(c, |c.added|, l);
    var lists, means := Kept(all + more, deleted + DeletedAt(c, l) - Numbers(more)), After(Kept(all, deleted), c, l);
    forall g
      ensures g in lists <==> g in means || Revives(all, deleted, c, l, g)
    {
      assert g in more ==> g.number in Numbers(more);
      assert (l, g.number) in c.deleted ==> g.number in DeletedAt(c, l);
    }
    if g :| Revives(all, deleted, c, l, g) {
      assert g in lists && g !in means;
    }
  }

  lemma {:induction false} FreshRevivesNothing(all: set<File>, deleted: set<nat>, c: Change, l: nat, used: Used)
    requires Fresh(used, c) && l < |used| && Numbers(all) <= used[l]
    ensures !exists g :: Revives(all, deleted, c, l, g)
    ensures all !! NewFiles(c, |c.added|, l)
  {
    forall f | f in NewFiles(c, |c.added|, l)
      ensures f.number !in used[l]
    {
      var k: nat :| k < |c.added| && c.added[k].0 == l && c.added[k].1 == f;
      assert FreshAt(used, c, k);
    }
    assert forall g :: g in all ==> g.number in Numbers(all);
  }

  class Builder {
    const base: Version
    var deleted: seq<set<nat>>
    var added: seq<seq<File>>

    ghost predicate Valid()
      reads this
    {
      && |deleted| == |added| == |base|
      && forall l: nat :: l < |base| ==> SortedFiles(base[l]) && SortedFiles(added[l]) && Elements(base[l]) !! Elements(added[l])
    }

    /** The files of a level in the base and in the added set, marked or not. */
    ghost function All(l: nat): set<File>
      requires |added| == |base| && l < |base|
      reads this
    {
      Elements(base[l]) + Elements(added[l])
    }

    /** The files a save would list. */
    ghost function View(l: nat): set<File>
      requires |deleted| == |added| == |base| && l < |base|
      reads this
    {
      Kept(All(l), deleted[l])
    }

    constructor (base: Version)
      requires forall l :: 0 <= l < |base| ==> SortedFiles(base[l])
      ensures Valid() && this.base == base
      ensures forall l: nat :: l < |base| ==> All(l) == Elements(base[l]) && deleted[l] == {}
    {
      this.base := base;
      deleted := seq(|base|, _ => {});
      added := seq(|base|, _ => []);
      new;
      assert forall l: nat :: l < |base| ==> Elements(base[l]) + Elements([]) == Elements(base[l]);
    }

    /** The second loop of Apply: mark numbers as deleted. */
    method Delete(numbers: set<(nat, nat)>)
      requires |deleted| == |base| && forall d :: d in numbers ==> d.0 < |base|
      modifies this`deleted
      ensures |deleted| == |base|
      ensures forall l: nat :: l < |base| ==> deleted[l] == old(deleted[l]) + set d | d in numbers && d.0 == l :: d.1
    {
      var left := numbers;
      while left != {}
        invariant left <= numbers && |deleted| == |base|
        invariant forall l: nat :: l < |base| ==>
            deleted[l] == old(deleted[l]) + set d | d in numbers - left && d.0 == l :: d.1
        decreases left
      {
        var d :| d in left;
        left := left - {d};
        deleted := deleted[d.0 := deleted[d.0] + {d.1}];
      }
    }

    /** One turn of the third loop of Apply. */
    method AddFile(level: nat, f: File)
      requires Valid() && level < |base| && f !in base[level]
      modifies this
      ensures Valid()
      ensures forall l: nat :: l < |base| ==>
        && All(l) == old(All(l)) + (if l == level then {f} else {})
        && deleted[l] == old(deleted[l]) - if l == level then {f.number} else {}
    {
      InsertFileSorted(added[level], f);
      deleted := deleted[level := deleted[level] - {f.number}];
      added := added[level := InsertFile(added[level], f)];
    }

    /** Apply: deletions first, then additions, each of which lifts its number's mark. */
    method Apply(c: Change)
      requires Valid() && (forall d :: d in c.deleted ==> d.0 < |base|)
      requires forall k :: 0 <= k < |c.added| ==> c.added[k].0 < |base| && c.added[k].1 !in base[c.added[k].0]
      modifies this
      ensures Valid()
      ensures forall l: nat :: l < |base| ==>
        && All(l) == old(All(l)) + NewFiles(c, |c.added|, l)
        && deleted[l] == old(deleted[l]) + DeletedAt(c, l) - Numbers(NewFiles(c, |c.added|, l))
    {
      Delete(c.deleted);
      for i := 0 to |c.added|
        invariant Valid()
        invariant forall l: nat :: l < |base| ==>
          && All(l) == old(All(l)) + NewFiles(c, i, l)
          && deleted[l] == old(deleted[l]) + DeletedAt(c, l) - Numbers(NewFiles(c, i, l))
      {
        AddFile(c.added[i].0, c.added[i].1);
        forall l: nat | l < |base|
          ensures NewFiles(c, i + 1, l) == NewFiles(c, i, l) + if c.added[i].0 == l then {c.added[i].1} else {}
        {
          NewFilesStep(c, i, l);
        }
      }
    }

    method SaveTo() returns (v: Version)
      requires Valid()
      ensures |v| == |base|
      ensures forall l: nat :: l < |base| ==> SortedFiles(v[l]) && Elements(v[l]) == View(l)
      ensures forall l: nat :: l < |base| ==> KeysUp(v[l])
    {
      v := [];
      for l := 0 to |base|
        invariant |v| == l
        invariant forall m: nat :: m < l ==> SortedFiles(v[m]) && Elements(v[m]) == View(m)
      {
        var out := SaveLevel(base[l], added[l], deleted[l]);
        v := v + [out];
      }
    }
  }

  // ----- one builder for many edits

  /** The numbers used after a run of edits. */
  ghost function UseAll(used: Used, cs: seq<Change>): Used {
    if cs == [] then used else Use(UseAll(used, cs[..|cs| - 1]), cs[|cs| - 1])
  }

  /** No edit adds a file whose number its level has seen. */
  ghost predicate FreshRun(used: Used, cs: seq<Change>) {
    forall i: nat :: i < |cs| ==> Fresh(UseAll(used, cs[..i]), cs[i])
  }

  /** The files of a level after a run of edits, one edit at a time. */
  ghost function AfterAll(files: set<File>, cs: seq<Change>, l: nat): set<File> {
    if cs == [] then files else After(AfterAll(files, cs[..|cs| - 1], l), cs[|cs| - 1], l)
  }

  ghost predicate Sound(v: Version, used: Used) {
    |v| == |used| && forall l: nat :: l < |v| ==> SortedFiles(v[l]) && Numbers(Elements(v[l])) <= used[l]
  }

  /** A fresh edit can be applied, and then the builder lists what the edit means. */
  lemma {:induction false} FreshMeansEdit(base: seq<File>, all: set<File>, deleted: set<nat>, c: Change, l: nat, used: Used)
    requires Fresh(used, c) && l < |used| && Numbers(all) <= used[l] && Elements(base) <= all
    ensures var more := NewFiles(c, |c.added|, l);
      && Kept(all + more, deleted + DeletedAt(c, l) - Numbers(more)) == After(Kept(all, deleted), c, l)
      && Numbers(all + more) <= Use(used, c)[l]
    ensures forall k :: 0 <= k < |c.added| && c.added[k].0 == l ==> c.added[k].1 !in base
  {
    FreshRevivesNothing(all, deleted, c, l, used);
    ApplyMeansEditIff(all, deleted, c, l);
    forall k: nat | k < |c.added| && c.added[k].0 == l
      ensures c.added[k].1 !in base
    {
      assert c.added[k].1 in NewFiles(c, |c.added|, l);
      assert forall g :: g in base ==> g in Elements(base);
    }
  }

  /** VersionSet::Recover: all edits into one builder, one save. */
  method Recover(base: Version, cs: seq<Change>, ghost used: Used) returns (v: Version)
    requires Sound(base, used) && FreshRun(used, cs)
    ensures |v| == |base|
    ensures forall l: nat :: l < |base| ==> SortedFiles(v[l]) && Elements(v[l]) == AfterAll(Elements(base[l]), cs, l)
    ensures forall l: nat :: l < |base| ==> KeysUp(v[l])
  {
    var builder := new Builder(base);
    for i := 0 to |cs|
      invariant fresh(builder) && builder.base == base && builder.Valid() && |UseAll(used, cs[..i])| == |base|
      invariant forall l: nat :: l < |base| ==>
        && builder.View(l) == AfterAll(Elements(base[l]), cs[..i], l)
        && Numbers(builder.All(l)) <= UseAll(used, cs[..i])[l]
    {
      assert cs[..i + 1][..i] == cs[..i];
      ghost var u := UseAll(used, cs[..i]);
      assert Fresh(u, cs[i]);
      forall k | 0 <= k < |cs[i].added|
        ensures cs[i].added[k].0 < |base| && cs[i].added[k].1 !in base[cs[i].added[k].0]
      {
        assert FreshAt(u, cs[i], k);
        var l := cs[i].added[k].0;
        FreshMeansEdit(base[l], builder.All(l), builder.deleted[l], cs[i], l, u);
      }
      forall l: nat | l < |base|
        ensures var more := NewFiles(cs[i], |cs[i].added|, l);
          && Kept(builder.All(l) + more, builder.deleted[l] + DeletedAt(cs[i], l) - Numbers(more)) == After(builder.View(l), cs[i], l)
          && Numbers(builder.All(l) + more) <= Use(u, cs[i])[l]
      {
        FreshMeansEdit(base[l], builder.All(l), builder.deleted[l], cs[i], l, u);
      }
      builder.Apply(cs[i]);
    }
    assert cs[..|cs|] == cs;
    v := builder.SaveTo();
  }

  /** One edit over a version: what LogAndApply does. */
  method ApplyOne(v: Version, c: Change, ghost used: Used) returns (next: Version)
    requires Sound(v, used) && Fresh(used, c)
    ensures |next| == |v| && Sound(next, Use(used, c))
    ensures forall l: nat :: l < |v| ==> Elements(next[l]) == After(Elements(v[l]), c, l)
  {
    next := Recover(v, [c], used) by {
      assert [c][..0] == [];
      assert FreshRun(used, [c]);
    }
    forall l: nat | l < |v|
      ensures Elements(next[l]) == After(Elements(v[l]), c, l) && Numbers(Elements(next[l])) <= Use(used, c)[l]
    {
      assert [c][..0] == [];
      assert AfterAll(Elements(v[l]), [c], l) == After(AfterAll(Elements(v[l]), [], l), c, l);
      NumbersAfter(Elements(v[l]), c, l, used);
    }
  }

  lemma {:induction false} NumbersAfter(files: set<File>, c: Change, l: nat, used: Used)
    requires l < |used| && Numbers(files) <= used[l]
    ensures Numbers(After(files, c, l)) <= Use(used, c)[l]
  {
  }

  /** LogAndApply: a builder over the current version and a save for each edit. */
  method ApplyEach(base: Version, cs: seq<Change>, ghost used: Used) returns (v: Version)
    requires Sound(base, used) && FreshRun(used, cs)
    ensures |v| == |base|
    ensures forall l: nat :: l < |base| ==> SortedFiles(v[l]) && Elements(v[l]) == AfterAll(Elements(base[l]), cs, l)
    ensures forall l: nat :: l < |base| ==> KeysUp(v[l])
  {
    v := base;
    for i := 0 to |cs|
      invariant |v| == |base| && Sound(v, UseAll(used, cs[..i]))
      invariant forall l: nat :: l < |base| ==> Elements(v[l]) == AfterAll(Elements(base[l]), cs[..i], l)
    {
      assert cs[..i + 1][..i] == cs[..i];
      v := ApplyOne(v, cs[i], UseAll(used, cs[..i]));
    }
    assert cs[..|cs|] == cs;
  }

  /** Recovery rebuilds the live version: one save of all edits is the same version, file
      for file and in the same order, as a save after each. */
  method RecoverIsLive(base: Version, cs: seq<Change>, ghost used: Used) returns (recovered: Version, live: Version)
    requires Sound(base, used) && FreshRun(used, cs)
    ensures recovered == live
    ensures forall l: nat :: l < |live| ==> SortedFiles(live[l]) && KeysUp(live[l])
  {
    recovered := Recover(base, cs, used);
    live := ApplyEach(base, cs, used);
    forall l: nat | l < |base|
      ensures recovered[l] == live[l]
    {
      SortedUnique(recovered[l], live[l]);
    }
  }

  /** Why a number must not come back to a level it left: a builder that takes the
      deletion and then another file of that number lists both, where a save after
      the deletion and a new builder list the new one alone. */
  method ReturningNumberRevivesFile(g: File, f: File) returns (once: Version, twice: Version)
    requires g.number == f.number && g != f
    ensures |once| == |twice| == 1 && Elements(once[0]) == {g, f} && Elements(twice[0]) == {f}
  {
    var gone, back := Change({(0, g.number)}, []), Change({}, [(0, f)]);
    assert NewFiles(gone, 0, 0) == {} && DeletedAt(gone, 0) == {g.number};
    assert back.added[0] == (0, f) && NewFiles(back, 1, 0) == {f} && DeletedAt(back, 0) == {};
    var one := new Builder([[g]]);
    one.Apply(gone);
    one.Apply(back);
    once := one.SaveTo();
    var between := OneEdit([[g]], gone);
    assert forall x :: x in between[0] ==> x in Elements(between[0]);
    twice := OneEdit(between, back);
  }

  /** A builder, one edit and a save. */
  method OneEdit(v: Version, c: Change) returns (next: Version)
    requires |v| == 1 && SortedFiles(v[0]) && (forall d :: d in c.deleted ==> d.0 == 0)
    requires forall k :: 0 <= k < |c.added| ==> c.added[k].0 == 0 && c.added[k].1 !in v[0]
    ensures |next| == 1 && SortedFiles(next[0])
    ensures var more := NewFiles(c, |c.added|, 0);
      Elements(next[0]) == Kept(Elements(v[0]) + more, DeletedAt(c, 0) - Numbers(more))
  {
    var builder := new Builder(v);
    builder.Apply(c);
    next := builder.SaveTo();
  }
}
