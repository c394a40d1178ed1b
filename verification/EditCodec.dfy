/** VersionEdit::EncodeTo and DecodeFrom (db/version_edit.cc). */
module EditCodec {
  import opened Coding
  import opened VersionEdits

  datatype FileMeta = FileMeta(number: nat, size: nat, smallest: Bytes, largest: Bytes)

  /** An edit's fields; the set of deleted files is kept in its order. */
  datatype Edit = Edit(
    comparator: Option<Bytes>,
    logNumber: Option<nat>,
    prevLogNumber: Option<nat>,
    nextFileNumber: Option<nat>,
    lastSequence: Option<nat>,
    compactPointers: seq<(nat, Bytes)>,
    deleted: seq<(nat, nat)>,
    newFiles: seq<(nat, FileMeta)>)

  predicate PairLess(a: (nat, nat), b: (nat, nat)) {
    a.0 < b.0 || (a.0 == b.0 && a.1 < b.1)
  }

  ghost predicate IsSet(ds: seq<(nat, nat)>) {
    forall i, j :: 0 <= i < j < |ds| ==> PairLess(ds[i], ds[j])
  }

  /** Insertion into the ordered set. */
  function Insert(ds: seq<(nat, nat)>, d: (nat, nat)): seq<(nat, nat)> {
    if ds == [] || PairLess(ds[|ds| - 1], d) then ds + [d]
    else if ds[|ds| - 1] == d then ds
    else Insert(ds[..|ds| - 1], d) + [ds[|ds| - 1]]
  }

  // ----- an edit as fields

  function ComparatorField(name: Option<Bytes>): seq<Field> {
    if name.None? then [] else [Field(COMPARATOR, [TextPart(name.value)])]
  }

  function NumberField(tag: nat, n: Option<nat>): seq<Field> {
    if n.None? then [] else [Field(tag, [NumberPart(n.value)])]
  }

  function HeadFields(e: Edit): seq<Field> {
    ComparatorField(e.comparator) + (NumberField(LOG_NUMBER, e.logNumber) + TailFields(e))
  }

  function TailFields(e: Edit): seq<Field> {
    NumberField(PREV_LOG_NUMBER, e.prevLogNumber) +
    (NumberField(NEXT_FILE_NUMBER, e.nextFileNumber) + NumberField(LAST_SEQUENCE, e.lastSequence))
  }

  function PointerField(p: (nat, Bytes)): Field {
    Field(COMPACT_POINTER, [LevelPart(p.0), TextPart(p.1)])
  }

  function DeletedField(d: (nat, nat)): Field {
    Field(DELETED_FILE, [LevelPart(d.0), NumberPart(d.1)])
  }

  function NewFileField(f: (nat, FileMeta)): Field {
    Field(NEW_FILE, [LevelPart(f.0), NumberPart(f.1.number), NumberPart(f.1.size),
                     TextPart(f.1.smallest), TextPart(f.1.largest)])
  }

  function PointerFields(ps: seq<(nat, Bytes)>): seq<Field> {
    seq(|ps|, i requires 0 <= i < |ps| => PointerField(ps[i]))
  }

  function DeletedFields(ds: seq<(nat, nat)>): seq<Field> {
    seq(|ds|, i requires 0 <= i < |ds| => DeletedField(ds[i]))
  }

  function NewFileFields(fs: seq<(nat, FileMeta)>): seq<Field> {
    seq(|fs|, i requires 0 <= i < |fs| => NewFileField(fs[i]))
  }

  function FieldsOf(e: Edit): seq<Field> {
    HeadFields(e) + (PointerFields(e.compactPointers) + (DeletedFields(e.deleted) + NewFileFields(e.newFiles)))
  }

  // ----- reading fields into an edit

  /** VersionEdit::Clear, which leaves the compaction pointers alone. */
  function Cleared(e: Edit): Edit {
    Edit(None, None, None, None, None, e.compactPointers, [], [])
  }

  function Set(e: Edit, f: Field): Edit
    requires FieldFits(Signature, f)
  {
    if f.tag == COMPARATOR then e.(comparator := Some(f.parts[0].text))
    else if f.tag == LOG_NUMBER then e.(logNumber := Some(f.parts[0].number))
    else if f.tag == PREV_LOG_NUMBER then e.(prevLogNumber := Some(f.parts[0].number))
    else if f.tag == NEXT_FILE_NUMBER then e.(nextFileNumber := Some(f.parts[0].number))
    else if f.tag == LAST_SEQUENCE then e.(lastSequence := Some(f.parts[0].number))
    else if f.tag == COMPACT_POINTER then
      e.(compactPointers := e.compactPointers + [(f.parts[0].level, f.parts[1].text)])
    else if f.tag == DELETED_FILE then e.(deleted := Insert(e.deleted, (f.parts[0].level, f.parts[1].number)))
    else e.(newFiles := e.newFiles + [(f.parts[0].level,
                                       FileMeta(f.parts[1].number, f.parts[2].number, f.parts[3].text, f.parts[4].text))])
  }

  ghost predicate AllFit(fs: seq<Field>) {
    forall f :: f in fs ==> FieldFits(Signature, f)
  }

  ghost function SetAll(e: Edit, fs: seq<Field>): Edit
    requires AllFit(fs)
    decreases |fs|
  {
    if fs == [] then e else SetAll(Set(e, fs[0]), fs[1..])
  }

  lemma {:induction false} SetAllConcat(e: Edit, a: seq<Field>, b: seq<Field>)
    requires AllFit(a) && AllFit(b)
    ensures AllFit(a + b) && SetAll(e, a + b) == SetAll(SetAll(e, a), b)
    decreases |a|
  {
    if a == [] {
      assert a + b == b;
    } else {
      assert (a + b)[0] == a[0] && (a + b)[1..] == a[1..] + b;
      SetAllConcat(Set(e, a[0]), a[1..], b);
    }
  }

  lemma {:induction false} SetOne(e: Edit, f: Field)
    requires FieldFits(Signature, f)
    ensures AllFit([f]) && SetAll(e, [f]) == Set(e, f)
  {
    assert [f][1..] == [];
    assert SetAll(Set(e, f), []) == Set(e, f);
  }

  /** What an edit must satisfy to be written: levels exist, numbers and lengths fit. */
  ghost predicate Writable(e: Edit) {
    && AllFit(HeadFields(e))
    && AllFit(PointerFields(e.compactPointers))
    && AllFit(DeletedFields(e.deleted))
    && AllFit(NewFileFields(e.newFiles))
    && IsSet(e.deleted)
  }

  lemma {:induction false} SetPointers(e: Edit, ps: seq<(nat, Bytes)>)
    requires AllFit(PointerFields(ps))
    ensures SetAll(e, PointerFields(ps)) == e.(compactPointers := e.compactPointers + ps)
    decreases |ps|
  {
    if ps == [] {
      assert e.compactPointers + ps == e.compactPointers;
    } else {
      var f, rest := PointerField(ps[0]), PointerFields(ps[1..]);
      assert PointerFields(ps)[0] == f && PointerFields(ps)[1..] == rest;
      assert f in PointerFields(ps);
      assert forall g :: g in rest ==> g in PointerFields(ps);
      SetPointers(Set(e, f), ps[1..]);
      assert e.compactPointers + [ps[0]] + ps[1..] == e.compactPointers + ps;
    }
  }

  lemma {:induction false} SetDeleted(e: Edit, ds: seq<(nat, nat)>)
    requires AllFit(DeletedFields(ds)) && IsSet(e.deleted + ds)
    ensures SetAll(e, DeletedFields(ds)) == e.(deleted := e.deleted + ds)
    decreases |ds|
  {
    if ds == [] {
      assert e.deleted + ds == e.deleted;
    } else {
      var f, rest, n := DeletedField(ds[0]), DeletedFields(ds[1..]), |e.deleted|;
      assert DeletedFields(ds)[0] == f && DeletedFields(ds)[1..] == rest;
      assert f in DeletedFields(ds);
      assert forall g :: g in rest ==> g in DeletedFields(ds);
      assert n > 0 ==> PairLess((e.deleted + ds)[n - 1], (e.deleted + ds)[n]);
      assert Insert(e.deleted, ds[0]) == e.deleted + [ds[0]];
      assert e.deleted + [ds[0]] + ds[1..] == e.deleted + ds;
      SetDeleted(Set(e, f), ds[1..]);
    }
  }

  lemma {:induction false} SetNewFiles(e: Edit, fs: seq<(nat, FileMeta)>)
    requires AllFit(NewFileFields(fs))
    ensures SetAll(e, NewFileFields(fs)) == e.(newFiles := e.newFiles + fs)
    decreases |fs|
  {
    if fs == [] {
      assert e.newFiles + fs == e.newFiles;
    } else {
      var f, rest := NewFileField(fs[0]), NewFileFields(fs[1..]);
      assert NewFileFields(fs)[0] == f && NewFileFields(fs)[1..] == rest;
      assert f in NewFileFields(fs);
      assert forall g :: g in rest ==> g in NewFileFields(fs);
      assert fs[0] == (fs[0].0, FileMeta(fs[0].1.number, fs[0].1.size, fs[0].1.smallest, fs[0].1.largest));
      SetNewFiles(Set(e, f), fs[1..]);
      assert e.newFiles + [fs[0]] + fs[1..] == e.newFiles + fs;
    }
  }

  /** A section of at most one field, then the rest. */
  lemma {:induction false} SetThen(e: Edit, fs: seq<Field>, rest: seq<Field>)
    requires AllFit(fs + rest) && |fs| <= 1
    ensures AllFit(fs) && AllFit(rest)
    ensures SetAll(e, fs + rest) == SetAll(if fs == [] then e else Set(e, fs[0]), rest)
  {
    assert forall f :: f in fs || f in rest ==> f in fs + rest;
    SetAllConcat(e, fs, rest);
    if fs != [] {
      assert fs == [fs[0]];
      SetOne(e, fs[0]);
    }
  }

  lemma {:induction false} SetTail(e: Edit, base: Edit)
    requires AllFit(TailFields(e)) && base.prevLogNumber == None && base.nextFileNumber == None && base.lastSequence == None
    ensures SetAll(base, TailFields(e)) ==
            base.(prevLogNumber := e.prevLogNumber, nextFileNumber := e.nextFileNumber, lastSequence := e.lastSequence)
  {
    var c, d := NumberField(PREV_LOG_NUMBER, e.prevLogNumber), NumberField(NEXT_FILE_NUMBER, e.nextFileNumber);
    var g := NumberField(LAST_SEQUENCE, e.lastSequence);
    var e1 := base.(prevLogNumber := e.prevLogNumber);
    var e2 := e1.(nextFileNumber := e.nextFileNumber);
    SetThen(base, c, d + g);
    assert SetAll(base, TailFields(e)) == SetAll(e1, d + g);
    SetThen(e1, d, g);
    assert SetAll(e1, d + g) == SetAll(e2, g);
    if g != [] {
      SetOne(e2, g[0]);
    }
  }

  lemma {:induction false} SetHead(e: Edit, was: Edit)
    requires AllFit(HeadFields(e))
    ensures SetAll(Cleared(was), HeadFields(e)) ==
            Edit(e.comparator, e.logNumber, e.prevLogNumber, e.nextFileNumber, e.lastSequence, was.compactPointers, [], [])
  {
    var a, b := ComparatorField(e.comparator), NumberField(LOG_NUMBER, e.logNumber);
    var e0 := Cleared(was);
    SetThen(e0, a, b + TailFields(e));
    var e1 := e0.(comparator := e.comparator);
    SetThen(e1, b, TailFields(e));
    SetTail(e, e1.(logNumber := e.logNumber));
  }

  /** Reading an edit's fields back gives the edit, behind whatever compaction pointers
      the target already had. */
  lemma {:induction false} SetFields(e: Edit, was: Edit)
    requires Writable(e)
    ensures AllFit(FieldsOf(e))
    ensures SetAll(Cleared(was), FieldsOf(e)) == e.(compactPointers := was.compactPointers + e.compactPointers)
  {
    var h, p, d, n := HeadFields(e), PointerFields(e.compactPointers), DeletedFields(e.deleted), NewFileFields(e.newFiles);
    SetHead(e, was);
    var e1 := SetAll(Cleared(was), h);
    SetAllConcat(e1, d, n);
    SetAllConcat(e1, p, d + n);
    SetAllConcat(Cleared(was), h, p + (d + n));
    SetPointers(e1, e.compactPointers);
    var e2 := SetAll(e1, p);
    SetAllConcat(e2, d, n);
    assert e2.deleted + e.deleted == e.deleted;
    SetDeleted(e2, e.deleted);
    var e3 := SetAll(e2, d);
    SetNewFiles(e3, e.newFiles);
    assert e3.newFiles + e.newFiles == e.newFiles;
  }

  /** What DecodeFrom leaves in an edit that held "was". */
  ghost function Decoded(was: Edit, src: Bytes): (Edit, bool)
    requires AllFit(ParseFields(Signature, src).0)
  {
    (SetAll(Cleared(was), ParseFields(Signature, src).0), ParseFields(Signature, src).1)
  }

  /** Encoding then decoding gives the edit back if and only if the target had no
      compaction pointers, as a fresh edit has none. */
  lemma {:induction false} EditRoundTrip(e: Edit, was: Edit)
    requires Writable(e)
    ensures AllFit(ParseFields(Signature, FieldsBytes(FieldsOf(e))).0)
    ensures Decoded(was, FieldsBytes(FieldsOf(e))) == (e, true) <==> was.compactPointers == []
  {
    SetFields(e, was);
    FieldsParse(Signature, FieldsOf(e));
    if was.compactPointers == [] {
      assert was.compactPointers + e.compactPointers == e.compactPointers;
    } else {
      assert |was.compactPointers + e.compactPointers| != |e.compactPointers|;
    }
  }

  class VersionEdit {
    var e: Edit

    constructor ()
      ensures e == Edit(None, None, None, None, None, [], [], [])
    {
      e := Edit(None, None, None, None, None, [], [], []);
    }

    method DecodeFrom(src: Bytes) returns (ok: bool)
      modifies this
      ensures AllFit(ParseFields(Signature, src).0) && (e, ok) == Decoded(old(e), src)
    {
      ParsedFieldsFit(Signature, src);
      e := Cleared(e);
      var input := src;
      ghost var all := Decoded(old(e), src);
      while input != []
        invariant AllFit(ParseFields(Signature, input).0)
        invariant all == (SetAll(e, ParseFields(Signature, input).0), ParseFields(Signature, input).1)
        decreases |input|
      {
        var r := ReadField(Signature, input);
        if r.None? {
          return false;
        }
        ghost var fs := ParseFields(Signature, input).0;
        assert fs[0] == r.value.0 && fs[1..] == ParseFields(Signature, r.value.1).0;
        assert fs[0] in fs;
        ParsedFieldsFit(Signature, r.value.1);
        e := Set(e, r.value.0);
        input := r.value.1;
      }
      return true;
    }
  }

  /** The fields of an edit, in the order EncodeTo writes them. */
  method EncodeTo(e: Edit) returns (dst: Bytes)
    requires Writable(e)
    ensures dst == FieldsBytes(FieldsOf(e))
  {
    SetFields(e, e);
    dst := [];
    var fields := FieldsOf(e);
    for i := 0 to |fields|
      invariant dst == FieldsBytes(fields[..i])
    {
      assert fields[..i + 1] == fields[..i] + [fields[i]];
      FieldsBytesAppend(fields[..i], fields[i]);
      dst := PutField(dst, fields[i], Signature);
    }
    assert fields[..|fields|] == fields;
  }
}
