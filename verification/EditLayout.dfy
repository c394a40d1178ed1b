/** A version edit as bytes, field by field, with the numbers that are on disk. */
module EditLayout {
  import opened Coding
  import opened VersionEdits
  import opened EditCodec

  ghost function Cat(chunks: seq<Bytes>): Bytes {
    if chunks == [] then [] else chunks[0] + Cat(chunks[1..])
  }

  ghost function NumberChunk(tag: byte, n: Option<nat>): seq<Bytes> {
    if n.None? then [] else [[tag] + Varint(n.value)]
  }

  ghost function NewFileChunk(level: nat, f: FileMeta): Bytes {
    [7] + (Varint(level) + (Varint(f.number) + (Varint(f.size) + (Prefixed(f.smallest) + Prefixed(f.largest)))))
  }

  ghost function PointerChunks(ps: seq<(nat, Bytes)>): seq<Bytes> {
    seq(|ps|, i requires 0 <= i < |ps| => [5] + (Varint(ps[i].0) + Prefixed(ps[i].1)))
  }

  ghost function DeletedChunks(ds: seq<(nat, nat)>): seq<Bytes> {
    seq(|ds|, i requires 0 <= i < |ds| => [6] + (Varint(ds[i].0) + Varint(ds[i].1)))
  }

  ghost function NewFileChunks(fs: seq<(nat, FileMeta)>): seq<Bytes> {
    seq(|fs|, i requires 0 <= i < |fs| => NewFileChunk(fs[i].0, fs[i].1))
  }

  /** Comparator, log number, previous log number, next file number and last sequence,
      each if it is there, then pointers, deleted files and new files. */
  ghost function Chunks(e: Edit): seq<Bytes> {
    (if e.comparator.None? then [] else [[1] + Prefixed(e.comparator.value)])
    + NumberChunk(2, e.logNumber) + NumberChunk(9, e.prevLogNumber) + NumberChunk(3, e.nextFileNumber) + NumberChunk(4, e.lastSequence)
    + (PointerChunks(e.compactPointers) + (DeletedChunks(e.deleted) + NewFileChunks(e.newFiles)))
  }

  ghost function Each(fs: seq<Field>): seq<Bytes> {
    seq(|fs|, i requires 0 <= i < |fs| => FieldBytes(fs[i]))
  }

  lemma {:induction false} FieldsAreCat(fs: seq<Field>)
    ensures FieldsBytes(fs) == Cat(Each(fs))
  {
    if fs != [] {
      FieldsAreCat(fs[1..]);
      assert Each(fs)[1..] == Each(fs[1..]);
    }
  }

  lemma {:induction false} SmallTag(tag: nat, parts: seq<Part>)
    requires tag < 128
    ensures FieldBytes(Field(tag, parts)) == [tag] + PartsBytes(parts)
  {
  }

  lemma {:induction false} OnePart(p: Part)
    ensures PartsBytes([p]) == PartBytes(p)
  {
    assert PartsBytes([]) == [] && [p][1..] == [];
    assert PartBytes(p) + [] == PartBytes(p);
  }

  lemma {:induction false} TwoParts(p: Part, q: Part)
    ensures PartsBytes([p, q]) == PartBytes(p) + PartBytes(q)
  {
    OnePart(q);
    assert [p, q][1..] == [q];
  }

  lemma {:induction false} OneMore(p: Part, ps: seq<Part>)
    ensures PartsBytes([p] + ps) == PartBytes(p) + PartsBytes(ps)
  {
    assert ([p] + ps)[1..] == ps;
  }

  lemma {:induction false} FiveParts(p: Part, q: Part, r: Part, s: Part, t: Part)
    ensures PartsBytes([p, q, r, s, t]) == PartBytes(p) + (PartBytes(q) + (PartBytes(r) + (PartBytes(s) + PartBytes(t))))
  {
    TwoParts(s, t);
    OneMore(r, [s, t]);
    OneMore(q, [r, s, t]);
    OneMore(p, [q, r, s, t]);
    assert [r] + [s, t] == [r, s, t] && [q] + [r, s, t] == [q, r, s, t] && [p] + [q, r, s, t] == [p, q, r, s, t];
  }

  lemma {:induction false} PointerChunk(p: (nat, Bytes))
    ensures FieldBytes(PointerField(p)) == [5] + (Varint(p.0) + Prefixed(p.1))
  {
    TwoParts(LevelPart(p.0), TextPart(p.1));
    SmallTag(5, [LevelPart(p.0), TextPart(p.1)]);
  }

  lemma {:induction false} PointersEach(ps: seq<(nat, Bytes)>)
    ensures Each(PointerFields(ps)) == PointerChunks(ps)
  {
    forall i | 0 <= i < |ps|
      ensures Each(PointerFields(ps))[i] == PointerChunks(ps)[i]
    {
      PointerChunk(ps[i]);
    }
  }

  lemma {:induction false} DeletedChunk(d: (nat, nat))
    ensures FieldBytes(DeletedField(d)) == [6] + (Varint(d.0) + Varint(d.1))
  {
    TwoParts(LevelPart(d.0), NumberPart(d.1));
    SmallTag(6, [LevelPart(d.0), NumberPart(d.1)]);
  }

  lemma {:induction false} DeletedEach(ds: seq<(nat, nat)>)
    ensures Each(DeletedFields(ds)) == DeletedChunks(ds)
  {
    forall i | 0 <= i < |ds|
      ensures Each(DeletedFields(ds))[i] == DeletedChunks(ds)[i]
    {
      DeletedChunk(ds[i]);
    }
  }

  lemma {:induction false} NewFileChunkOf(f: (nat, FileMeta))
    ensures FieldBytes(NewFileField(f)) == NewFileChunk(f.0, f.1)
  {
    FiveParts(LevelPart(f.0), NumberPart(f.1.number), NumberPart(f.1.size), TextPart(f.1.smallest), TextPart(f.1.largest));
    SmallTag(7, NewFileField(f).parts);
  }

  lemma {:induction false} NewFilesEach(fs: seq<(nat, FileMeta)>)
    ensures Each(NewFileFields(fs)) == NewFileChunks(fs)
  {
    forall i | 0 <= i < |fs|
      ensures Each(NewFileFields(fs))[i] == NewFileChunks(fs)[i]
    {
      NewFileChunkOf(fs[i]);
    }
  }

  lemma {:induction false} NumberChunkOf(tag: nat, n: Option<nat>)
    requires tag < 128
    ensures Each(NumberField(tag, n)) == NumberChunk(tag, n)
  {
    if n.Some? {
      OnePart(NumberPart(n.value));
      SmallTag(tag, [NumberPart(n.value)]);
    }
  }

  lemma {:induction false} HeadChunks(e: Edit)
    ensures Each(HeadFields(e)) == (if e.comparator.None? then [] else [[1] + Prefixed(e.comparator.value)])
      + NumberChunk(2, e.logNumber) + NumberChunk(9, e.prevLogNumber) + NumberChunk(3, e.nextFileNumber) + NumberChunk(4, e.lastSequence)
  {
    NumberChunkOf(2, e.logNumber);
    NumberChunkOf(9, e.prevLogNumber);
    NumberChunkOf(3, e.nextFileNumber);
    NumberChunkOf(4, e.lastSequence);
    if e.comparator.Some? {
      OnePart(TextPart(e.comparator.value));
      SmallTag(1, [TextPart(e.comparator.value)]);
    }
    EachConcat(NumberField(3, e.nextFileNumber), NumberField(4, e.lastSequence));
    EachConcat(NumberField(9, e.prevLogNumber), NumberField(3, e.nextFileNumber) + NumberField(4, e.lastSequence));
    EachConcat(NumberField(2, e.logNumber), TailFields(e));
    EachConcat(ComparatorField(e.comparator), NumberField(2, e.logNumber) + TailFields(e));
    assert Each(ComparatorField(e.comparator)) == if e.comparator.None? then [] else [[1] + Prefixed(e.comparator.value)];
  }

  lemma {:induction false} EachConcat(a: seq<Field>, b: seq<Field>)
    ensures Each(a + b) == Each(a) + Each(b)
  {
  }

  /** What EncodeTo writes. */
  lemma {:induction false} EditOnDisk(e: Edit)
    ensures FieldsBytes(FieldsOf(e)) == Cat(Chunks(e))
  {
    var h, p, d, n := HeadFields(e), PointerFields(e.compactPointers), DeletedFields(e.deleted), NewFileFields(e.newFiles);
    FieldsAreCat(FieldsOf(e));
    HeadChunks(e);
    EachConcat(d, n);
    EachConcat(p, d + n);
    EachConcat(h, p + (d + n));
    PointersEach(e.compactPointers);
    DeletedEach(e.deleted);
    NewFilesEach(e.newFiles);
    assert Each(FieldsOf(e)) == Chunks(e);
  }
}
