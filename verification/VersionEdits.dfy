/** Version edits (db/version_edit.cc): the records of the manifest. */
module VersionEdits {
  import opened Coding
  import Levels

  // ----- tagged fields

  datatype PartKind = Level | Number | Text

  datatype Part = LevelPart(level: nat) | NumberPart(number: nat) | TextPart(text: Bytes)

  datatype Field = Field(tag: nat, parts: seq<Part>)

  const COMPARATOR: nat := 1
  const LOG_NUMBER: nat := 2
  const NEXT_FILE_NUMBER: nat := 3
  const LAST_SEQUENCE: nat := 4
  const COMPACT_POINTER: nat := 5
  const DELETED_FILE: nat := 6
  const NEW_FILE: nat := 7
  const PREV_LOG_NUMBER: nat := 9

  /** What follows each tag, if the tag is known. */
  function Signature(tag: nat): Option<seq<PartKind>> {
    if tag == COMPARATOR then Some([Text])
    else if tag == LOG_NUMBER || tag == PREV_LOG_NUMBER || tag == NEXT_FILE_NUMBER || tag == LAST_SEQUENCE then
      Some([Number])
    else if tag == COMPACT_POINTER then Some([Level, Text])
    else if tag == DELETED_FILE then Some([Level, Number])
    else if tag == NEW_FILE then Some([Level, Number, Number, Text, Text])
    else None
  }

  predicate PartFits(p: Part, kind: PartKind) {
    match kind
    case Level => p.LevelPart? && p.level < Levels.NUM_LEVELS
    case Number => p.NumberPart? && p.number < U64
    case Text => p.TextPart? && |p.text| < U32
  }

  predicate PartsFit(parts: seq<Part>, kinds: seq<PartKind>) {
    |parts| == |kinds| && forall i :: 0 <= i < |parts| ==> PartFits(parts[i], kinds[i])
  }

  /** Which parts follow which tag. */
  type Schema = nat -> Option<seq<PartKind>>

  predicate FieldFits(schema: Schema, f: Field) {
    f.tag < U32 && schema(f.tag).Some? && PartsFit(f.parts, schema(f.tag).value)
  }

  function PartBytes(p: Part): Bytes {
    match p
    case LevelPart(level) => Varint(level)
    case NumberPart(number) => Varint(number)
    case TextPart(text) => Prefixed(text)
  }

  function PartsBytes(parts: seq<Part>): Bytes {
    if parts == [] then [] else PartBytes(parts[0]) + PartsBytes(parts[1..])
  }

  function FieldBytes(f: Field): Bytes {
    Varint(f.tag) + PartsBytes(f.parts)
  }

  function FieldsBytes(fs: seq<Field>): Bytes {
    if fs == [] then [] else FieldBytes(fs[0]) + FieldsBytes(fs[1..])
  }

  // ----- parsing

  function ParsePart(s: Bytes, kind: PartKind): (r: Option<(Part, Bytes)>)
    ensures r.Some? ==> |r.value.1| < |s|
  {
    match kind
    case Level =>
      (match ParseVarint(s, 5)
       case None => None
       case Some((v, n)) => if v % U32 < Levels.NUM_LEVELS then Some((LevelPart(v % U32), s[n..])) else None)
    case Number =>
      (match ParseVarint(s, 10)
       case None => None
       case Some((v, n)) => Some((NumberPart(v % U64), s[n..])))
    case Text =>
      (match ParsePrefixed(s)
       case None => None
       case Some((text, rest)) => Some((TextPart(text), rest)))
  }

  function ParseParts(s: Bytes, kinds: seq<PartKind>): (r: Option<(seq<Part>, Bytes)>)
    ensures r.Some? ==> |r.value.1| <= |s|
    decreases |kinds|
  {
    if kinds == [] then Some(([], s))
    else
      match ParsePart(s, kinds[0])
      case None => None
      case Some((p, rest)) =>
        match ParseParts(rest, kinds[1..])
        case None => None
        case Some((ps, end)) => Some(([p] + ps, end))
  }

  /** What follows a tag with this signature. */
  function ParseBody(tag: nat, signature: Option<seq<PartKind>>, s: Bytes): (r: Option<(Field, Bytes)>)
    ensures r.Some? ==> |r.value.1| <= |s|
  {
    match signature
    case None => None
    case Some(kinds) =>
      match ParseParts(s, kinds)
      case None => None
      case Some((parts, rest)) => Some((Field(tag, parts), rest))
  }

  function ParseField(schema: Schema, s: Bytes): (r: Option<(Field, Bytes)>)
    ensures r.Some? ==> |r.value.1| < |s|
  {
    match ParseVarint(s, 5)
    case None => None
    case Some((v, n)) => ParseBody(v % U32, schema(v % U32), s[n..])
  }

  /** The fields read until the input ends or an error stops the loop. */
  function ParseFields(schema: Schema, s: Bytes): (seq<Field>, bool)
    decreases |s|
  {
    if s == [] then ([], true)
    else
      match ParseField(schema, s)
      case None => ([], false)
      case Some((f, rest)) =>
        var more := ParseFields(schema, rest);
        ([f] + more.0, more.1)
  }

  // ----- round trips

  lemma {:induction false} Varint32Parses(v: nat, rest: Bytes)
    requires v < U32
    ensures ParseVarint(Varint(v) + rest, 5) == Some((v, |Varint(v)|)) && (Varint(v) + rest)[|Varint(v)|..] == rest
  {
    Pow128Values();
    VarintRoundTrip(v, rest, 5);
  }

  lemma {:induction false} Varint64Parses(v: nat, rest: Bytes)
    requires v < U64
    ensures ParseVarint(Varint(v) + rest, 10) == Some((v, |Varint(v)|)) && (Varint(v) + rest)[|Varint(v)|..] == rest
  {
    Pow128Values();
    VarintRoundTrip(v, rest, 10);
  }

  lemma {:induction false} PartParses(p: Part, kind: PartKind, rest: Bytes)
    requires PartFits(p, kind)
    ensures ParsePart(PartBytes(p) + rest, kind) == Some((p, rest))
  {
    match kind
    case Level => Varint32Parses(p.level, rest);
    case Number => Varint64Parses(p.number, rest);
    case Text => PrefixedRoundTrip(p.text, rest);
  }

  lemma {:induction false} Reassociate(a: Bytes, b: Bytes, c: Bytes)
    ensures (a + b) + c == a + (b + c)
  {
  }

  lemma {:induction false} PartsParse(parts: seq<Part>, kinds: seq<PartKind>, rest: Bytes)
    requires PartsFit(parts, kinds)
    ensures ParseParts(PartsBytes(parts) + rest, kinds) == Some((parts, rest))
    decreases |parts|
  {
    if parts == [] {
      assert PartsBytes(parts) + rest == rest;
    } else {
      Reassociate(PartBytes(parts[0]), PartsBytes(parts[1..]), rest);
      PartParses(parts[0], kinds[0], PartsBytes(parts[1..]) + rest);
      PartsParse(parts[1..], kinds[1..], rest);
      assert [parts[0]] + parts[1..] == parts;
    }
  }

  lemma {:induction false} BodyParses(tag: nat, signature: Option<seq<PartKind>>, parts: seq<Part>, rest: Bytes)
    requires signature.Some? && PartsFit(parts, signature.value)
    ensures ParseBody(tag, signature, PartsBytes(parts) + rest) == Some((Field(tag, parts), rest))
  {
    PartsParse(parts, signature.value, rest);
  }

  lemma {:induction false} TagParses(schema: Schema, s: Bytes, tag: nat, rest: Bytes)
    requires tag < U32 && s == Varint(tag) + rest
    ensures ParseField(schema, s) == ParseBody(tag, schema(tag), rest) && s != []
  {
    Varint32Parses(tag, rest);
  }

  lemma {:induction false} FieldParses(schema: Schema, f: Field, rest: Bytes)
    requires FieldFits(schema, f)
    ensures ParseField(schema, FieldBytes(f) + rest) == Some((f, rest)) && FieldBytes(f) + rest != []
  {
    Reassociate(Varint(f.tag), PartsBytes(f.parts), rest);
    TagParses(schema, FieldBytes(f) + rest, f.tag, PartsBytes(f.parts) + rest);
    BodyParses(f.tag, schema(f.tag), f.parts, rest);
  }

  lemma {:induction false} FieldsParse(schema: Schema, fs: seq<Field>)
    requires forall f :: f in fs ==> FieldFits(schema, f)
    ensures ParseFields(schema, FieldsBytes(fs)) == (fs, true)
    decreases |fs|
  {
    if fs != [] {
      FieldParses(schema, fs[0], FieldsBytes(fs[1..]));
      FieldsParse(schema, fs[1..]);
      assert [fs[0]] + fs[1..] == fs;
    }
  }

  // ----- whatever is parsed fits

  lemma {:induction false} ParsedPartFits(s: Bytes, kind: PartKind)
    ensures ParsePart(s, kind).Some? ==> PartFits(ParsePart(s, kind).value.0, kind)
  {
  }

  lemma {:induction false} ParsedPartsFit(s: Bytes, kinds: seq<PartKind>)
    ensures ParseParts(s, kinds).Some? ==> PartsFit(ParseParts(s, kinds).value.0, kinds)
    decreases |kinds|
  {
    if kinds != [] && ParsePart(s, kinds[0]).Some? {
      ParsedPartFits(s, kinds[0]);
      ParsedPartsFit(ParsePart(s, kinds[0]).value.1, kinds[1..]);
    }
  }

  lemma {:induction false} ParsedFieldFits(schema: Schema, s: Bytes)
    ensures ParseField(schema, s).Some? ==> FieldFits(schema, ParseField(schema, s).value.0)
  {
    var r := ParseVarint(s, 5);
    if r.Some? && schema(r.value.0 % U32).Some? {
      ParsedPartsFit(s[r.value.1..], schema(r.value.0 % U32).value);
    }
  }

  lemma {:induction false} ParsedFieldsFit(schema: Schema, s: Bytes)
    ensures forall f :: f in ParseFields(schema, s).0 ==> FieldFits(schema, f)
    decreases |s|
  {
    if s != [] && ParseField(schema, s).Some? {
      ParsedFieldFits(schema, s);
      ParsedFieldsFit(schema, ParseField(schema, s).value.1);
    }
  }

  // ----- reading

  method ReadPart(s: Bytes, kind: PartKind) returns (r: Option<(Part, Bytes)>)
    ensures r == ParsePart(s, kind)
  {
    match kind {
      case Level =>
        var v := GetVarint(s, 5, U32);
        if v.None? || v.value.0 >= Levels.NUM_LEVELS { return None; }
        return Some((LevelPart(v.value.0), v.value.1));
      case Number =>
        var v := GetVarint(s, 10, U64);
        if v.None? { return None; }
        return Some((NumberPart(v.value.0), v.value.1));
      case Text =>
        var v := GetLengthPrefixed(s);
        if v.None? { return None; }
        return Some((TextPart(v.value.0), v.value.1));
    }
  }

  /** One Get call after another until one fails. */
  method ReadParts(s: Bytes, kinds: seq<PartKind>) returns (r: Option<(seq<Part>, Bytes)>)
    ensures r == ParseParts(s, kinds)
    decreases |kinds|
  {
    if kinds == [] { return Some(([], s)); }
    var p := ReadPart(s, kinds[0]);
    if p.None? { return None; }
    var rest := ReadParts(p.value.1, kinds[1..]);
    if rest.None? { return None; }
    return Some(([p.value.0] + rest.value.0, rest.value.1));
  }

  /** A tag and what its case of the switch reads. */
  method ReadField(schema: Schema, s: Bytes) returns (r: Option<(Field, Bytes)>)
    ensures r == ParseField(schema, s)
  {
    var tag := GetVarint(s, 5, U32);
    if tag.None? { return None; }
    var kinds := schema(tag.value.0);
    if kinds.None? { return None; }
    var parts := ReadParts(tag.value.1, kinds.value);
    if parts.None? { return None; }
    return Some((Field(tag.value.0, parts.value.0), parts.value.1));
  }

  // ----- writing

  lemma {:induction false} FieldsBytesAppend(fs: seq<Field>, f: Field)
    ensures FieldsBytes(fs + [f]) == FieldsBytes(fs) + FieldBytes(f)
    decreases |fs|
  {
    if fs == [] {
      assert (fs + [f])[1..] == [] && [] + FieldBytes(f) == FieldBytes(f) + [];
    } else {
      assert (fs + [f])[1..] == fs[1..] + [f];
      FieldsBytesAppend(fs[1..], f);
      Reassociate(FieldBytes(fs[0]), FieldsBytes(fs[1..]), FieldBytes(f));
    }
  }

  lemma {:induction false} PartsBytesAppend(ps: seq<Part>, p: Part)
    ensures PartsBytes(ps + [p]) == PartsBytes(ps) + PartBytes(p)
    decreases |ps|
  {
    if ps == [] {
      assert (ps + [p])[1..] == [] && [] + PartBytes(p) == PartBytes(p) + [];
    } else {
      assert (ps + [p])[1..] == ps[1..] + [p];
      PartsBytesAppend(ps[1..], p);
      Reassociate(PartBytes(ps[0]), PartsBytes(ps[1..]), PartBytes(p));
    }
  }

  method PutPart(dst: Bytes, p: Part) returns (r: Bytes)
    requires (p.LevelPart? ==> p.level < U32) && (p.NumberPart? ==> p.number < U64)
    ensures r == dst + PartBytes(p)
  {
    match p {
      case LevelPart(level) => r := PutVarint32(dst, level);
      case NumberPart(number) => r := PutVarint64(dst, number);
      case TextPart(text) => r := PutLengthPrefixed(dst, text);
    }
  }

  method PutField(dst: Bytes, f: Field, ghost schema: Schema) returns (r: Bytes)
    requires FieldFits(schema, f)
    ensures r == dst + FieldBytes(f)
  {
    r := PutVarint32(dst, f.tag);
    ghost var head := r;
    for i := 0 to |f.parts|
      invariant r == head + PartsBytes(f.parts[..i])
    {
      assert f.parts[..i + 1] == f.parts[..i] + [f.parts[i]];
      PartsBytesAppend(f.parts[..i], f.parts[i]);
      Reassociate(head, PartsBytes(f.parts[..i]), PartBytes(f.parts[i]));
      assert PartFits(f.parts[i], schema(f.tag).value[i]);
      r := PutPart(r, f.parts[i]);
    }
    assert f.parts[..|f.parts|] == f.parts;
    Reassociate(dst, Varint(f.tag), PartsBytes(f.parts));
  }
}
