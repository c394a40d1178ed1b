/** What an encoded version edit says, by its bytes alone: which strings are fields, and
    where the decoding of any string stops. */
module EditFaults {
  import opened Coding
  import opened BatchFaults
  import opened VersionEdits

  /** An integer of at most "limit" bytes, taken modulo "width". */
  predicate NumberAt(s: Bytes, n: int, limit: nat, width: nat, v: nat, rest: Bytes)
    requires width > 0
  {
    0 <= n <= |s| && n <= limit && IsVarint(s[..n]) && v == Sevens(s[..n]) % width && rest == s[n..]
  }

  ghost predicate NumberLeads(s: Bytes, limit: nat, width: nat, v: nat, rest: Bytes)
    requires width > 0
  {
    exists n :: NumberAt(s, n, limit, width, v, rest)
  }

  /** s begins with the part, and then the rest. */
  ghost predicate PartLeads(s: Bytes, p: Part, kind: PartKind, rest: Bytes) {
    match kind
    case Level => p.LevelPart? && p.level < Levels.NUM_LEVELS && NumberLeads(s, 5, U32, p.level, rest)
    case Number => p.NumberPart? && NumberLeads(s, 10, U64, p.number, rest)
    case Text => p.TextPart? && Leads(s, p.text, rest)
  }

  lemma {:induction false} NumberIff(s: Bytes, limit: nat, width: nat, v: nat, rest: Bytes)
    requires width > 0
    ensures NumberLeads(s, limit, width, v, rest) <==>
      var r := ParseVarint(s, limit); r.Some? && v == r.value.0 % width && rest == s[r.value.1..]
  {
    var r := ParseVarint(s, limit);
    if n :| NumberAt(s, n, limit, width, v, rest) {
      ParseVarintIff(s, limit, Sevens(s[..n]), n);
    }
    if r.Some? {
      ParseVarintIff(s, limit, r.value.0, r.value.1);
      assert NumberAt(s, r.value.1, limit, width, r.value.0 % width, s[r.value.1..]);
    }
  }

  lemma {:induction false} PartIff(s: Bytes, p: Part, kind: PartKind, rest: Bytes)
    ensures ParsePart(s, kind) == Some((p, rest)) <==> PartLeads(s, p, kind, rest)
  {
    match kind
    case Level =>
      if p.LevelPart? {
        NumberIff(s, 5, U32, p.level, rest);
      }
    case Number =>
      if p.NumberPart? {
        NumberIff(s, 10, U64, p.number, rest);
      }
    case Text =>
      if p.TextPart? {
        ParsePrefixedIff(s, p.text, rest);
      }
  }

  /** One part of each kind, in order. */
  ghost predicate PartsLead(s: Bytes, ps: seq<Part>, kinds: seq<PartKind>, rest: Bytes)
    decreases |kinds|
  {
    if kinds == [] then ps == [] && rest == s
    else ps != [] && exists more :: PartLeads(s, ps[0], kinds[0], more) && PartsLead(more, ps[1..], kinds[1..], rest)
  }

  lemma {:induction false} PartsIff(s: Bytes, ps: seq<Part>, kinds: seq<PartKind>, rest: Bytes)
    ensures ParseParts(s, kinds) == Some((ps, rest)) <==> PartsLead(s, ps, kinds, rest)
    decreases |kinds|
  {
    if kinds != [] {
      if PartsLead(s, ps, kinds, rest) {
        var more :| PartLeads(s, ps[0], kinds[0], more) && PartsLead(more, ps[1..], kinds[1..], rest);
        PartIff(s, ps[0], kinds[0], more);
        PartsIff(more, ps[1..], kinds[1..], rest);
        assert ps == [ps[0]] + ps[1..];
      }
      if ParseParts(s, kinds) == Some((ps, rest)) {
        var (p, more) := ParsePart(s, kinds[0]).value;
        PartIff(s, p, kinds[0], more);
        PartsIff(more, ps[1..], kinds[1..], rest);
      }
    }
  }

  /** A tag of the schema and the parts that it asks for. */
  ghost predicate FieldLeads(schema: Schema, s: Bytes, f: Field, rest: Bytes) {
    && schema(f.tag).Some?
    && exists more :: NumberLeads(s, 5, U32, f.tag, more) && PartsLead(more, f.parts, schema(f.tag).value, rest)
  }

  lemma {:induction false} FieldIff(schema: Schema, s: Bytes, f: Field, rest: Bytes)
    ensures ParseField(schema, s) == Some((f, rest)) <==> FieldLeads(schema, s, f, rest)
  {
    if FieldLeads(schema, s, f, rest) {
      var more :| NumberLeads(s, 5, U32, f.tag, more) && PartsLead(more, f.parts, schema(f.tag).value, rest);
      NumberIff(s, 5, U32, f.tag, more);
      PartsIff(more, f.parts, schema(f.tag).value, rest);
    }
    if ParseField(schema, s) == Some((f, rest)) {
      var (v, n) := ParseVarint(s, 5).value;
      NumberIff(s, 5, U32, v % U32, s[n..]);
      PartsIff(s[n..], f.parts, schema(f.tag).value, rest);
    }
  }

  /** s is these fields, and then the rest. */
  ghost predicate FieldsLead(schema: Schema, s: Bytes, fs: seq<Field>, rest: Bytes)
    decreases |fs|
  {
    if fs == [] then rest == s
    else exists more :: FieldLeads(schema, s, fs[0], more) && FieldsLead(schema, more, fs[1..], rest)
  }

  ghost predicate NoField(schema: Schema, s: Bytes) {
    forall f, rest :: !FieldLeads(schema, s, f, rest)
  }

  /** All of s is fields, or they end where no field begins. */
  ghost predicate Ends(schema: Schema, s: Bytes, fs: seq<Field>, rest: Bytes, ok: bool) {
    FieldsLead(schema, s, fs, rest) && if ok then rest == [] else rest != [] && NoField(schema, rest)
  }

  lemma {:induction false} NoFieldIff(schema: Schema, s: Bytes)
    ensures ParseField(schema, s).None? <==> NoField(schema, s)
  {
    var r := ParseField(schema, s);
    if r.Some? {
      FieldIff(schema, s, r.value.0, r.value.1);
    } else {
      forall f, rest
        ensures !FieldLeads(schema, s, f, rest)
      {
        FieldIff(schema, s, f, rest);
      }
    }
  }

  lemma {:induction false} FieldFirst(schema: Schema, s: Bytes, f: Field, more: Bytes, fs: seq<Field>, rest: Bytes)
    requires FieldLeads(schema, s, f, more) && FieldsLead(schema, more, fs, rest)
    ensures FieldsLead(schema, s, [f] + fs, rest)
  {
    assert ([f] + fs)[1..] == fs;
  }

  lemma {:induction false} ParseFieldsEnds(schema: Schema, s: Bytes) returns (rest: Bytes)
    ensures Ends(schema, s, ParseFields(schema, s).0, rest, ParseFields(schema, s).1)
    decreases |s|
  {
    rest := s;
    if s != [] {
      NoFieldIff(schema, s);
      match ParseField(schema, s)
      case None =>
      case Some((f, more)) =>
        FieldIff(schema, s, f, more);
        rest := ParseFieldsEnds(schema, more);
        FieldFirst(schema, s, f, more, ParseFields(schema, more).0, rest);
    }
  }

  lemma {:induction false} EndsIsParseFields(schema: Schema, s: Bytes, fs: seq<Field>, rest: Bytes, ok: bool)
    requires Ends(schema, s, fs, rest, ok)
    ensures ParseFields(schema, s) == (fs, ok)
    decreases |fs|
  {
    if fs == [] {
      NoFieldIff(schema, s);
    } else {
      var more :| FieldLeads(schema, s, fs[0], more) && FieldsLead(schema, more, fs[1..], rest);
      FieldIff(schema, s, fs[0], more);
      EndsIsParseFields(schema, more, fs[1..], rest, ok);
      assert fs == [fs[0]] + fs[1..];
    }
  }

  /** VersionEdit::DecodeFrom on any bytes: the fields read and whether all was read. */
  lemma {:induction false} DecodedIff(s: Bytes, fs: seq<Field>, ok: bool)
    ensures ParseFields(Signature, s) == (fs, ok) <==> exists rest :: Ends(Signature, s, fs, rest, ok)
  {
    var end := ParseFieldsEnds(Signature, s);
    if rest :| Ends(Signature, s, fs, rest, ok) {
      EndsIsParseFields(Signature, s, fs, rest, ok);
    }
  }
}
