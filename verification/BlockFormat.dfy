/** Table blocks (table/block_builder.cc, table/block.cc): prefix-compressed entries,
    then the offsets of the entries that restart compression, then their number. */
module BlockFormat {
  import opened Coding

  datatype Pair = Pair(key: Bytes, value: Bytes)

  function Head(shared: nat, nonShared: nat, valueLength: nat): Bytes {
    Varint(shared) + Varint(nonShared) + Varint(valueLength)
  }

  function EntryBytes(shared: nat, pair: Pair): Bytes
    requires shared <= |pair.key|
  {
    Head(shared, |pair.key| - shared, |pair.value|) + pair.key[shared..] + pair.value
  }

  // ----- reading an entry's three lengths

  /** The three lengths at the front of s and how many bytes they take. */
  function ParseHead(s: Bytes): (r: Option<(nat, nat, nat, nat)>)
    ensures r.Some? ==> 3 <= r.value.3 <= |s|
  {
    match ParseVarint(s, 5)
    case None => None
    case Some((a, i)) =>
      match ParseVarint(s[i..], 5)
      case None => None
      case Some((b, j)) =>
        match ParseVarint(s[i..][j..], 5)
        case None => None
        case Some((c, k)) => Some((a % U32, b % U32, c % U32, i + j + k))
  }

  lemma {:induction false} ParseShort(s: Bytes)
    requires |s| > 0 && s[0] < 128
    ensures ParseVarint(s, 5) == Some((s[0], 1))
  {
  }

  lemma {:induction false} ParseHeadShort(s: Bytes)
    requires |s| >= 3 && s[0] < 128 && s[1] < 128 && s[2] < 128
    ensures ParseHead(s) == Some((s[0], s[1], s[2], 3))
  {
    ParseShort(s);
    ParseShort(s[1..]);
    ParseShort(s[2..]);
  }

  method DecodeLengths(s: Bytes) returns (r: Option<(nat, nat, nat, nat)>)
    ensures r == ParseHead(s)
  {
    var x := GetVarint(s, 5, U32);
    if x.None? { return None; }
    var y := GetVarint(x.value.1, 5, U32);
    if y.None? { return None; }
    var z := GetVarint(y.value.1, 5, U32);
    if z.None? { return None; }
    return Some((x.value.0, y.value.0, z.value.0, |s| - |z.value.1|));
  }

  /** An entry's lengths and where the key's own bytes start, or nothing when the
      entry does not fit before "limit". The sum of two lengths is a 32-bit sum. */
  function Decoded(data: Bytes, p: nat, limit: nat): Option<(nat, nat, nat, nat)>
    requires p <= limit <= |data|
  {
    match ParseHead(data[p..limit])
    case None => None
    case Some((a, b, c, n)) => if (limit - p - n) % U32 < (b + c) % U32 then None else Some((a, b, c, p + n))
  }

  method DecodeEntry(data: Bytes, p: nat, limit: nat) returns (r: Option<(nat, nat, nat, nat)>)
    requires p <= limit <= |data|
    ensures r == Decoded(data, p, limit)
  {
    var s := data[p..limit];
    if limit - p < 3 {
      return None;
    }
    r := Some((s[0], s[1], s[2], 3));
    if s[0] < 128 && s[1] < 128 && s[2] < 128 {
      ParseHeadShort(s);
    } else {
      r := DecodeLengths(s);
      if r.None? { return; }
    }
    var q := p + r.value.3;
    if (limit - q) % U32 < (r.value.1 + r.value.2) % U32 {
      return None;
    }
    r := Some((r.value.0, r.value.1, r.value.2, q));
  }

  lemma {:induction false} Varint32RoundTrip(v: nat, rest: Bytes)
    requires v < U32
    ensures ParseVarint(Varint(v) + rest, 5) == Some((v, |Varint(v)|))
  {
    Pow128Values();
    VarintRoundTrip(v, rest, 5);
  }

  lemma {:induction false} ParseParts(x: Bytes, y: Bytes, z: Bytes, rest: Bytes, a: nat, b: nat, c: nat)
    requires a < U32 && b < U32 && c < U32
    requires ParseVarint(x + (y + (z + rest)), 5) == Some((a, |x|))
    requires ParseVarint(y + (z + rest), 5) == Some((b, |y|))
    requires ParseVarint(z + rest, 5) == Some((c, |z|))
    ensures ParseHead(x + (y + (z + rest))) == Some((a, b, c, |x| + |y| + |z|))
  {
    assert (x + (y + (z + rest)))[|x|..] == y + (z + rest);
    assert (y + (z + rest))[|y|..] == z + rest;
  }

  lemma {:induction false} Regroup(x: Bytes, y: Bytes, z: Bytes, rest: Bytes)
    ensures x + y + z + rest == x + (y + (z + rest))
  {
  }

  lemma {:induction false} HeadRoundTrip(a: nat, b: nat, c: nat, rest: Bytes)
    requires a < U32 && b < U32 && c < U32
    ensures ParseHead(Head(a, b, c) + rest) == Some((a, b, c, |Head(a, b, c)|))
  {
    var x, y, z := Varint(a), Varint(b), Varint(c);
    Varint32RoundTrip(a, y + (z + rest));
    Varint32RoundTrip(b, z + rest);
    Varint32RoundTrip(c, rest);
    Regroup(x, y, z, rest);
    ParseParts(x, y, z, rest, a, b, c);
  }

  // ----- what a block holds

  /** Pairs with the prefix length each shares with the one before, the offset of
      each entry (and of the end), and which entries are restart points. */
  datatype Layout = Layout(pairs: seq<Pair>, shared: seq<nat>, offs: seq<nat>, points: seq<nat>)

  ghost predicate Shape(l: Layout) {
    && |l.shared| == |l.pairs|
    && |l.offs| == |l.pairs| + 1
    && l.offs[0] == 0
    && |l.points| > 0
    && l.points[0] == 0
  }

  /** A shared prefix is a prefix of the key before. */
  ghost predicate PrefixAt(l: Layout, i: nat)
    requires Shape(l) && i < |l.pairs|
  {
    var n, key := l.shared[i], l.pairs[i].key;
    && n <= |key| < U32
    && |l.pairs[i].value| < U32
    && (n > 0 ==> i > 0 && n <= |l.pairs[i - 1].key| && l.pairs[i - 1].key[..n] == key[..n])
  }

  ghost predicate EntryAt(data: Bytes, l: Layout, i: nat)
    requires Shape(l) && i < |l.pairs|
  {
    && PrefixAt(l, i)
    && l.offs[i] + |EntryBytes(l.shared[i], l.pairs[i])| == l.offs[i + 1] <= |data|
    && data[l.offs[i]..l.offs[i + 1]] == EntryBytes(l.shared[i], l.pairs[i])
  }

  ghost predicate PointAt(l: Layout, j: nat)
    requires Shape(l) && j < |l.points|
  {
    && l.points[j] <= |l.pairs|
    && (l.points[j] < |l.pairs| ==> l.shared[l.points[j]] == 0)
    && (j > 0 ==> l.points[j - 1] < l.points[j] < |l.pairs|)
  }

  ghost predicate Encodes(data: Bytes, l: Layout) {
    && Shape(l)
    && l.offs[|l.pairs|] == |data|
    && (forall i: nat :: i < |l.pairs| ==> EntryAt(data, l, i))
    && (forall j: nat :: j < |l.points| ==> PointAt(l, j))
  }

  lemma {:induction false} OffsIncrease(data: Bytes, l: Layout, i: nat, j: nat)
    requires Encodes(data, l) && i < j <= |l.pairs|
    ensures l.offs[i] < l.offs[j] <= |data|
    decreases |l.pairs| - i, j - i
  {
    assert EntryAt(data, l, i);
    assert |Varint(l.shared[i])| > 0;
    if i + 1 < j {
      OffsIncrease(data, l, i + 1, j);
    }
    if j < |l.pairs| {
      OffsIncrease(data, l, j, |l.pairs|);
    }
  }

  lemma {:induction false} PointsIncrease(l: Layout, i: nat, j: nat)
    requires Shape(l) && (forall j: nat :: j < |l.points| ==> PointAt(l, j)) && i < j < |l.points|
    ensures l.points[i] < l.points[j] < |l.pairs|
    decreases j - i
  {
    assert PointAt(l, j);
    if i < j - 1 {
      PointsIncrease(l, i, j - 1);
    }
  }

  /** Offsets of the restart points. */
  ghost predicate Restarts(l: Layout, rs: seq<nat>)
    requires Shape(l)
  {
    |rs| == |l.points| && forall j: nat :: j < |rs| ==> RestartAt(l, rs, j)
  }

  ghost predicate RestartAt(l: Layout, rs: seq<nat>, j: nat)
    requires Shape(l) && j < |rs| == |l.points|
  {
    l.points[j] <= |l.pairs| && rs[j] == l.offs[l.points[j]]
  }

  function RestartArray(rs: seq<nat>): (b: Bytes)
    ensures |b| == 4 * |rs|
  {
    if rs == [] then [] else RestartArray(rs[..|rs| - 1]) + Fixed(rs[|rs| - 1], 4)
  }

  /** The loop that appends an array of 32-bit offsets. */
  method PutOffsets(dst: Bytes, rs: seq<nat>) returns (r: Bytes)
    ensures r == dst + RestartArray(rs)
  {
    r := dst;
    for i := 0 to |rs|
      invariant r == dst + RestartArray(rs[..i])
    {
      assert rs[..i + 1][..i] == rs[..i];
      r := r + Fixed(rs[i], 4);
    }
    assert rs[..|rs|] == rs;
  }

  lemma {:induction false} RestartSlot(rs: seq<nat>, j: nat)
    requires j < |rs|
    ensures RestartArray(rs)[4 * j..4 * j + 4] == Fixed(rs[j], 4)
  {
    var init := rs[..|rs| - 1];
    if j == |init| {
      assert RestartArray(rs)[4 * j..4 * j + 4] == Fixed(rs[j], 4);
    } else {
      RestartSlot(init, j);
      assert RestartArray(rs)[4 * j..4 * j + 4] == RestartArray(init)[4 * j..4 * j + 4];
    }
  }

  /** Finished block contents. */
  ghost predicate Holds(contents: Bytes, data: Bytes, l: Layout, rs: seq<nat>) {
    && Encodes(data, l)
    && Restarts(l, rs)
    && |contents| < U32
    && contents == data + RestartArray(rs) + Fixed(|rs|, 4)
  }
}
