/** Key orders (util/comparator.cc, db/dbformat.cc, db/memtable.cc): bytewise, internal
    keys, the memtable's number-first comparison, and shortened separators. */
module Comparators {
  import opened Coding
  import Entries

  /** "Comes strictly before", as a comparator decides it. */
  type Order = (Bytes, Bytes) -> bool

  ghost predicate StrictTotal(lt: Order, keys: set<Bytes>) {
    && (forall a :: a in keys ==> !lt(a, a))
    && (forall a, b :: a in keys && b in keys && a != b ==> lt(a, b) || lt(b, a))
    && (forall a, b, c :: a in keys && b in keys && c in keys && lt(a, b) && lt(b, c) ==> lt(a, c))
  }

  // ----- positions in an order

  ghost function Position(lt: Order, keys: set<Bytes>, a: Bytes): int {
    |set b | b in keys && lt(b, a)|
  }

  lemma {:induction false} SmallerSet(x: set<Bytes>, y: set<Bytes>, a: Bytes)
    requires x <= y && a in y && a !in x
    ensures |x| < |y|
  {
    SubsetSize(x, y - {a});
  }

  lemma {:induction false} SubsetSize(x: set<Bytes>, y: set<Bytes>)
    requires x <= y
    ensures |x| <= |y|
    decreases |x|
  {
    if x != {} {
      var a :| a in x;
      SubsetSize(x - {a}, y - {a});
    }
  }

  lemma {:induction false} PositionIncreases(lt: Order, keys: set<Bytes>, a: Bytes, b: Bytes)
    requires StrictTotal(lt, keys) && a in keys && b in keys && lt(a, b)
    ensures Position(lt, keys, a) < Position(lt, keys, b)
  {
    var x, y := set c | c in keys && lt(c, a), set c | c in keys && lt(c, b);
    assert x <= y && a in y && a !in x;
    SmallerSet(x, y, a);
  }

  /** In any finite set of keys, comparing positions is comparing keys: the layers
      that see keys only through a comparator may take keys to be numbers. */
  lemma {:induction false} PositionsAreTheOrder(lt: Order, keys: set<Bytes>, a: Bytes, b: Bytes)
    requires StrictTotal(lt, keys) && a in keys && b in keys
    ensures lt(a, b) <==> Position(lt, keys, a) < Position(lt, keys, b)
    ensures a == b <==> Position(lt, keys, a) == Position(lt, keys, b)
  {
    if lt(a, b) {
      PositionIncreases(lt, keys, a, b);
    } else if a != b {
      PositionIncreases(lt, keys, b, a);
    }
  }

  // ----- bytewise order

  /** Slice::compare: memcmp of the common length, then the shorter first. */
  predicate Less(a: Bytes, b: Bytes)
    decreases |a|
  {
    b != [] && (a == [] || a[0] < b[0] || (a[0] == b[0] && Less(a[1..], b[1..])))
  }

  /** The first position where two keys part decides. */
  lemma {:induction false} LessAt(a: Bytes, b: Bytes, d: nat)
    requires d <= |a| && d <= |b| && a[..d] == b[..d]
    ensures d == |a| ==> (Less(a, b) <==> d < |b|)
    ensures d < |a| && d < |b| ==> (a[d] < b[d] ==> Less(a, b)) && (a[d] > b[d] ==> !Less(a, b))
    decreases d
  {
    if d > 0 {
      assert a[0] == a[..d][0] && b[0] == b[..d][0];
      assert a[1..][..d - 1] == a[..d][1..] && b[1..][..d - 1] == b[..d][1..];
      LessAt(a[1..], b[1..], d - 1);
    }
  }

  lemma {:induction false} LessIrreflexive(a: Bytes)
    ensures !Less(a, a)
    decreases |a|
  {
    if a != [] {
      LessIrreflexive(a[1..]);
    }
  }

  lemma {:induction false} LessTotal(a: Bytes, b: Bytes)
    ensures Less(a, b) || a == b || Less(b, a)
    decreases |a|
  {
    if a != [] && b != [] && a[0] == b[0] {
      LessTotal(a[1..], b[1..]);
      assert a == [a[0]] + a[1..] && b == [b[0]] + b[1..];
    }
  }

  lemma {:induction false} LessTransitive(a: Bytes, b: Bytes, c: Bytes)
    requires Less(a, b) && Less(b, c)
    ensures Less(a, c)
    decreases |a|
  {
    if a != [] && a[0] == b[0] == c[0] {
      LessTransitive(a[1..], b[1..], c[1..]);
    }
  }

  lemma {:induction false} LessAsymmetric(a: Bytes, b: Bytes)
    requires Less(a, b)
    ensures !Less(b, a)
  {
    if Less(b, a) {
      LessTransitive(a, b, a);
      LessIrreflexive(a);
    }
  }

  lemma {:induction false} LessIsStrictTotal(keys: set<Bytes>)
    ensures StrictTotal(Less, keys)
  {
    forall a: Bytes, b: Bytes
      ensures !Less(a, a) && (a != b ==> Less(a, b) || Less(b, a))
    {
      LessIrreflexive(a);
      LessTotal(a, b);
    }
    forall a: Bytes, b: Bytes, c: Bytes | Less(a, b) && Less(b, c)
      ensures Less(a, c)
    {
      LessTransitive(a, b, c);
    }
  }

  // ----- separators

  /** Where two keys first differ. */
  predicate DifferAt(a: Bytes, b: Bytes, d: int) {
    0 <= d < |a| && d < |b| && a[..d] == b[..d] && a[d] != b[d]
  }

  /** The first byte that can be raised. */
  predicate RaisedAt(key: Bytes, i: int) {
    0 <= i < |key| && key[i] != 0xff && forall k :: 0 <= k < i ==> key[k] == 0xff
  }

  /** The key cut behind byte i, which is raised by one. */
  function Raised(key: Bytes, i: nat): (r: Bytes)
    requires i < |key| && key[i] < 0xff
    ensures |r| == i + 1 && Less(key, r)
  {
    var r := key[..i] + [key[i] + 1];
    assert r[..i] == key[..i];
    LessAt(key, r, i);
    r
  }

  lemma {:induction false} SameBefore(a: Bytes, b: Bytes, d: nat, e: nat)
    requires e < d <= |a| && d <= |b| && a[..d] == b[..d]
    ensures a[e] == b[e]
  {
    assert a[e] == a[..d][e] && b[e] == b[..d][e];
  }

  /** Keys that are the same up to d, and not at d, differ there first. */
  lemma {:induction false} FirstDifference(a: Bytes, b: Bytes, d: nat)
    requires d <= |a| && d <= |b| && a[..d] == b[..d] && (d < |a| && d < |b| ==> a[d] != b[d])
    ensures forall e :: DifferAt(a, b, e) ==> e == d
  {
    forall e | DifferAt(a, b, e)
      ensures e == d
    {
      if e < d {
        SameBefore(a, b, d, e);
      } else if d < e {
        SameBefore(a, b, e, d);
      }
    }
  }

  /** BytewiseComparator::FindShortestSeparator: a key no longer than "start", either
      "start" itself or strictly between the two. */
  method FindShortestSeparator(start: Bytes, limit: Bytes) returns (sep: Bytes)
    ensures sep == start || (Less(start, sep) && Less(sep, limit))
    ensures |sep| <= |start|
    ensures forall d :: DifferAt(start, limit, d) ==> sep == if limit[d] as int - start[d] as int > 1 then Raised(start, d) else start
    ensures (forall d :: !DifferAt(start, limit, d)) ==> sep == start
  {
    var minLength := if |start| < |limit| then |start| else |limit|;
    var d := 0;
    while d < minLength && start[d] == limit[d]
      invariant d <= minLength && start[..d] == limit[..d]
    {
      d := d + 1;
    }
    FirstDifference(start, limit, d);
    sep := start;
    if d < minLength && start[d] < 0xff && start[d] + 1 < limit[d] {
      sep := start[..d] + [start[d] + 1];
      assert DifferAt(start, limit, d);
      assert sep[..d] == start[..d] && sep[..d] == limit[..d];
      LessAt(start, sep, d);
      LessAt(sep, limit, d);
    }
  }

  /** FindShortSuccessor: a later key no longer than the key, unless it is all 0xff. */
  method FindShortSuccessor(key: Bytes) returns (r: Bytes)
    ensures if forall i :: 0 <= i < |key| ==> key[i] == 0xff then r == key else Less(key, r)
    ensures |r| <= |key|
    ensures forall i :: RaisedAt(key, i) ==> r == Raised(key, i)
    ensures (forall i :: !RaisedAt(key, i)) ==> r == key
  {
    for i := 0 to |key|
      invariant forall k :: 0 <= k < i ==> key[k] == 0xff
    {
      if key[i] != 0xff {
        assert RaisedAt(key, i);
        r := key[..i] + [key[i] + 1];
        assert r[..i] == key[..i];
        LessAt(key, r, i);
        return;
      }
    }
    r := key;
  }

  // ----- numbers for keys

  /** Byte i of a key padded with zeros. */
  function Padded(key: Bytes, i: nat): byte {
    if i < |key| then key[i] else 0
  }

  /** The first n padded bytes as a big-endian number. */
  function PrefixNumber(key: Bytes, n: nat): nat {
    if n == 0 then 0 else PrefixNumber(key, n - 1) * 256 + Padded(key, n - 1)
  }

  /** BytewiseComparator::KeyNum: eight padded bytes shifted into place. */
  method KeyNum(key: Bytes) returns (number: nat)
    ensures number == PrefixNumber(key, 8)
  {
    var buf := seq(8, i requires 0 <= i => Padded(key, i));
    number := buf[0] * 0x100_0000_0000_0000 + buf[1] * 0x1_0000_0000_0000 + buf[2] * 0x100_0000_0000 +
    buf[3] * 0x1_0000_0000 + buf[4] * 0x100_0000 + buf[5] * 0x1_0000 + buf[6] * 0x100 + buf[7];
    assert PrefixNumber(key, 1) == buf[0];
    assert PrefixNumber(key, 2) == buf[0] * 0x100 + buf[1];
    assert PrefixNumber(key, 3) == buf[0] * 0x1_0000 + buf[1] * 0x100 + buf[2];
    assert PrefixNumber(key, 4) == buf[0] * 0x100_0000 + buf[1] * 0x1_0000 + buf[2] * 0x100 + buf[3];
    ghost var half := PrefixNumber(key, 4);
    assert PrefixNumber(key, 5) == half * 0x100 + buf[4];
    assert PrefixNumber(key, 6) == half * 0x1_0000 + buf[4] * 0x100 + buf[5];
    assert PrefixNumber(key, 7) == half * 0x100_0000 + buf[4] * 0x1_0000 + buf[5] * 0x100 + buf[6];
  }

  lemma {:induction false} SamePrefix(a: Bytes, b: Bytes, n: nat, i: nat)
    requires PrefixNumber(a, n) == PrefixNumber(b, n) && i < n
    ensures Padded(a, i) == Padded(b, i)
    decreases n
  {
    if i < n - 1 {
      SamePrefix(a, b, n - 1, i);
    }
  }

  /** A smaller number means an earlier key. */
  lemma {:induction false} NumberDecides(a: Bytes, b: Bytes, n: nat)
    requires PrefixNumber(a, n) < PrefixNumber(b, n)
    ensures Less(a, b)
    decreases n
  {
    if PrefixNumber(a, n - 1) < PrefixNumber(b, n - 1) {
      NumberDecides(a, b, n - 1);
    } else {
      assert PrefixNumber(a, n - 1) == PrefixNumber(b, n - 1);
      var d := if n - 1 < |a| then n - 1 else |a|;
      forall i | 0 <= i < d
        ensures a[i] == b[i]
      {
        SamePrefix(a, b, n - 1, i);
      }
      assert a[..d] == b[..d];
      LessAt(a, b, d);
    }
  }

  // ----- internal keys

  const VALUE_FOR_SEEK: nat := 1

  function Tag(sequence: nat, kind: nat): nat {
    sequence * 256 + kind
  }

  /** AppendInternalKey: the user key, then the eight-byte tag. */
  function InternalKey(user: Bytes, tag: nat): (k: Bytes)
    ensures |k| == |user| + 8
  {
    user + Fixed(tag, 8)
  }

  function UserOf(k: Bytes): Bytes
    requires |k| >= 8
  {
    k[..|k| - 8]
  }

  function TagOf(k: Bytes): nat
    requires |k| >= 8
  {
    FixedValue(k[|k| - 8..])
  }

  lemma {:induction false} InternalKeyParts(user: Bytes, tag: nat)
    requires tag < U64
    ensures UserOf(InternalKey(user, tag)) == user && TagOf(InternalKey(user, tag)) == tag
  {
    Pow256Values();
    FixedRoundTrip(tag, 8);
    assert InternalKey(user, tag)[|user|..] == Fixed(tag, 8);
  }

  /** InternalKeyComparator::Compare: user key ascending, tag descending. */
  predicate InternalLess(a: Bytes, b: Bytes)
    requires |a| >= 8 && |b| >= 8
  {
    Less(UserOf(a), UserOf(b)) || (UserOf(a) == UserOf(b) && TagOf(a) > TagOf(b))
  }

  /** The internal order on bytes is the order of entries, whatever positions stand
      for the user keys. */
  lemma {:induction false} InternalOrderIsEntryOrder(keys: set<Bytes>, u: Bytes, v: Bytes, a: Entries.Entry, b: Entries.Entry)
    requires u in keys && v in keys
    requires a.key == Position(Less, keys, u) && b.key == Position(Less, keys, v)
    requires a.key == b.key && a.seqno == b.seqno ==> a.kind == b.kind
    ensures InternalLess(InternalKey(u, EntryTag(a)), InternalKey(v, EntryTag(b))) <==> Entries.Before(a, b)
  {
    LessIsStrictTotal(keys);
    PositionsAreTheOrder(Less, keys, u, v);
    InternalKeyParts(u, EntryTag(a));
    InternalKeyParts(v, EntryTag(b));
  }

  function EntryTag(e: Entries.Entry): (t: nat)
    ensures t < U64
  {
    Tag(e.seqno, if e.kind.Put? then 1 else 0)
  }

  /** An internal key in parts. */
  datatype IKey = IKey(user: Bytes, tag: nat)

  predicate KeyBefore(a: IKey, b: IKey) {
    Less(a.user, b.user) || (a.user == b.user && a.tag > b.tag)
  }

  lemma {:induction false} KeyBeforeIsInternal(a: IKey, b: IKey)
    requires a.tag < U64 && b.tag < U64
    ensures KeyBefore(a, b) <==> InternalLess(InternalKey(a.user, a.tag), InternalKey(b.user, b.tag))
  {
    InternalKeyParts(a.user, a.tag);
    InternalKeyParts(b.user, b.tag);
  }

  lemma {:induction false} KeyBeforeTransitive(a: IKey, b: IKey, c: IKey)
    requires KeyBefore(a, b) && KeyBefore(b, c)
    ensures KeyBefore(a, c)
  {
    if Less(a.user, b.user) && Less(b.user, c.user) {
      LessTransitive(a.user, b.user, c.user);
    }
  }

  lemma {:induction false} KeyBeforeTotal(a: IKey, b: IKey)
    ensures KeyBefore(a, b) || a == b || KeyBefore(b, a)
    ensures KeyBefore(a, b) ==> !KeyBefore(b, a) && a != b
  {
    LessTotal(a.user, b.user);
    LessIrreflexive(a.user);
    if Less(a.user, b.user) {
      LessAsymmetric(a.user, b.user);
    }
  }

  const SEEK_TAG: nat := 0xFF_FFFF_FFFF_FFFF * 256 + 1

  /** InternalKeyComparator::FindShortestSeparator: the key itself, or a later one with a
      user key strictly between. */
  method FindInternalSeparator(start: IKey, limit: IKey) returns (sep: IKey)
    ensures sep == start || (Less(start.user, sep.user) && Less(sep.user, limit.user))
    ensures sep.tag == start.tag || sep.tag == SEEK_TAG
    ensures forall d :: DifferAt(start.user, limit.user, d) ==>
      sep == if limit.user[d] as int - start.user[d] as int > 1 && d + 1 < |start.user| then IKey(Raised(start.user, d), SEEK_TAG) else start
    ensures (forall d :: !DifferAt(start.user, limit.user, d)) ==> sep == start
  {
    sep := start;
    var tmp := FindShortestSeparator(start.user, limit.user);
    if |tmp| < |start.user| && Less(start.user, tmp) {
      LessIrreflexive(start.user);
      sep := IKey(tmp, SEEK_TAG);
    }
  }

  /** InternalKeyComparator::FindShortSuccessor. */
  method FindInternalSuccessor(key: IKey) returns (r: IKey)
    ensures r == key || Less(key.user, r.user)
    ensures forall i :: RaisedAt(key.user, i) ==> r == if i + 1 < |key.user| then IKey(Raised(key.user, i), SEEK_TAG) else key
    ensures (forall i :: !RaisedAt(key.user, i)) ==> r == key
  {
    r := key;
    var tmp := FindShortSuccessor(key.user);
    if |tmp| < |key.user| && Less(key.user, tmp) {
      r := IKey(tmp, SEEK_TAG);
    }
  }

  // ----- the memtable's order

  /** Comparator::KeyNum: a number for each user key. */
  type Numbering = Bytes -> nat

  /** Numbers never contradict the order. */
  ghost predicate Faithful(num: Numbering) {
    forall a: Bytes, b: Bytes :: num(a) < num(b) ==> Less(a, b)
  }

  /** The bytewise numbers are faithful, and so is the default, zero for every key. */
  lemma {:induction false} NumberingsAreFaithful()
    ensures Faithful((k: Bytes) => PrefixNumber(k, 8)) && Faithful((k: Bytes) => 0)
  {
    forall a: Bytes, b: Bytes | PrefixNumber(a, 8) < PrefixNumber(b, 8)
      ensures Less(a, b)
    {
      NumberDecides(a, b, 8);
    }
  }

  /** MemTable::KeyComparator: the numbers first, then the internal keys. */
  predicate NumberedLess(m: nat, a: Bytes, n: nat, b: Bytes)
    requires |a| >= 8 && |b| >= 8
  {
    m < n || (m == n && InternalLess(a, b))
  }

  /** Comparing the numbers first changes nothing. */
  lemma {:induction false} NumberedIsInternal(num: Numbering, a: Bytes, b: Bytes)
    requires Faithful(num) && |a| >= 8 && |b| >= 8
    ensures NumberedLess(num(UserOf(a)), a, num(UserOf(b)), b) <==> InternalLess(a, b)
  {
    var u, v := UserOf(a), UserOf(b);
    if num(v) < num(u) {
      LessAsymmetric(v, u);
    }
  }
}
