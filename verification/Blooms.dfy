/** The Bloom filter policy (util/bloom.cc). The hash function is a parameter. */
module Blooms {
  import opened Coding
  import opened FilterBlocks

  type Hash = Bytes -> nat

  // ----- bits of a byte string

  predicate HasBit(b: nat, i: nat)
    decreases i
  {
    if i == 0 then b % 2 == 1 else HasBit(b / 2, i - 1)
  }

  function OrBit(b: nat, i: nat): nat
    decreases i
  {
    if i == 0 then b / 2 * 2 + 1 else 2 * OrBit(b / 2, i - 1) + b % 2
  }

  lemma {:induction false} OrBitIff(b: nat, i: nat, j: nat)
    ensures HasBit(OrBit(b, i), j) <==> j == i || HasBit(b, j)
    decreases i
  {
    if i > 0 {
      assert OrBit(b, i) / 2 == OrBit(b / 2, i - 1) && OrBit(b, i) % 2 == b % 2;
      if j > 0 {
        OrBitIff(b / 2, i - 1, j - 1);
      }
    } else if j > 0 {
      assert OrBit(b, i) / 2 == b / 2;
    }
  }

  function Pow2(n: nat): (r: nat)
    ensures r > 0
  {
    if n == 0 then 1 else 2 * Pow2(n - 1)
  }

  lemma {:induction false} OrFits(b: nat, i: nat, n: nat)
    requires b < Pow2(n) && i < n
    ensures OrBit(b, i) < Pow2(n)
    decreases n
  {
    var half := Pow2(n - 1);
    assert Pow2(n) == 2 * half && b / 2 < half;
    if i > 0 {
      OrFits(b / 2, i - 1, n - 1);
      assert OrBit(b, i) == 2 * OrBit(b / 2, i - 1) + b % 2;
    } else {
      assert OrBit(b, i) == b / 2 * 2 + 1;
    }
  }

  /** A byte with one more bit set. */
  function OrByte(b: byte, i: nat): (r: byte)
    requires i < 8
  {
    assert Pow2(4) == 16 && Pow2(8) == 256;
    OrFits(b, i, 8);
    OrBit(b, i)
  }

  predicate BitSet(s: Bytes, pos: nat)
    requires pos < 8 * |s|
  {
    HasBit(s[pos / 8], pos % 8)
  }

  function SetBit(s: Bytes, pos: nat): (r: Bytes)
    requires pos < 8 * |s|
    ensures |r| == |s|
  {
    s[pos / 8 := OrByte(s[pos / 8], pos % 8)]
  }

  lemma {:induction false} SetBitIff(s: Bytes, pos: nat, q: nat)
    requires pos < 8 * |s| && q < 8 * |s|
    ensures BitSet(SetBit(s, pos), q) <==> q == pos || BitSet(s, q)
  {
    if q / 8 == pos / 8 {
      OrBitIff(s[pos / 8], pos % 8, q % 8);
    }
  }

  // ----- probes

  /** The hash rotated right by 17 bits. */
  function Delta(h: nat): nat
    requires h < U32
  {
    h / 0x2_0000 + h % 0x2_0000 * 0x8000
  }

  lemma {:induction false} JoinedBit(lo: nat, hi: nat, n: nat, i: nat)
    requires lo < Pow2(n)
    ensures HasBit(lo + hi * Pow2(n), i) <==> if i < n then HasBit(lo, i) else HasBit(hi, i - n)
    decreases n
  {
    if n > 0 {
      var p := Pow2(n - 1);
      assert hi * Pow2(n) == 2 * (hi * p);
      assert (lo + hi * Pow2(n)) / 2 == lo / 2 + hi * p;
      if i > 0 {
        JoinedBit(lo / 2, hi, n - 1, i - 1);
      }
    }
  }

  /** Bit i of the step is bit i + 17 of the hash, round the end of the word. */
  lemma {:induction false} DeltaRotates(h: nat, i: nat)
    requires h < U32 && i < 32
    ensures HasBit(Delta(h), i) <==> HasBit(h, (i + 17) % 32)
  {
    assert Pow2(5) == 32 && Pow2(10) == 1024 && Pow2(15) == 0x8000 && Pow2(17) == 0x2_0000;
    JoinedBit(h / 0x2_0000, h % 0x2_0000, 15, i);
    JoinedBit(h % 0x2_0000, h / 0x2_0000, 17, (i + 17) % 32);
  }

  /** Double hashing: k positions from h on, delta apart, in 32 bits. */
  function SetProbes(s: Bytes, h: nat, delta: nat, k: nat): (r: Bytes)
    requires s != []
    ensures |r| == |s|
    decreases k
  {
    if k == 0 then s else SetProbes(SetBit(s, h % (8 * |s|)), (h + delta) % U32, delta, k - 1)
  }

  predicate AllProbes(s: Bytes, h: nat, delta: nat, k: nat)
    requires s != []
    decreases k
  {
    k == 0 || (BitSet(s, h % (8 * |s|)) && AllProbes(s, (h + delta) % U32, delta, k - 1))
  }

  /** The j-th position that double hashing gives. */
  function Position(h: nat, delta: nat, j: nat, bits: nat): nat
    requires bits > 0
  {
    (h + j * delta) % U32 % bits
  }

  lemma {:induction false} NextPosition(h: nat, delta: nat, j: nat, bits: nat)
    requires bits > 0
    ensures Position((h + delta) % U32, delta, j, bits) == Position(h, delta, j + 1, bits)
  {
    ModAdd(h + delta, j * delta, U32);
    assert (j + 1) * delta == j * delta + delta;
  }

  ghost predicate Probed(h: nat, delta: nat, k: nat, bits: nat, q: nat)
    requires bits > 0
  {
    exists j: nat :: j < k && Position(h, delta, j, bits) == q
  }

  lemma {:induction false} ProbedStep(h: nat, delta: nat, k: nat, bits: nat, q: nat)
    requires bits > 0 && h < U32 && k > 0
    ensures Probed(h, delta, k, bits, q) <==> q == h % bits || Probed((h + delta) % U32, delta, k - 1, bits, q)
  {
    var next := (h + delta) % U32;
    assert Position(h, delta, 0, bits) == h % bits;
    if j: nat :| j < k && Position(h, delta, j, bits) == q {
      if j > 0 {
        NextPosition(h, delta, j - 1, bits);
      }
    }
    if j: nat :| j < k - 1 && Position(next, delta, j, bits) == q {
      NextPosition(h, delta, j, bits);
    }
  }

  /** The probes set the k positions and no other bit. */
  lemma {:induction false} ProbesSetIff(s: Bytes, h: nat, delta: nat, k: nat, q: nat)
    requires s != [] && h < U32 && q < 8 * |s|
    ensures BitSet(SetProbes(s, h, delta, k), q) <==> BitSet(s, q) || Probed(h, delta, k, 8 * |s|, q)
    decreases k
  {
    if k > 0 {
      SetBitIff(s, h % (8 * |s|), q);
      ProbedStep(h, delta, k, 8 * |s|, q);
      ProbesSetIff(SetBit(s, h % (8 * |s|)), (h + delta) % U32, delta, k - 1, q);
    }
  }

  ghost predicate AllSet(s: Bytes, h: nat, delta: nat, k: nat)
    requires s != []
  {
    var bits := 8 * |s|;
    forall q: nat :: q < bits && Probed(h, delta, k, bits, q) ==> BitSet(s, q)
  }

  lemma {:induction false} AllProbesIff(s: Bytes, h: nat, delta: nat, k: nat)
    requires s != [] && h < U32
    ensures AllProbes(s, h, delta, k) <==> AllSet(s, h, delta, k)
    decreases k
  {
    if k > 0 {
      var bits := 8 * |s|;
      forall q: nat
        ensures Probed(h, delta, k, bits, q) <==> q == h % bits || Probed((h + delta) % U32, delta, k - 1, bits, q)
      {
        ProbedStep(h, delta, k, bits, q);
      }
      AllProbesIff(s, (h + delta) % U32, delta, k - 1);
    }
  }

  // ----- filters

  function HashOf(hash: Hash, key: Bytes): (h: nat)
    ensures h < U32
  {
    hash(key) % U32
  }

  function SetKey(s: Bytes, hash: Hash, k: nat, key: Bytes): (r: Bytes)
    requires s != []
    ensures |r| == |s|
  {
    SetProbes(s, HashOf(hash, key), Delta(HashOf(hash, key)), k)
  }

  function SetKeys(s: Bytes, hash: Hash, k: nat, keys: seq<Bytes>): (r: Bytes)
    requires s != []
    ensures |r| == |s|
  {
    if keys == [] then s
    else SetKey(SetKeys(s, hash, k, keys[..|keys| - 1]), hash, k, keys[|keys| - 1])
  }

  /** At least 64 bits, in whole bytes. */
  function FilterSize(n: nat, bitsPerKey: nat): (bytes: nat)
    ensures bytes >= 8
  {
    ((if n * bitsPerKey < 64 then 64 else n * bitsPerKey) + 7) / 8
  }

  function Filter(hash: Hash, bitsPerKey: nat, k: byte, keys: seq<Bytes>): Bytes {
    SetKeys(seq(FilterSize(|keys|, bitsPerKey), _ => 0), hash, k, keys) + [k]
  }

  /** BloomFilterPolicy::KeyMayMatch. */
  predicate BloomMatch(hash: Hash, key: Bytes, filter: Bytes) {
    |filter| >= 2 &&
    var k := filter[|filter| - 1];
    k > 30 || AllProbes(filter[..|filter| - 1], HashOf(hash, key), Delta(HashOf(hash, key)), k)
  }

  ghost predicate KeyProbes(hash: Hash, k: nat, bits: nat, key: Bytes, q: nat)
    requires bits > 0
  {
    Probed(HashOf(hash, key), Delta(HashOf(hash, key)), k, bits, q)
  }

  ghost predicate SomeProbes(hash: Hash, k: nat, bits: nat, keys: seq<Bytes>, q: nat)
    requires bits > 0
  {
    exists key :: key in keys && KeyProbes(hash, k, bits, key, q)
  }

  lemma {:induction false} SomeProbesStep(hash: Hash, k: nat, bits: nat, init: seq<Bytes>, last: Bytes, q: nat)
    requires bits > 0
    ensures SomeProbes(hash, k, bits, init + [last], q) <==>
      SomeProbes(hash, k, bits, init, q) || KeyProbes(hash, k, bits, last, q)
  {
    var keys := init + [last];
    if key :| key in init && KeyProbes(hash, k, bits, key, q) {
      assert key in keys;
    }
    assert last in keys;
  }

  /** The bits set are the positions of the keys and no other. */
  lemma {:induction false} KeysSetIff(s: Bytes, hash: Hash, k: nat, keys: seq<Bytes>, q: nat)
    requires s != [] && q < 8 * |s|
    ensures BitSet(SetKeys(s, hash, k, keys), q) <==> BitSet(s, q) || SomeProbes(hash, k, 8 * |s|, keys, q)
    decreases |keys|
  {
    if keys != [] {
      var init, last := keys[..|keys| - 1], keys[|keys| - 1];
      var h := HashOf(hash, last);
      KeysSetIff(s, hash, k, init, q);
      ProbesSetIff(SetKeys(s, hash, k, init), h, Delta(h), k, q);
      assert keys == init + [last];
      SomeProbesStep(hash, k, 8 * |s|, init, last, q);
    }
  }

  lemma {:induction false} ZeroHasNoBit(i: nat)
    ensures !HasBit(0, i)
  {
    if i > 0 {
      ZeroHasNoBit(i - 1);
    }
  }

  /** Exactly when a key matches a filter: when each of its positions is one of the keys
      that were summarised. */
  lemma {:induction false} MatchIff(hash: Hash, bitsPerKey: nat, k: byte, keys: seq<Bytes>, key: Bytes)
    ensures var bits := 8 * FilterSize(|keys|, bitsPerKey);
      BloomMatch(hash, key, Filter(hash, bitsPerKey, k, keys))
      <==> k > 30 || forall q: nat :: q < bits && KeyProbes(hash, k, bits, key, q) ==> SomeProbes(hash, k, bits, keys, q)
  {
    var zeros: Bytes := seq(FilterSize(|keys|, bitsPerKey), _ => 0);
    var s := SetKeys(zeros, hash, k, keys);
    var f := Filter(hash, bitsPerKey, k, keys);
    assert f[..|f| - 1] == s;
    AllProbesIff(s, HashOf(hash, key), Delta(HashOf(hash, key)), k);
    forall q: nat | q < 8 * |s|
      ensures BitSet(s, q) <==> SomeProbes(hash, k, 8 * |s|, keys, q)
    {
      KeysSetIff(zeros, hash, k, keys, q);
      ZeroHasNoBit(q % 8);
    }
  }

  /** Whatever the hash, a key that was summarised matches. */
  lemma {:induction false} BloomHasNoFalseNegatives(hash: Hash, bitsPerKey: nat, k: byte)
    ensures NoFalseNegatives(keys => Filter(hash, bitsPerKey, k, keys), (key, filter) => BloomMatch(hash, key, filter))
  {
    forall keys: seq<Bytes>, key: Bytes | key in keys
      ensures BloomMatch(hash, key, Filter(hash, bitsPerKey, k, keys))
    {
      MatchIff(hash, bitsPerKey, k, keys, key);
    }
  }

  /** The inner loop of CreateFilter: one key's bits, in place. */
  method AddProbes(filter: array<byte>, start: nat, k: nat)
    requires filter.Length > 0 && start < U32
    modifies filter
    ensures filter[..] == SetProbes(old(filter[..]), start, Delta(start), k)
  {
    var h: nat, delta: nat := start, Delta(start);
    var bits := filter.Length * 8;
    for j := 0 to k
      invariant SetProbes(filter[..], h, delta, k - j) == SetProbes(old(filter[..]), start, delta, k)
    {
      var bitpos := h % bits;
      ghost var was := filter[..];
      filter[bitpos / 8] := OrByte(filter[bitpos / 8], bitpos % 8);
      assert filter[..] == SetBit(was, bitpos);
      h := (h + delta) % U32;
    }
  }

  /** BloomFilterPolicy::CreateFilter. */
  method CreateFilter(hash: Hash, bitsPerKey: nat, k: byte, keys: seq<Bytes>) returns (dst: Bytes)
    ensures dst == Filter(hash, bitsPerKey, k, keys)
  {
    var bits := |keys| * bitsPerKey;
    if bits < 64 {
      bits := 64;
    }
    var bytes := (bits + 7) / 8;
    var filter := new byte[bytes](_ => 0);
    ghost var zeros: Bytes := filter[..];
    assert zeros == seq(FilterSize(|keys|, bitsPerKey), _ => 0);
    for i := 0 to |keys|
      invariant filter[..] == SetKeys(zeros, hash, k, keys[..i])
    {
      AddProbes(filter, HashOf(hash, keys[i]), k);
      assert keys[..i + 1][..i] == keys[..i];
    }
    assert keys[..|keys|] == keys;
    dst := filter[..] + [k];
  }

  method CheckProbes(s: Bytes, start: nat, k: nat) returns (may: bool)
    requires s != [] && start < U32
    ensures may == AllProbes(s, start, Delta(start), k)
  {
    var h: nat, delta: nat := start, Delta(start);
    var bits := |s| * 8;
    for j := 0 to k
      invariant AllProbes(s, h, delta, k - j) == AllProbes(s, start, delta, k)
    {
      var bitpos := h % bits;
      if !HasBit(s[bitpos / 8], bitpos % 8) {
        return false;
      }
      h := (h + delta) % U32;
    }
    return true;
  }

  method KeyMayMatch(hash: Hash, key: Bytes, filter: Bytes) returns (may: bool)
    ensures may == BloomMatch(hash, key, filter)
  {
    var len := |filter|;
    if len < 2 {
      return false;
    }
    var k := filter[len - 1];
    if k > 30 {
      return true;
    }
    may := CheckProbes(filter[..len - 1], HashOf(hash, key), k);
  }
}
