/** Bytes on disk: fixed-width integers, varints and length-prefixed strings. */
module Coding {

  type byte = b: int | 0 <= b < 256
  type Bytes = seq<byte>

  const U32: nat := 0x1_0000_0000
  const U64: nat := 0x1_0000_0000_0000_0000

  datatype Option<T> = None | Some(value: T)

  lemma {:induction false} SliceOfSlice(s: Bytes, lo: nat, hi: nat, i: nat, j: nat)
    requires lo <= hi <= |s| && i <= j <= hi - lo
    ensures s[lo..hi][i..j] == s[lo + i..lo + j]
  {
    assert forall k :: 0 <= k < j - i ==> s[lo..hi][i..j][k] == s[lo + i..lo + j][k];
  }

  // ----- fixed width, little endian

  /** Byte i of a number. */
  function Digit(v: nat, i: nat): byte
    decreases i
  {
    if i == 0 then v % 256 else Digit(v / 256, i - 1)
  }

  function Fixed(v: nat, width: nat): (s: Bytes)
    ensures |s| == width
  {
    seq(width, i requires 0 <= i < width => Digit(v, i))
  }

  function FixedValue(s: Bytes): nat {
    if s == [] then 0 else s[0] + 256 * FixedValue(s[1..])
  }

  function Pow256(n: nat): nat {
    if n == 0 then 1 else 256 * Pow256(n - 1)
  }

  lemma {:induction false} FixedStep(v: nat, width: nat)
    requires width > 0
    ensures Fixed(v, width) == [v % 256] + Fixed(v / 256, width - 1)
  {
    var s, t := Fixed(v, width), [v % 256] + Fixed(v / 256, width - 1);
    assert forall i :: 0 <= i < width ==> s[i] == t[i];
  }

  lemma {:induction false} FixedRoundTrip(v: nat, width: nat)
    requires v < Pow256(width)
    ensures FixedValue(Fixed(v, width)) == v
  {
    if width > 0 {
      assert v / 256 < Pow256(width - 1);
      FixedRoundTrip(v / 256, width - 1);
      FixedStep(v, width);
      assert Fixed(v, width)[1..] == Fixed(v / 256, width - 1);
    }
  }

  lemma {:induction false} Pow256Values()
    ensures Pow256(4) == U32 && Pow256(8) == U64
  {
    assert Pow256(1) == 256 && Pow256(2) == 0x1_0000 && Pow256(3) == 0x100_0000;
    assert Pow256(5) == 0x100_0000_0000 && Pow256(6) == 0x1_0000_0000_0000 && Pow256(7) == 0x100_0000_0000_0000;
  }

  // ----- varints

  /** Seven bits per byte, low bits first, the high bit set on all but the last. */
  function Varint(v: nat): (s: Bytes)
    ensures |s| > 0
  {
    if v < 128 then [v] else [v % 128 + 128] + Varint(v / 128)
  }

  /** The integer at the front of s, if it ends within "limit" bytes, and how
      many bytes it takes. */
  function ParseVarint(s: Bytes, limit: nat): (r: Option<(nat, nat)>)
    ensures r.Some? ==> 0 < r.value.1 <= |s| && r.value.1 <= limit
  {
    if limit == 0 || s == [] then None
    else if s[0] < 128 then Some((s[0], 1))
    else match ParseVarint(s[1..], limit - 1)
      case None => None
      case Some((v, n)) => Some((s[0] - 128 + 128 * v, n + 1))
  }

  function Pow128(n: nat): nat {
    if n == 0 then 1 else 128 * Pow128(n - 1)
  }

  lemma {:induction false} ParseContinuation(b: byte, s: Bytes, limit: nat)
    requires limit > 0 && b >= 128
    ensures ParseVarint([b] + s, limit) ==
            match ParseVarint(s, limit - 1)
            case None => None
            case Some((v, n)) => Some((b - 128 + 128 * v, n + 1))
  {
    assert ([b] + s)[1..] == s;
  }

  lemma {:induction false} VarintRoundTrip(v: nat, rest: Bytes, limit: nat)
    requires limit > 0 && v < Pow128(limit)
    ensures |Varint(v)| <= limit
    ensures ParseVarint(Varint(v) + rest, limit) == Some((v, |Varint(v)|))
    decreases limit
  {
    if v < 128 {
      assert (Varint(v) + rest)[0] == v;
    } else {
      var q, b := v / 128, v % 128 + 128;
      assert v == b - 128 + 128 * q && q < Pow128(limit - 1);
      VarintRoundTrip(q, rest, limit - 1);
      ParseContinuation(b, Varint(q) + rest, limit);
      assert Varint(v) + rest == [b] + (Varint(q) + rest);
    }
  }

  lemma {:induction false} Pow128Values()
    ensures U32 <= Pow128(5) && U64 <= Pow128(10)
  {
  }

  /** EncodeVarint32: five unrolled cases. */
  method PutVarint32(dst: Bytes, v: nat) returns (r: Bytes)
    requires v < U32
    ensures r == dst + Varint(v)
  {
    if v < 0x80 {
      r := dst + [v];
    } else if v < 0x4000 {
      Varint2(v);
      r := dst + [v % 0x80 + 128, v / 0x80];
    } else if v < 0x20_0000 {
      Varint3(v);
      r := dst + [v % 0x80 + 128, v / 0x80 % 0x80 + 128, v / 0x4000];
    } else if v < 0x1000_0000 {
      Varint4(v);
      r := dst + [v % 0x80 + 128, v / 0x80 % 0x80 + 128, v / 0x4000 % 0x80 + 128, v / 0x20_0000];
    } else {
      Varint5(v);
      r := dst + [v % 0x80 + 128, v / 0x80 % 0x80 + 128, v / 0x4000 % 0x80 + 128,
                  v / 0x20_0000 % 0x80 + 128, v / 0x1000_0000];
    }
  }

  lemma {:induction false} Varint2(v: nat)
    requires 0x80 <= v < 0x4000
    ensures Varint(v) == [v % 0x80 + 128, v / 0x80]
  {
    assert Varint(v / 0x80) == [v / 0x80];
  }

  lemma {:induction false} Varint3(v: nat)
    requires 0x4000 <= v < 0x20_0000
    ensures Varint(v) == [v % 0x80 + 128, v / 0x80 % 0x80 + 128, v / 0x4000]
  {
    Varint2(v / 0x80);
    assert v / 0x80 / 0x80 == v / 0x4000;
  }

  lemma {:induction false} Varint4(v: nat)
    requires 0x20_0000 <= v < 0x1000_0000
    ensures Varint(v) == [v % 0x80 + 128, v / 0x80 % 0x80 + 128, v / 0x4000 % 0x80 + 128, v / 0x20_0000]
  {
    Varint3(v / 0x80);
    assert v / 0x80 / 0x80 == v / 0x4000 && v / 0x80 / 0x4000 == v / 0x20_0000;
  }

  lemma {:induction false} Varint5(v: nat)
    requires 0x1000_0000 <= v < U32
    ensures Varint(v) == [v % 0x80 + 128, v / 0x80 % 0x80 + 128, v / 0x4000 % 0x80 + 128,
                          v / 0x20_0000 % 0x80 + 128, v / 0x1000_0000]
  {
    Varint4(v / 0x80);
    assert v / 0x80 / 0x80 == v / 0x4000 && v / 0x80 / 0x4000 == v / 0x20_0000;
    assert v / 0x80 / 0x20_0000 == v / 0x1000_0000;
  }

  /** EncodeVarint64: a loop over seven-bit groups. */
  method PutVarint64(dst: Bytes, v: nat) returns (r: Bytes)
    requires v < U64
    ensures r == dst + Varint(v)
  {
    r := dst;
    var x := v;
    while x >= 128
      invariant 0 <= x
      invariant r + Varint(x) == dst + Varint(v)
    {
      assert r + ([x % 128 + 128] + Varint(x / 128)) == (r + [x % 128 + 128]) + Varint(x / 128);
      r := r + [x % 128 + 128];
      x := x / 128;
    }
    r := r + [x];
  }

  method VarintLength(v: nat) returns (len: nat)
    ensures len == |Varint(v)|
  {
    len := 1;
    var x := v;
    while x >= 128
      invariant 0 <= x
      invariant len + |Varint(x)| == |Varint(v)| + 1
    {
      x := x / 128;
      len := len + 1;
    }
  }

  /** GetVarint32 and GetVarint64: "width" is the word the result is kept in, so
      bits beyond it are lost. */
  method GetVarint(s: Bytes, limit: nat, width: nat) returns (r: Option<(nat, Bytes)>)
    requires width > 0
    ensures match ParseVarint(s, limit)
            case None => r == None
            case Some((v, n)) => r == Some((v % width, s[n..]))
  {
    var result, scale := 0, 1;
    ghost var exact: nat := 0;
    var i := 0;
    while i < limit && i < |s|
      invariant 0 <= i <= |s| && i <= limit
      invariant scale > 0 && result == exact % width
      invariant Continues(s, limit, i, exact, scale)
    {
      var b := s[i];
      ContinueStep(s, limit, i, exact, scale);
      i := i + 1;
      if b >= 128 {
        ModAdd(exact, scale * (b - 128), width);
        result := (result + scale * (b - 128)) % width;
        exact := exact + scale * (b - 128);
        scale := scale * 128;
      } else {
        ModAdd(exact, scale * b, width);
        return Some(((result + scale * b) % width, s[i..]));
      }
    }
    return None;
  }

  /** After i bytes, what is left to parse determines the whole result. */
  ghost predicate Continues(s: Bytes, limit: nat, i: nat, exact: nat, scale: nat)
    requires i <= |s| && i <= limit
  {
    match ParseVarint(s[i..], limit - i)
    case None => ParseVarint(s, limit) == None
    case Some((v, n)) => ParseVarint(s, limit) == Some((exact + scale * v, i + n))
  }

  lemma {:induction false} ContinueStep(s: Bytes, limit: nat, i: nat, exact: nat, scale: nat)
    requires i < |s| && i < limit && Continues(s, limit, i, exact, scale)
    ensures s[i] < 128 ==> ParseVarint(s, limit) == Some((exact + scale * s[i], i + 1))
    ensures s[i] >= 128 ==> Continues(s, limit, i + 1, exact + scale * (s[i] - 128), scale * 128)
  {
    assert s[i..][0] == s[i] && s[i..][1..] == s[i + 1..];
    var rest := ParseVarint(s[i + 1..], limit - i - 1);
    if s[i] >= 128 && rest.Some? {
      Distribute(scale, s[i] - 128, rest.value.0);
    }
  }

  lemma {:induction false} ModAdd(a: nat, b: nat, width: nat)
    requires width > 0
    ensures (a % width + b) % width == (a + b) % width
  {
    var q := a / width;
    var y := a % width + b;
    var p := y / width;
    assert a == q * width + a % width && y == p * width + y % width;
    assert a + b == (q + p) * width + y % width by {
      assert (q + p) * width == q * width + p * width;
    }
    ModUnique(a + b, q + p, y % width, width);
  }

  lemma {:induction false} ModUnique(x: nat, q: nat, r: nat, width: nat)
    requires width > 0 && r < width && x == q * width + r
    ensures x % width == r && x / width == q
  {
    var d := x / width - q;
    assert x == (x / width) * width + x % width;
    assert d * width == r - x % width by {
      assert d * width == (x / width) * width - q * width;
    }
    MulAtLeast(d, width);
  }

  lemma {:induction false} MulAtLeast(d: int, width: nat)
    ensures d >= 1 ==> d * width >= width
    ensures d <= -1 ==> d * width <= 0 - width
  {
    assert d * width - width == (d - 1) * width;
    assert d * width + width == (d + 1) * width;
  }

  lemma {:induction false} Distribute(scale: nat, low: nat, v: nat)
    ensures scale * (low + 128 * v) == scale * low + (scale * 128) * v
  {
    assert scale * (128 * v) == (scale * 128) * v;
  }

  // ----- length-prefixed strings

  function Prefixed(s: Bytes): Bytes {
    Varint(|s| % U32) + s
  }

  function ParsePrefixed(s: Bytes): (r: Option<(Bytes, Bytes)>)
    ensures r.Some? ==> |r.value.1| < |s|
  {
    match ParseVarint(s, 5)
    case None => None
    case Some((v, n)) =>
      var len := v % U32;
      if |s| - n >= len then Some((s[n..n + len], s[n + len..])) else None
  }

  /** A length-prefixed string comes back exactly when its length fits the
      32-bit prefix. */
  lemma {:induction false} PrefixedRoundTrip(s: Bytes, rest: Bytes)
    requires |s| < U32
    ensures ParsePrefixed(Prefixed(s) + rest) == Some((s, rest))
  {
    Pow128Values();
    VarintRoundTrip(|s|, s + rest, 5);
    var all := Prefixed(s) + rest;
    assert all == Varint(|s|) + (s + rest);
    var n := |Varint(|s|)|;
    assert all[n..n + |s|] == s && all[n + |s|..] == rest;
  }

  method PutLengthPrefixed(dst: Bytes, s: Bytes) returns (r: Bytes)
    ensures r == dst + Prefixed(s)
  {
    r := PutVarint32(dst, |s| % U32);
    r := r + s;
  }

  method GetLengthPrefixed(s: Bytes) returns (r: Option<(Bytes, Bytes)>)
    ensures r == ParsePrefixed(s)
  {
    var head := GetVarint(s, 5, U32);
    if head.None? {
      return None;
    }
    var (len, input) := head.value;
    if |input| >= len {
      r := Some((input[..len], input[len..]));
      assert match ParseVarint(s, 5) case None => false case Some((v, n)) =>
          input == s[n..] && input[..len] == s[n..n + len] && input[len..] == s[n + len..];
    } else {
      r := None;
    }
  }
}
