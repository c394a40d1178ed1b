/** The log file format: records cut into fragments that never cross a 32 KiB
    block, each behind a 7-byte header with a masked checksum. */
module LogFormat {
  import opened Coding

  const BLOCK: nat := 32768
  const HEADER: nat := 7

  const ZERO: byte := 0
  const FULL: byte := 1
  const FIRST: byte := 2
  const MIDDLE: byte := 3
  const LAST: byte := 4

  // ----- checksums

  /** The checksum is a fold over bytes; "step" is CRC32C's table step. */
  type CrcStep = (nat, byte) -> nat

  function Extend(step: CrcStep, crc: nat, data: Bytes): (r: nat)
    requires crc < U32
    ensures r < U32
    decreases |data|
  {
    if data == [] then crc else Extend(step, step(crc, data[0]) % U32, data[1..])
  }

  lemma {:induction false} ExtendConcat(step: CrcStep, crc: nat, a: Bytes, b: Bytes)
    requires crc < U32
    ensures Extend(step, Extend(step, crc, a), b) == Extend(step, crc, a + b)
    decreases |a|
  {
    if a == [] {
      assert a + b == b;
    } else {
      assert (a + b)[0] == a[0] && (a + b)[1..] == a[1..] + b;
      ExtendConcat(step, step(crc, a[0]) % U32, a[1..], b);
    }
  }

  const MASK_DELTA: nat := 0xa282ead8

  /** Rotate right by 15 bits and add a constant, in 32 bits. */
  function Mask(crc: nat): (r: nat)
    requires crc < U32
    ensures r < U32
  {
    (crc / 0x8000 + crc % 0x8000 * 0x2_0000 + MASK_DELTA) % U32
  }

  function Unmask(masked: nat): (r: nat)
    requires masked < U32
    ensures r < U32
  {
    var rot := (masked + U32 - MASK_DELTA) % U32;
    rot / 0x2_0000 + rot % 0x2_0000 * 0x8000
  }

  lemma {:induction false} UnmaskMask(crc: nat)
    requires crc < U32
    ensures Unmask(Mask(crc)) == crc
  {
    var rot := crc / 0x8000 + crc % 0x8000 * 0x2_0000;
    assert rot < U32;
    assert (Mask(crc) + U32 - MASK_DELTA) % U32 == rot;
    assert rot / 0x2_0000 == crc % 0x8000 && rot % 0x2_0000 == crc / 0x8000;
  }

  // ----- fragments and records

  /** The four checksum bytes of a fragment, from its type and payload. */
  type Sealer = (byte, Bytes) -> (byte, byte, byte, byte)

  /** The masked CRC of the type byte and the payload, little-endian. */
  function Seal(step: CrcStep): Sealer {
    (t: byte, payload: Bytes) =>
      var f := Fixed(Mask(Extend(step, Extend(step, 0, [t]), payload)), 4);
      (f[0], f[1], f[2], f[3])
  }

  function Header(seal: Sealer, t: byte, payload: Bytes): (h: Bytes)
    requires |payload| < 0x1_0000
    ensures |h| == HEADER
  {
    var q := seal(t, payload);
    [q.0, q.1, q.2, q.3, |payload| % 256, |payload| / 256, t]
  }

  function Zeros(n: nat): (z: Bytes)
    ensures |z| == n
  {
    seq(n, _ => 0)
  }

  /** A file position: block number and offset in the block. */
  datatype RawPlace = Place(block: nat, at: nat)

  type Place = p: RawPlace | p.at < 32768 witness Place(0, 0)

  function Off(p: Place): nat {
    p.block * 32768 + p.at
  }

  /** Every offset is a place, and only one. */
  lemma {:induction false} PlaceOf(off: nat, p: Place)
    ensures off / BLOCK == p.block && off % BLOCK == p.at <==> off == Off(p)
  {
  }

  function Leftover(p: Place): (n: nat)
    ensures 0 < n <= BLOCK
  {
    BLOCK - p.at
  }

  /** The place "n" bytes on, within the block or at the start of the next. */
  function Plus(p: Place, n: nat): (q: Place)
    requires n <= Leftover(p)
    ensures Off(q) == Off(p) + n
  {
    if n == Leftover(p) then Place(p.block + 1, 0) else Place(p.block, p.at + n)
  }

  /** Bytes of zero that fill a block too full for another header. */
  function Trailer(p: Place): nat {
    if Leftover(p) < HEADER then Leftover(p) else 0
  }

  /** Where the next fragment's header goes. */
  function HeaderAt(p: Place): (h: Place)
    ensures Leftover(h) >= HEADER
  {
    Plus(p, Trailer(p))
  }

  /** How many of "left" bytes the next fragment takes. */
  function Take(p: Place, left: nat): (n: nat)
    ensures n <= left && HEADER + n <= Leftover(HeaderAt(p))
  {
    var avail := Leftover(HeaderAt(p)) - HEADER;
    if left < avail then left else avail
  }

  function After(p: Place, left: nat): Place {
    Plus(HeaderAt(p), HEADER + Take(p, left))
  }

  function FragmentType(begin: bool, end: bool): byte {
    if begin && end then FULL else if begin then FIRST else if end then LAST else MIDDLE
  }

  /** Zero while a fragment must take data; one when it may take none. */
  function Rank(p: Place): nat {
    if Leftover(p) <= HEADER then 1 else 0
  }

  /** Where the record that starts at "p" ends. */
  function EndPlace(p: Place, left: nat): (end: Place)
    ensures Off(end) > Off(p)
    decreases left, Rank(p)
  {
    if Take(p, left) == left then After(p, left)
    else EndPlace(After(p, left), left - Take(p, left))
  }

  /** One fragment with the trailer before it. */
  function Fragment(seal: Sealer, p: Place, data: Bytes, begin: bool): (r: Bytes)
    ensures |r| == Off(After(p, |data|)) - Off(p)
  {
    var n := Take(p, |data|);
    Zeros(Trailer(p)) + Header(seal, FragmentType(begin, n == |data|), data[..n]) + data[..n]
  }

  /** The bytes of (the rest of) a record from "p" on: exactly as many as the
      reservation pass counts. */
  function Emit(seal: Sealer, p: Place, data: Bytes, begin: bool): (r: Bytes)
    ensures |r| == Off(EndPlace(p, |data|)) - Off(p)
    decreases |data|, Rank(p)
  {
    var n := Take(p, |data|);
    if n == |data| then Fragment(seal, p, data, begin)
    else Fragment(seal, p, data, begin) + Emit(seal, After(p, |data|), data[n..], false)
  }

  /** A log file: records one after another from a place. */
  function LogBytes(seal: Sealer, p: Place, records: seq<Bytes>): Bytes
    decreases |records|
  {
    if records == [] then []
    else Emit(seal, p, records[0], true) + LogBytes(seal, EndPlace(p, |records[0]|), records[1..])
  }
}
