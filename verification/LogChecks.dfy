/** What the log reader makes of arbitrary bytes: which fragments it trusts, which
    records it puts together from them, and that every byte is returned or reported. */
module LogChecks {
  import opened Coding
  import opened LogFormat
  import opened LogReaders
  import LogAssembly

  // ----- the checksum of a fragment

  /** The checksum takes in one byte after the other. */
  lemma {:induction false} ExtendByte(step: CrcStep, crc: nat, data: Bytes, b: byte)
    requires crc < U32
    ensures Extend(step, crc, data + [b]) == step(Extend(step, crc, data), b) % U32
    ensures Extend(step, crc, []) == crc
  {
    ExtendConcat(step, crc, data, [b]);
    var one := [b];
    assert one[1..] == [] && Extend(step, step(Extend(step, crc, data), b) % U32, one[1..]) == step(Extend(step, crc, data), b) % U32;
  }

  /** Masking rotates right by 15 bits and adds a constant. */
  lemma {:induction false} MaskRotates(high: nat, low: nat)
    requires high < 0x2_0000 && low < 0x8000
    ensures Mask(high * 0x8000 + low) == (low * 0x2_0000 + high + 0xa282ead8) % 0x1_0000_0000
  {
    assert (high * 0x8000 + low) / 0x8000 == high && (high * 0x8000 + low) % 0x8000 == low;
  }

  lemma {:induction false} MaskUnmask(masked: nat)
    requires masked < U32
    ensures Mask(Unmask(masked)) == masked
  {
    var rot := (masked + U32 - MASK_DELTA) % U32;
    var crc := rot / 0x2_0000 + rot % 0x2_0000 * 0x8000;
    assert crc / 0x8000 == rot % 0x2_0000 && crc % 0x8000 == rot / 0x2_0000;
    assert crc / 0x8000 + crc % 0x8000 * 0x2_0000 == rot;
  }

  /** What the writer stores for a type and a payload. */
  function Stamp(step: CrcStep, t: byte, payload: Bytes): Bytes {
    Fixed(Mask(Extend(step, 0, [t] + payload)), 4)
  }

  lemma {:induction false} FixedOfValue(s: Bytes)
    ensures FixedValue(s) < Pow256(|s|) && Fixed(FixedValue(s), |s|) == s
  {
    if s != [] {
      FixedOfValue(s[1..]);
      FixedStep(FixedValue(s), |s|);
      assert FixedValue(s) % 256 == s[0] && FixedValue(s) / 256 == FixedValue(s[1..]);
    }
  }

  /** With checksums on, four stored bytes are accepted if and only if they are the
      little-endian masked checksum of the type byte and the payload. */
  lemma {:induction false} ChecksIffStamped(step: CrcStep, h: Bytes, t: byte, payload: Bytes)
    requires |h| == 4
    ensures Checks(step, true)(h, t, payload) <==> h == Stamp(step, t, payload)
    ensures Checks(step, false)(h, t, payload)
  {
    var crc := Extend(step, 0, [t] + payload);
    Pow256Values();
    FixedOfValue(h);
    UnmaskMask(crc);
    FixedRoundTrip(Mask(crc), 4);
    MaskUnmask(FixedValue(h));
  }

  lemma {:induction false} SealIsStamp(step: CrcStep, t: byte, payload: Bytes)
    requires |payload| < 0x1_0000
    ensures Header(Seal(step), t, payload) == Stamp(step, t, payload) + Fixed(|payload|, 2) + [t]
  {
    ExtendConcat(step, 0, [t], payload);
    var f := Stamp(step, t, payload);
    assert f == [f[0], f[1], f[2], f[3]];
    TwoBytes(|payload|);
  }

  lemma {:induction false} TwoBytes(n: nat)
    requires n < 0x1_0000
    ensures Fixed(n, 2) == [n % 256, n / 256]
  {
    FixedStep(n, 2);
    FixedStep(n / 256, 1);
  }

  /** The four bytes that belong to a type and a payload. */
  type Stamper = (byte, Bytes) -> Bytes

  /** A checker that accepts those bytes and no others. */
  ghost predicate Exact(check: Checker, stamp: Stamper) {
    forall h, t: byte, payload :: |h| == 4 ==> (check(h, t, payload) <==> h == stamp(t, payload))
  }

  function Stamps(step: CrcStep): Stamper {
    (t: byte, payload: Bytes) => Stamp(step, t, payload)
  }

  lemma {:induction false} ChecksAreExact(step: CrcStep)
    ensures Exact(Checks(step, true), Stamps(step))
  {
    forall h, t: byte, payload | |h| == 4
      ensures Checks(step, true)(h, t, payload) <==> h == Stamps(step)(t, payload)
    {
      ChecksIffStamped(step, h, t, payload);
    }
  }

  // ----- one fragment of an arbitrary file

  /** A whole fragment that the writer could have written is at this offset. */
  ghost predicate SealedAt(stamp: Stamper, file: Bytes, off: nat, t: byte, payload: Bytes) {
    && |payload| < 0x1_0000 && |stamp(t, payload)| == 4
    && off + HEADER + |payload| <= |file|
    && file[off..off + HEADER + |payload|] == stamp(t, payload) + Fixed(|payload|, 2) + [t] + payload
  }

  /** The length a header claims: two bytes, little-endian. */
  function ClaimedLength(b: Bytes): nat
    requires |b| >= HEADER
  {
    FixedValue(b[4..6])
  }

  lemma {:induction false} ClaimIsLength(b: Bytes)
    requires |b| >= HEADER
    ensures ClaimedLength(b) == Length(b[4], b[5]) < 0x1_0000
    ensures Fixed(ClaimedLength(b), 2) == [b[4], b[5]]
  {
    var two := b[4..6];
    assert two[1..][1..] == [] && two[1..][0] == b[5];
    assert FixedValue(two[1..]) == b[5];
    FixedOfValue(two);
    assert two == [b[4], b[5]];
  }

  /** The bytes hold a fragment that the writer could have written, at their front. */
  ghost predicate Stamped(stamp: Stamper, b: Bytes) {
    && |b| >= HEADER && HEADER + ClaimedLength(b) <= |b|
    && b[..4] == stamp(b[6], b[HEADER..HEADER + ClaimedLength(b)])
  }

  /** The front of the rest of a block: returned if it does not claim to be longer than
      that, is not the zeros of a preallocated file, and its checksum is right; otherwise
      the rest of the block is dropped and, except for those zeros, its size reported. */
  lemma {:induction false} ParseTrusts(check: Checker, stamp: Stamper, p: Place, b: Bytes)
    requires HEADER <= |b| <= Leftover(p) && Exact(check, stamp)
    ensures var length := ClaimedLength(b);
            var zeros := b[4] == b[5] == b[6] == 0;
            Parse(check, p, b) ==
              if Stamped(stamp, b) && !zeros then Piece(b[6], b[HEADER..HEADER + length], Plus(p, HEADER + length), [])
              else Piece(BAD, [], Plus(p, |b|), if zeros then [] else [|b|])
  {
    ClaimIsLength(b);
    if HEADER + ClaimedLength(b) <= |b| {
      assert |b[..4]| == 4;
    }
  }

  lemma {:induction false} StampedIsSealed(stamp: Stamper, file: Bytes, off: nat, n: nat)
    requires off + n <= |file| && Stamped(stamp, file[off..off + n])
    ensures var b := file[off..off + n];
            SealedAt(stamp, file, off, b[6], b[HEADER..HEADER + ClaimedLength(b)])
  {
    var b := file[off..off + n];
    ClaimIsLength(b);
    var end := HEADER + ClaimedLength(b);
    assert b[..end] == b[..4] + [b[4], b[5]] + [b[6]] + b[HEADER..end];
    assert b[..end] == file[off..off + end];
  }

  lemma {:induction false} SealedIsStamped(stamp: Stamper, file: Bytes, off: nat, n: nat, t: byte, payload: Bytes)
    requires off + n <= |file| && HEADER + |payload| <= n && SealedAt(stamp, file, off, t, payload)
    ensures var b := file[off..off + n];
            Stamped(stamp, b) && b[6] == t && b[HEADER..HEADER + ClaimedLength(b)] == payload
  {
    var b, end := file[off..off + n], HEADER + |payload|;
    var front := b[..end];
    assert front == file[off..off + end] == stamp(t, payload) + Fixed(|payload|, 2) + [t] + payload;
    assert b[..4] == front[..4] == stamp(t, payload);
    assert b[4..6] == front[4..6] == Fixed(|payload|, 2);
    assert b[6] == front[6] == t;
    assert b[HEADER..end] == front[HEADER..] == payload;
    assert Pow256(1) == 256 && Pow256(2) == 0x1_0000;
    FixedRoundTrip(|payload|, 2);
  }

  /** What PieceAt found, where: the place of a fragment's header or of what was dropped. */
  function PieceStart(file: Bytes, p: Place): (q: Place)
    requires Off(p) <= |file|
    ensures Off(p) <= Off(q) <= |file|
    decreases |file| - Off(p)
  {
    if Off(p) < |file| && Avail(file, p) < HEADER && Avail(file, p) == Leftover(p) then PieceStart(file, Plus(p, Leftover(p)))
    else p
  }

  /** The trailer of a block is skipped in silence, and nothing else is. */
  lemma {:induction false} PieceStarts(check: Checker, file: Bytes, p: Place)
    requires Off(p) <= |file|
    ensures var q := PieceStart(file, p);
            && PieceAt(check, file, p) == PieceAt(check, file, q)
            && (q == p || (q.at == 0 && Off(q) - Off(p) == Leftover(p) < HEADER))
            && (Off(q) < |file| ==> Avail(file, q) >= HEADER || Avail(file, q) < Leftover(q))
    decreases |file| - Off(p)
  {
    if Off(p) < |file| && Avail(file, p) < HEADER && Avail(file, p) == Leftover(p) {
      var next := Plus(p, Leftover(p));
      assert next == Place(p.block + 1, 0);
      assert Leftover(next) == BLOCK;
      PieceStarts(check, file, next);
    }
  }

  /** The rest of the block from there on. */
  function RestOfBlock(file: Bytes, q: Place): Bytes
    requires Off(q) <= |file|
  {
    file[Off(q)..Off(q) + Avail(file, q)]
  }

  lemma {:induction false} PieceHere(check: Checker, file: Bytes, q: Place)
    requires Off(q) <= |file|
    requires Off(q) < |file| ==> Avail(file, q) >= HEADER || Avail(file, q) < Leftover(q)
    ensures var b := RestOfBlock(file, q);
            PieceAt(check, file, q) ==
              if |b| >= HEADER then Parse(check, q, b)
              else if b == [] then Piece(EOF, [], q, [])
              else Piece(EOF, [], Plus(q, |b|), [|b|])
  {
  }

  lemma {:induction false} PieceIsParse(check: Checker, file: Bytes, p: Place)
    requires Off(p) <= |file|
    ensures var q, b := PieceStart(file, p), RestOfBlock(file, PieceStart(file, p));
            && |b| <= Leftover(q)
            && (|b| < HEADER ==> Off(q) + |b| == |file|)
            && PieceAt(check, file, p) ==
                 if |b| >= HEADER then Parse(check, q, b)
                 else if b == [] then Piece(EOF, [], q, [])
                 else Piece(EOF, [], Plus(q, |b|), [|b|])
  {
    PieceStarts(check, file, p);
    PieceHere(check, file, PieceStart(file, p));
  }

  ghost predicate Fragment(piece: Piece) {
    piece.kind != EOF && piece.kind != BAD
  }

  /** On any file with checksums on, a fragment is returned only if it is sealed in the
      file, and reading goes on right behind it. */
  lemma {:induction false} FragmentIsSealed(check: Checker, stamp: Stamper, file: Bytes, p: Place)
    requires Exact(check, stamp) && Off(p) <= |file| && Fragment(PieceAt(check, file, p))
    ensures var piece, q := PieceAt(check, file, p), PieceStart(file, p);
            && piece.kind < 256 && piece.drops == []
            && SealedAt(stamp, file, Off(q), piece.kind, piece.fragment)
            && Off(piece.pos) == Off(q) + HEADER + |piece.fragment|
  {
    PieceIsParse(check, file, p);
    TrustedIsSealed(check, stamp, file, PieceStart(file, p));
  }

  lemma {:induction false} TrustedIsSealed(check: Checker, stamp: Stamper, file: Bytes, q: Place)
    requires Exact(check, stamp) && Off(q) <= |file| && HEADER <= Avail(file, q)
    ensures var piece := Parse(check, q, RestOfBlock(file, q));
            Fragment(piece) ==>
              && piece.kind < 256 && piece.drops == []
              && SealedAt(stamp, file, Off(q), piece.kind, piece.fragment)
              && Off(piece.pos) == Off(q) + HEADER + |piece.fragment|
  {
    var b := RestOfBlock(file, q);
    ParseTrusts(check, stamp, q, b);
    if Stamped(stamp, b) {
      StampedIsSealed(stamp, file, Off(q), |b|);
    }
  }

  /** Some sealed fragment is at the place and within its block. */
  ghost predicate HasSealed(stamp: Stamper, file: Bytes, off: nat, n: nat) {
    exists t: byte, payload :: HEADER + |payload| <= n && SealedAt(stamp, file, off, t, payload)
  }

  /** What is not a sealed fragment is the end of the file, or the rest of a block that is
      dropped and reported in full, except where zeros stand for a header. */
  lemma {:induction false} DroppedIsReported(check: Checker, stamp: Stamper, file: Bytes, p: Place)
    requires Exact(check, stamp) && Off(p) <= |file|
    ensures var piece, q, b := PieceAt(check, file, p), PieceStart(file, p), RestOfBlock(file, PieceStart(file, p));
            && (b == [] ==> piece == Piece(EOF, [], q, []))
            && (0 < |b| < HEADER ==> piece == Piece(EOF, [], Plus(q, |b|), [|b|]) && Off(piece.pos) == |file|)
            && (|b| >= HEADER && !HasSealed(stamp, file, Off(q), |b|) ==>
                  piece == Piece(BAD, [], Plus(q, |b|), if b[4] == b[5] == b[6] == 0 then [] else [|b|]))
  {
    var q := PieceStart(file, p);
    var b := RestOfBlock(file, q);
    PieceIsParse(check, file, p);
    if |b| >= HEADER {
      ParseTrusts(check, stamp, q, b);
      if Stamped(stamp, b) {
        StampedIsSealed(stamp, file, Off(q), |b|);
      }
    }
  }

  /** And a sealed fragment is returned, whatever comes behind it. */
  lemma {:induction false} SealedIsReturned(check: Checker, stamp: Stamper, file: Bytes, p: Place, t: byte, payload: Bytes)
    requires Exact(check, stamp) && Off(p) <= |file| && HEADER + |payload| <= Avail(file, PieceStart(file, p))
    requires SealedAt(stamp, file, Off(PieceStart(file, p)), t, payload) && !(t == 0 && payload == [])
    ensures PieceAt(check, file, p) ==
            Piece(t, payload, Plus(PieceStart(file, p), HEADER + |payload|), [])
  {
    var q := PieceStart(file, p);
    var b := RestOfBlock(file, q);
    SealedIsStamped(stamp, file, Off(q), |b|, t, payload);
    ParseStamped(check, stamp, q, b, t, payload);
    PieceIsParse(check, file, p);
  }

  lemma {:induction false} ParseStamped(check: Checker, stamp: Stamper, q: Place, b: Bytes, t: byte, payload: Bytes)
    requires Exact(check, stamp) && HEADER <= |b| <= Leftover(q)
    requires Stamped(stamp, b) && b[6] == t && b[HEADER..HEADER + ClaimedLength(b)] == payload
    requires !(t == 0 && payload == [])
    ensures Parse(check, q, b) == Piece(t, payload, Plus(q, HEADER + |payload|), [])
  {
    ClaimIsLength(b);
    ParseTrusts(check, stamp, q, b);
  }

  ghost predicate SealedSomewhere(stamp: Stamper, file: Bytes, piece: Piece) {
    piece.kind < 256 && exists off: nat :: SealedAt(stamp, file, off, piece.kind, piece.fragment)
  }

  /** With checksums on, all that is ever put together into records are fragments sealed in
      the file. */
  lemma {:induction false} ReadsOnlySealed(step: CrcStep, file: Bytes, p: Place, piece: Piece)
    requires Off(p) <= |file|
    requires piece in LogAssembly.Pieces(Checks(step, true), file, p) && Fragment(piece)
    ensures SealedSomewhere(Stamps(step), file, piece)
    decreases |file| - Off(p)
  {
    var check := Checks(step, true);
    var first := PieceAt(check, file, p);
    if piece == first {
      ChecksAreExact(step);
      FragmentIsSealed(check, Stamps(step), file, p);
    } else {
      ReadsOnlySealed(step, file, first.pos, piece);
    }
  }
}
