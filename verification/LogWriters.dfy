/** The log writer (db/log_writer.cc): a reservation under the offset mutex, then
    positional writes into the reserved extent without any lock. */
module LogWriters {
  import opened Coding
  import opened LogFormat

  /** One WriteAt call. */
  datatype Write = Write(off: nat, data: Bytes)

  /** A file that is written at any position: the bytes written so far. */
  type Sparse = map<nat, byte>

  predicate Covers(w: Write, k: nat) {
    w.off <= k < w.off + |w.data|
  }

  function At(w: Write, k: nat): byte
    requires Covers(w, k)
  {
    w.data[k - w.off]
  }

  function ApplyOne(file: Sparse, w: Write): Sparse {
    file + map k: nat | w.off <= k < w.off + |w.data| && Covers(w, k) :: At(w, k)
  }

  /** What a file holds after these positional writes. */
  function Contents(ws: seq<Write>): Sparse {
    if ws == [] then map[] else ApplyOne(Contents(ws[..|ws| - 1]), ws[|ws| - 1])
  }

  function TrailerWrites(p: Place): seq<Write> {
    if Trailer(p) > 0 then [Write(Off(p), Zeros(Trailer(p)))] else []
  }

  function PhysicalWrites(seal: Sealer, t: byte, payload: Bytes, off: nat): seq<Write>
    requires |payload| < 0x1_0000
  {
    [Write(off, Header(seal, t, payload)), Write(off + HEADER, payload)]
  }

  function FragmentWrites(seal: Sealer, p: Place, data: Bytes, begin: bool): seq<Write> {
    var n := Take(p, |data|);
    TrailerWrites(p) + PhysicalWrites(seal, FragmentType(begin, n == |data|), data[..n], Off(HeaderAt(p)))
  }

  /** The writes one record makes, in order. */
  function RecordWrites(seal: Sealer, p: Place, data: Bytes, begin: bool): seq<Write>
    decreases |data|, Rank(p)
  {
    var n := Take(p, |data|);
    if n == |data| then FragmentWrites(seal, p, data, begin)
    else FragmentWrites(seal, p, data, begin) + RecordWrites(seal, After(p, |data|), data[n..], false)
  }

  lemma {:induction false} RecordStep(seal: Sealer, p: Place, data: Bytes, begin: bool)
    ensures var n := Take(p, |data|);
      RecordWrites(seal, p, data, begin) == FragmentWrites(seal, p, data, begin) +
      if n == |data| then [] else RecordWrites(seal, After(p, |data|), data[n..], false)
  {
  }

  /** The writes of all records, in reservation order. */
  function LogWrites(seal: Sealer, p: Place, records: seq<Bytes>): seq<Write>
    decreases |records|
  {
    if records == [] then []
    else RecordWrites(seal, p, records[0], true)
         + LogWrites(seal, EndPlace(p, |records[0]|), records[1..])
  }

  /** The block arithmetic that both passes of AddRecord repeat: how many trailer
      bytes to skip and how many payload bytes fit. */
  method NextFragment(off: nat, left: nat, ghost p: Place) returns (pad: nat, n: nat)
    requires off == Off(p)
    ensures pad == Trailer(p) && n == Take(p, left)
  {
    PlaceOf(off, p);
    var blockOffset := off % BLOCK;
    var leftover := BLOCK - blockOffset;
    pad := 0;
    if leftover < HEADER {
      pad := leftover;
      blockOffset := 0;
    }
    var avail := BLOCK - blockOffset - HEADER;
    n := if left < avail then left else avail;
  }

  class Writer {
    const seal: Sealer
    var offset: nat
    /** The destination file, as the WriteAt calls it has received. */
    var dest: seq<Write>

    constructor (seal: Sealer)
      ensures this.seal == seal && offset == 0 && dest == []
    {
      this.seal, offset, dest := seal, 0, [];
    }

    /** The first pass of AddRecord, under the mutex: claims the extent. */
    method Reserve(size: nat, ghost p: Place) returns (start: nat)
      requires offset == Off(p)
      modifies this`offset
      ensures start == old(offset) && offset == Off(EndPlace(p, size))
    {
      start := offset;
      var end: nat, left: nat := offset, size;
      ghost var at := p;
      while true
        invariant end == Off(at) && EndPlace(at, left) == EndPlace(p, size)
        decreases left, Rank(at)
      {
        var pad, n := NextFragment(end, left, at);
        at := After(at, left);
        end := end + pad + HEADER + n;
        left := left - n;
        if left == 0 { break; }
      }
      offset := end;
    }

    method WriteAt(off: nat, data: Bytes)
      modifies this`dest
      ensures dest == old(dest) + [Write(off, data)]
    {
      dest := dest + [Write(off, data)];
    }

    method EmitPhysicalRecordAt(t: byte, payload: Bytes, off: nat)
      requires |payload| < 0x1_0000
      modifies this`dest
      ensures dest == old(dest) + PhysicalWrites(seal, t, payload, off)
    {
      var crc := seal(t, payload);
      var buf := [crc.0, crc.1, crc.2, crc.3, |payload| % 256, |payload| / 256, t];
      WriteAt(off, buf);
      WriteAt(off + HEADER, payload);
    }

    /** One turn of the second pass. */
    method EmitFragment(off: nat, left: Bytes, begin: bool, ghost p: Place) returns (n: nat, next: nat)
      requires off == Off(p)
      modifies this`dest
      ensures n == Take(p, |left|) && next == Off(After(p, |left|))
      ensures dest == old(dest) + FragmentWrites(seal, p, left, begin)
    {
      var pad;
      pad, n := NextFragment(off, |left|, p);
      if pad > 0 {
        WriteAt(off, Zeros(pad));
      }
      assert dest == old(dest) + TrailerWrites(p);
      EmitPhysicalRecordAt(FragmentType(begin, n == |left|), left[..n], off + pad);
      next := off + pad + HEADER + n;
    }

    /** The second pass of AddRecord, without the mutex. */
    method EmitRecord(start: nat, data: Bytes, ghost p: Place)
      requires start == Off(p)
      modifies this`dest
      ensures dest == old(dest) + RecordWrites(seal, p, data, true)
    {
      var left: Bytes, off: nat, begin := data, start, true;
      ghost var at := p;
      while true
        invariant off == Off(at)
        invariant dest + RecordWrites(seal, at, left, begin) == old(dest) + RecordWrites(seal, p, data, true)
        decreases |left|, Rank(at)
      {
        RecordStep(seal, at, left, begin);
        var n, next := EmitFragment(off, left, begin, at);
        at := After(at, |left|);
        off, left, begin := next, left[n..], false;
        if |left| == 0 { break; }
      }
    }
  }

  // ----- any interleaving writes the same file

  /** A write puts nothing at a position but what "whole" has there. */
  ghost predicate Agrees(w: Write, whole: Write) {
    forall k: nat :: Covers(w, k) ==> Covers(whole, k) && At(w, k) == At(whole, k)
  }

  ghost predicate Covered(ws: seq<Write>, k: nat) {
    exists w :: w in ws && Covers(w, k)
  }

  ghost predicate Lays(ws: seq<Write>, whole: Write) {
    && (forall w :: w in ws ==> Agrees(w, whole))
    && (forall k: nat :: Covers(whole, k) ==> Covered(ws, k))
  }

  lemma {:induction false} AgreesTrans(w: Write, part: Write, whole: Write)
    requires Agrees(w, part) && Agrees(part, whole)
    ensures Agrees(w, whole)
  {
  }

  lemma {:induction false} LaysConcat(a: seq<Write>, base: nat, x: Bytes, b: seq<Write>, y: Bytes)
    requires Lays(a, Write(base, x)) && Lays(b, Write(base + |x|, y))
    ensures Lays(a + b, Write(base, x + y))
  {
    var whole, left, right := Write(base, x + y), Write(base, x), Write(base + |x|, y);
    assert Agrees(left, whole) && Agrees(right, whole);
    forall w | w in a + b
      ensures Agrees(w, whole)
    {
      AgreesTrans(w, if w in a then left else right, whole);
    }
    forall k: nat | Covers(whole, k)
      ensures Covered(a + b, k)
    {
      assert if k < base + |x| then Covers(left, k) else Covers(right, k);
    }
  }

  lemma {:induction false} OneWriteLays(off: nat, data: Bytes)
    ensures Lays([Write(off, data)], Write(off, data))
  {
    assert Write(off, data) in [Write(off, data)];
  }

  lemma {:induction false} FragmentLays(seal: Sealer, p: Place, data: Bytes, begin: bool)
    ensures Lays(FragmentWrites(seal, p, data, begin), Write(Off(p), Fragment(seal, p, data, begin)))
  {
    var n, at := Take(p, |data|), Off(HeaderAt(p));
    var z := Zeros(Trailer(p));
    var h := Header(seal, FragmentType(begin, n == |data|), data[..n]);
    var wh, wp := Write(at, h), Write(at + HEADER, data[..n]);
    OneWriteLays(Off(p), z);
    assert Lays(TrailerWrites(p), Write(Off(p), z));
    OneWriteLays(at, h);
    OneWriteLays(at + HEADER, data[..n]);
    LaysConcat(TrailerWrites(p), Off(p), z, [wh], h);
    LaysConcat(TrailerWrites(p) + [wh], Off(p), z + h, [wp], data[..n]);
    assert TrailerWrites(p) + [wh] + [wp] == TrailerWrites(p) + [wh, wp];
  }

  lemma {:induction false} RecordLays(seal: Sealer, p: Place, data: Bytes, begin: bool)
    ensures Lays(RecordWrites(seal, p, data, begin), Write(Off(p), Emit(seal, p, data, begin)))
    decreases |data|, Rank(p)
  {
    var n, next := Take(p, |data|), After(p, |data|);
    FragmentLays(seal, p, data, begin);
    if n < |data| {
      RecordLays(seal, next, data[n..], false);
      LaysConcat(FragmentWrites(seal, p, data, begin), Off(p), Fragment(seal, p, data, begin),
                 RecordWrites(seal, next, data[n..], false), Emit(seal, next, data[n..], false));
    }
  }

  lemma {:induction false} LogLays(seal: Sealer, p: Place, records: seq<Bytes>)
    ensures Lays(LogWrites(seal, p, records), Write(Off(p), LogBytes(seal, p, records)))
    decreases |records|
  {
    if records != [] {
      var next := EndPlace(p, |records[0]|);
      RecordLays(seal, p, records[0], true);
      LogLays(seal, next, records[1..]);
      LaysConcat(RecordWrites(seal, p, records[0], true), Off(p), Emit(seal, p, records[0], true),
                 LogWrites(seal, next, records[1..]), LogBytes(seal, next, records[1..]));
    }
  }

  /** After some of the writes, in any order, every byte of the file is the log's
      byte at that position. */
  lemma {:induction false} PartialLogAgrees(run: seq<Write>, whole: Write)
    requires forall w :: w in run ==> Agrees(w, whole)
    ensures var file := Contents(run);
      forall k: nat :: (k in file <==> Covered(run, k)) && (k in file ==> Covers(whole, k) && file[k] == At(whole, k))
  {
    if run != [] {
      var init, last := run[..|run| - 1], run[|run| - 1];
      assert run == init + [last];
      PartialLogAgrees(init, whole);
      assert forall k: nat :: Covered(run, k) <==> Covered(init, k) || Covers(last, k);
    }
  }

  lemma {:induction false} SameWrites(run: seq<Write>, ws: seq<Write>, whole: Write)
    requires multiset(run) == multiset(ws) && Lays(ws, whole)
    ensures Lays(run, whole)
  {
    forall w
      ensures w in run <==> w in ws
    {
      assert w in multiset(run) <==> w in multiset(ws);
    }
    forall k: nat | Covers(whole, k)
      ensures Covered(run, k)
    {
      assert Covered(ws, k);
    }
  }

  /** However the positional writes of concurrent AddRecord calls interleave, once
      all are done the file is the log of the records in reservation order. */
  lemma {:induction false} AnyInterleavingWritesTheLog(seal: Sealer, p: Place, records: seq<Bytes>, run: seq<Write>)
    requires multiset(run) == multiset(LogWrites(seal, p, records))
    ensures var file, log := Contents(run), Write(Off(p), LogBytes(seal, p, records));
      forall k: nat :: (k in file <==> Covers(log, k)) && (k in file ==> file[k] == At(log, k))
  {
    var log := Write(Off(p), LogBytes(seal, p, records));
    LogLays(seal, p, records);
    SameWrites(run, LogWrites(seal, p, records), log);
    PartialLogAgrees(run, log);
  }

  /** Where each record's extent starts when they are reserved in this order. */
  function Starts(p: Place, records: seq<Bytes>): (s: seq<Place>)
    ensures |s| == |records|
    decreases |records|
  {
    if records == [] then [] else [p] + Starts(EndPlace(p, |records[0]|), records[1..])
  }

  /** Extents are disjoint, in order and without gaps. */
  lemma {:induction false} ExtentsTile(p: Place, records: seq<Bytes>, i: nat)
    requires i < |records|
    ensures var s := Starts(p, records);
      && s[0] == p && Off(p) <= Off(s[i])
      && (i + 1 < |records| ==> s[i + 1] == EndPlace(s[i], |records[i]|))
    decreases |records|
  {
    var next := EndPlace(p, |records[0]|);
    if i > 0 {
      ExtentsTile(next, records[1..], i - 1);
    } else if |records| > 1 {
      assert Starts(next, records[1..])[0] == next;
    }
  }

  /** A record's writes fill its extent exactly: no byte outside, none left out. */
  lemma {:induction false} RecordFillsExtent(seal: Sealer, p: Place, data: Bytes, k: nat)
    ensures Covered(RecordWrites(seal, p, data, true), k) <==> Off(p) <= k < Off(EndPlace(p, |data|))
  {
    var ws, whole := RecordWrites(seal, p, data, true), Write(Off(p), Emit(seal, p, data, true));
    RecordLays(seal, p, data, true);
    assert Covers(whole, k) <==> Off(p) <= k < Off(EndPlace(p, |data|));
    if Covered(ws, k) {
      var w :| w in ws && Covers(w, k);
      assert Agrees(w, whole);
    }
  }
}
