/** Reading a log after a crash that left any of its positional writes undone: a
    record comes back exactly when no unwritten fragment is before one of its
    fragments in the same block. */
module LogCrashes {
  import opened Coding
  import opened LogFormat
  import opened LogHoles
  import opened LogReaders
  import opened LogRoundTrip
  import opened LogWriters

  /** One fragment of a log: header place, place after it, type and payload. */
  datatype Frag = Frag(at: Place, next: Place, kind: byte, payload: Bytes)

  function FragOf(p: Place, data: Bytes, begin: bool): Frag {
    var n := Take(p, |data|);
    Frag(HeaderAt(p), After(p, |data|), FragmentType(begin, n == |data|), data[..n])
  }

  function RecordFrags(p: Place, data: Bytes, begin: bool): seq<Frag>
    decreases |data|, Rank(p)
  {
    var n := Take(p, |data|);
    [FragOf(p, data, begin)] + if n == |data| then [] else RecordFrags(After(p, |data|), data[n..], false)
  }

  function LogFrags(p: Place, records: seq<Bytes>): seq<Frag>
    decreases |records|
  {
    if records == [] then []
    else RecordFrags(p, records[0], true) + LogFrags(EndPlace(p, |records[0]|), records[1..])
  }

  function LogEnd(p: Place, records: seq<Bytes>): Place
    decreases |records|
  {
    if records == [] then p else LogEnd(EndPlace(p, |records[0]|), records[1..])
  }

  // ----- the reader on a file with holes

  ghost predicate GoodFrag(f: Frag) {
    && |f.payload| < 0x1_0000 && HEADER + |f.payload| <= Leftover(f.at)
    && f.next == Plus(f.at, HEADER + |f.payload|)
    && f.kind in {FULL, FIRST, MIDDLE, LAST}
  }

  /** Fragments that follow one another from a place on, up to a place. */
  ghost predicate Chain(p: Place, fs: seq<Frag>, end: Place)
    decreases |fs|
  {
    if fs == [] then p == end
    else GoodFrag(fs[0]) && fs[0].at == HeaderAt(p) && Chain(fs[0].next, fs[1..], end)
  }

  /** Nothing can be read at a fragment's place, and the rest of its block is skipped. */
  ghost predicate Lost(check: Checker, file: Bytes, h: Place) {
    Off(h) <= |file| ==>
      var piece := PieceAt(check, file, h);
      && (piece.kind == BAD || (piece.kind == EOF && |file| < Off(h) + HEADER))
      && Off(piece.pos) == Off(h) + Avail(file, h)
  }

  /** In the file each fragment is written, or is a hole. */
  ghost predicate FragIs(check: Checker, seal: Sealer, file: Bytes, holes: set<Place>, f: Frag)
    requires |f.payload| < 0x1_0000
  {
    && (if f.at in holes then Lost(check, file, f.at) else Stored(file, Off(f.at), Physical(seal, f.kind, f.payload)))
    && forall x :: x in holes ==> !(Off(f.at) < Off(x) < Off(f.next))
  }

  ghost predicate FileIs(check: Checker, seal: Sealer, file: Bytes, holes: set<Place>, fs: seq<Frag>) {
    forall i :: 0 <= i < |fs| ==> |fs[i].payload| < 0x1_0000 && FragIs(check, seal, file, holes, fs[i])
  }

  /** Zeros to the end of the file, if it goes on so far. */
  ghost predicate Blank(file: Bytes, p: Place) {
    forall k: nat :: Off(p) <= k < |file| ==> file[k] == 0
  }

  /** Some hole comes before h in its block. */
  ghost predicate Hidden(holes: set<Place>, h: Place) {
    exists x :: x in holes && x.block == h.block && x.at < h.at
  }

  /** What a reader makes of a list of fragments when it sees the clear ones only. */
  ghost function Assembled(fs: seq<Frag>, holes: set<Place>, inRecord: bool, scratch: Bytes): seq<Bytes>
    decreases |fs|
  {
    if fs == [] then []
    else
      var f, rest := fs[0], fs[1..];
      if !Clear(holes, f.at) then Assembled(rest, holes, false, [])
      else if f.kind == FULL then [f.payload] + Assembled(rest, holes, false, [])
      else if f.kind == FIRST then Assembled(rest, holes, true, f.payload)
      else if !inRecord then Assembled(rest, holes, false, [])
      else if f.kind == MIDDLE then Assembled(rest, holes, true, scratch + f.payload)
      else [scratch + f.payload] + Assembled(rest, holes, false, [])
  }

  /** All further records of a reader that may be inside one. */
  function Rest(check: Checker, file: Bytes, r: Place, inRecord: bool, scratch: Bytes, reports: seq<nat>): seq<Bytes>
    requires Off(r) <= |file|
  {
    match RecordAt(check, file, r, inRecord, scratch, reports)
    case End(_, _) => []
    case Record(data, pos, all) => [data] + ReadAll(check, file, pos, all).0
  }

  lemma {:induction false} RestIsReadAll(check: Checker, file: Bytes, r: Place, reports: seq<nat>)
    requires Off(r) <= |file|
    ensures ReadAll(check, file, r, reports).0 == Rest(check, file, r, false, [], reports)
  {
  }

  /** One physical read of a logical one. */
  lemma {:induction false} RestStep(check: Checker, file: Bytes, r: Place, inRecord: bool, scratch: Bytes, reports: seq<nat>)
    requires Off(r) <= |file|
    ensures var piece := PieceAt(check, file, r);
      var all := reports + piece.drops;
      Rest(check, file, r, inRecord, scratch, reports) ==
      match Handle(piece.kind, piece.fragment, inRecord, scratch)
      case Give(data, drops) => [data] + Rest(check, file, piece.pos, false, [], all + drops)
      case Stop(_) => []
      case Go(inside, kept, drops) => Rest(check, file, piece.pos, inside, kept, all + drops)
  {
    var piece := PieceAt(check, file, r);
    var a := Handle(piece.kind, piece.fragment, inRecord, scratch);
    if a.Give? {
      RestIsReadAll(check, file, piece.pos, reports + piece.drops + a.drops);
    }
  }

  lemma {:induction false} NothingAtEnd(check: Checker, file: Bytes, r: Place, inRecord: bool, scratch: Bytes, reports: seq<nat>)
    requires Off(r) == |file|
    ensures Rest(check, file, r, inRecord, scratch, reports) == []
  {
  }

  lemma {:induction false} NothingInBlank(check: Checker, file: Bytes, r: Place, inRecord: bool, scratch: Bytes, reports: seq<nat>)
    requires Off(r) <= |file| && Blank(file, r)
    ensures Rest(check, file, r, inRecord, scratch, reports) == []
    decreases |file| - Off(r)
  {
    BlankPiece(check, file, r);
    var piece := PieceAt(check, file, r);
    var next, told := NoFragment(check, file, r, piece, inRecord, scratch, reports);
    if piece.kind == BAD {
      NothingInBlank(check, file, piece.pos, false, next, told);
    }
  }

  /** A read that finds nothing: the end, or on to the next block outside any record. */
  lemma {:induction false} NoFragment(check: Checker, file: Bytes, r: Place, piece: Piece, inRecord: bool, scratch: Bytes,
                                      reports: seq<nat>) returns (kept: Bytes, told: seq<nat>)
    requires Off(r) <= |file| && piece == PieceAt(check, file, r) && (piece.kind == EOF || piece.kind == BAD)
    ensures Rest(check, file, r, inRecord, scratch, reports) ==
            if piece.kind == EOF then [] else Rest(check, file, piece.pos, false, kept, told)
  {
    var a := Handle(piece.kind, piece.fragment, inRecord, scratch);
    kept := if a.Go? then a.scratch else [];
    told := reports + piece.drops + a.drops;
  }

  lemma {:induction false} BlankPiece(check: Checker, file: Bytes, r: Place)
    requires Off(r) <= |file| && Blank(file, r)
    ensures PieceAt(check, file, r).kind in {EOF, BAD}
    decreases |file| - Off(r)
  {
    if Off(r) < |file| {
      if Avail(file, r) >= HEADER {
        var b := file[Off(r)..Off(r) + Avail(file, r)];
        assert b[4] == file[Off(r) + 4] && b[5] == file[Off(r) + 5] && b[6] == file[Off(r) + 6];
      } else if Avail(file, r) == Leftover(r) {
        BlankPiece(check, file, Plus(r, Leftover(r)));
      }
    }
  }

  /** Where the reader is when the next fragment in the log is the one at h, after p:
      there, or past the block if a hole hid the rest of it. */
  ghost predicate ReaderAt(file: Bytes, holes: set<Place>, p: Place, r: Place) {
    var h := HeaderAt(p);
    && Off(r) <= |file|
    && if Hidden(holes, h) then r == Place(h.block + 1, 0) else r == p || r == h
  }

  /** The file ends before anything at p could be read. */
  ghost predicate Ended(file: Bytes, holes: set<Place>, p: Place) {
    var h := HeaderAt(p);
    |file| <= Off(Place(h.block + 1, 0)) && (Hidden(holes, h) || |file| <= Off(h))
  }

  lemma {:induction false} NothingAfterEnd(check: Checker, seal: Sealer, file: Bytes, holes: set<Place>, p: Place, fs: seq<Frag>, end: Place)
    requires Chain(p, fs, end) && FileIs(check, seal, file, holes, fs) && Ended(file, holes, p)
    ensures Assembled(fs, holes, false, []) == []
    ensures forall inRecord, scratch :: Assembled(fs, holes, inRecord, scratch) == []
    decreases |fs|
  {
    if fs != [] {
      var f := fs[0];
      assert FragIs(check, seal, file, holes, f);
      if !Hidden(holes, f.at) {
        assert f.at in holes;
      }
      NextHidden(holes, f);
      NothingAfterEnd(check, seal, file, holes, f.next, fs[1..], end);
    }
  }

  /** Behind a fragment that cannot be read the rest of its block is hidden. */
  lemma {:induction false} NextHidden(holes: set<Place>, f: Frag)
    requires GoodFrag(f)
    ensures var h := HeaderAt(f.next);
      && (h == Place(f.at.block + 1, 0) || (h.block == f.at.block && h.at > f.at.at))
      && (h.block == f.at.block && !Clear(holes, f.at) ==> Hidden(holes, h))
      && (h.at == 0 ==> !Hidden(holes, h))
      && (Clear(holes, f.at) && (forall x :: x in holes ==> !(Off(f.at) < Off(x) < Off(f.next))) ==> !Hidden(holes, h))
    ensures Clear(holes, f.at) <==> !Hidden(holes, f.at) && f.at !in holes
  {
    var h := HeaderAt(f.next);
    if f.at in holes {
      assert Blocks(f.at, f.at);
    }
    if x :| x in holes && Blocks(x, f.at) {
      assert x.block == f.at.block && (x.at < f.at.at || x == f.at);
    }
    if Hidden(holes, h) && h.block == f.at.block {
      var x :| x in holes && x.block == h.block && x.at < h.at;
      assert h == f.next;
      assert x.at <= f.at.at ==> Blocks(x, f.at);
    }
  }

  lemma {:induction false} SamePlace(p: Place, q: Place)
    requires Off(p) == Off(q)
    ensures p == q
  {
    PlaceOf(Off(p), p);
    PlaceOf(Off(p), q);
  }

  /** The reader on a file with holes assembles what the clear fragments give. */
  lemma {:induction false} ReadsFrags(check: Checker, seal: Sealer, file: Bytes, holes: set<Place>, p: Place, fs: seq<Frag>, end: Place,
                                      r: Place, inRecord: bool, scratch: Bytes, reports: seq<nat>)
    requires Accepts(check, seal) && Chain(p, fs, end) && FileIs(check, seal, file, holes, fs) && Blank(file, end)
    requires ReaderAt(file, holes, p, r) && (inRecord ==> !Hidden(holes, HeaderAt(p)))
    ensures Rest(check, file, r, inRecord, scratch, reports) == Assembled(fs, holes, inRecord, scratch)
    decreases |fs|
  {
    if fs == [] {
      NothingInBlank(check, file, r, inRecord, scratch, reports);
    } else {
      var f := fs[0];
      assert FragIs(check, seal, file, holes, f) && FileIs(check, seal, file, holes, fs[1..]);
      NextHidden(holes, f);
      if Hidden(holes, f.at) {
        ReadsFrags(check, seal, file, holes, f.next, fs[1..], end, r, false, scratch, reports);
        HoleSkipped(fs, holes, inRecord, scratch);
      } else if f.at in holes {
        ReadsHole(check, seal, file, holes, p, fs, end, r, inRecord, scratch, reports);
      } else {
        ReadsWritten(check, seal, file, holes, p, fs, end, r, inRecord, scratch, reports);
      }
    }
  }

  /** A fragment that is not clear ends any record, and outside one the reader's
      scratch does not matter. */
  lemma {:induction false} HoleSkipped(fs: seq<Frag>, holes: set<Place>, inRecord: bool, scratch: Bytes)
    requires fs != [] && !Clear(holes, fs[0].at)
    ensures forall kept :: Assembled(fs, holes, inRecord, scratch) == Assembled(fs[1..], holes, false, kept)
  {
    forall kept
      ensures Assembled(fs[1..], holes, false, kept) == Assembled(fs[1..], holes, false, [])
    {
    }
  }

  lemma {:induction false} ReadsWritten(check: Checker, seal: Sealer, file: Bytes, holes: set<Place>, p: Place, fs: seq<Frag>, end: Place,
                                        r: Place, inRecord: bool, scratch: Bytes, reports: seq<nat>)
    requires Accepts(check, seal) && Chain(p, fs, end) && FileIs(check, seal, file, holes, fs) && Blank(file, end)
    requires ReaderAt(file, holes, p, r) && fs != [] && fs[0].at !in holes && !Hidden(holes, HeaderAt(p))
    ensures Rest(check, file, r, inRecord, scratch, reports) == Assembled(fs, holes, inRecord, scratch)
    decreases |fs|, 0
  {
    var f := fs[0];
    WrittenPiece(check, seal, file, holes, p, f, r);
    var inside, kept, told := FragmentRead(check, file, r, f, inRecord, scratch, reports);
    ReadsFrags(check, seal, file, holes, f.next, fs[1..], end, f.next, inside, kept, told);
    WrittenStep(fs, holes, inRecord, scratch, inside, kept);
  }

  lemma {:induction false} WrittenPiece(check: Checker, seal: Sealer, file: Bytes, holes: set<Place>, p: Place, f: Frag, r: Place)
    requires Accepts(check, seal) && GoodFrag(f) && f.at == HeaderAt(p) && FragIs(check, seal, file, holes, f)
    requires ReaderAt(file, holes, p, r) && f.at !in holes && !Hidden(holes, HeaderAt(p))
    ensures PieceAt(check, file, r) == Piece(f.kind, f.payload, f.next, [])
    ensures ReaderAt(file, holes, f.next, f.next) && !Hidden(holes, HeaderAt(f.next)) && Clear(holes, f.at)
  {
    NextHidden(holes, f);
    SkipsTrailer(check, file, p);
    ParsesPhysical(check, seal, file, f.at, f.kind, f.payload);
  }

  ghost predicate Completes(f: Frag, inRecord: bool) {
    f.kind == FULL || (f.kind == LAST && inRecord)
  }

  ghost function Completed(f: Frag, scratch: Bytes): Bytes {
    if f.kind == FULL then f.payload else scratch + f.payload
  }

  /** The reader's state after a fragment: whether it is inside a record, and what of it. */
  ghost predicate Moves(f: Frag, inRecord: bool, scratch: Bytes, inside: bool, kept: Bytes) {
    && (inside <==> f.kind == FIRST || (f.kind == MIDDLE && inRecord))
    && (inside ==> kept == if f.kind == FIRST then f.payload else scratch + f.payload)
  }

  lemma {:induction false} FragmentRead(check: Checker, file: Bytes, r: Place, f: Frag, inRecord: bool, scratch: Bytes, reports: seq<nat>)
    returns (inside: bool, kept: Bytes, told: seq<nat>)
    requires Off(r) <= |file| && Off(f.next) <= |file| && f.kind in {FULL, FIRST, MIDDLE, LAST}
    requires PieceAt(check, file, r) == Piece(f.kind, f.payload, f.next, [])
    ensures Moves(f, inRecord, scratch, inside, kept)
    ensures Rest(check, file, r, inRecord, scratch, reports) ==
            (if Completes(f, inRecord) then [Completed(f, scratch)] else []) + Rest(check, file, f.next, inside, kept, told)
  {
    RestStep(check, file, r, inRecord, scratch, reports);
    var a := Handle(f.kind, f.payload, inRecord, scratch);
    inside := a.Go? && a.inRecord;
    kept := if a.Go? then a.scratch else [];
    told := reports + [] + a.drops;
  }

  lemma {:induction false} WrittenStep(fs: seq<Frag>, holes: set<Place>, inRecord: bool, scratch: Bytes, inside: bool, kept: Bytes)
    requires fs != [] && Clear(holes, fs[0].at) && fs[0].kind in {FULL, FIRST, MIDDLE, LAST}
    requires Moves(fs[0], inRecord, scratch, inside, kept)
    ensures Assembled(fs, holes, inRecord, scratch) ==
            (if Completes(fs[0], inRecord) then [Completed(fs[0], scratch)] else []) + Assembled(fs[1..], holes, inside, kept)
  {
    assert Assembled(fs[1..], holes, false, kept) == Assembled(fs[1..], holes, false, []);
  }

  lemma {:induction false} ReadsHole(check: Checker, seal: Sealer, file: Bytes, holes: set<Place>, p: Place, fs: seq<Frag>, end: Place,
                                     r: Place, inRecord: bool, scratch: Bytes, reports: seq<nat>)
    requires Accepts(check, seal) && Chain(p, fs, end) && FileIs(check, seal, file, holes, fs) && Blank(file, end)
    requires ReaderAt(file, holes, p, r) && fs != [] && fs[0].at in holes && !Hidden(holes, HeaderAt(p))
    ensures Rest(check, file, r, inRecord, scratch, reports) == Assembled(fs, holes, inRecord, scratch)
    decreases |fs|, 0
  {
    var f := fs[0];
    var piece := HolePiece(check, seal, file, holes, p, f, r);
    NextHidden(holes, f);
    var kept, told := NoFragment(check, file, r, piece, inRecord, scratch, reports);
    if Ended(file, holes, f.next) {
      NothingAfterEnd(check, seal, file, holes, f.next, fs[1..], end);
      if piece.kind == BAD {
        NothingAtEnd(check, file, piece.pos, false, kept, told);
      }
    } else {
      ReadsFrags(check, seal, file, holes, f.next, fs[1..], end, piece.pos, false, kept, told);
      HoleSkipped(fs, holes, inRecord, scratch);
    }
  }

  /** Reading at a hole leads to the next block, or to the end of the file. */
  lemma {:induction false} HolePiece(check: Checker, seal: Sealer, file: Bytes, holes: set<Place>, p: Place, f: Frag, r: Place)
    returns (piece: Piece)
    requires GoodFrag(f) && f.at == HeaderAt(p) && FragIs(check, seal, file, holes, f)
    requires ReaderAt(file, holes, p, r) && f.at in holes && !Hidden(holes, HeaderAt(p))
    ensures piece == PieceAt(check, file, r) && piece.kind in {EOF, BAD}
    ensures if Ended(file, holes, f.next) then Off(piece.pos) == |file|
            else piece.kind == BAD && piece.pos == Place(f.at.block + 1, 0) && ReaderAt(file, holes, f.next, piece.pos)
  {
    piece := PieceAt(check, file, r);
    NextEnded(file, holes, f);
    if Off(f.at) <= |file| {
      SkipsTrailer(check, file, p);
      if Avail(file, f.at) == Leftover(f.at) {
        SamePlace(piece.pos, Place(f.at.block + 1, 0));
      }
    } else {
      assert r == p && Avail(file, p) < Leftover(p);
    }
  }

  /** Behind a hole nothing more is read exactly when the file ends in the hole's block. */
  lemma {:induction false} NextEnded(file: Bytes, holes: set<Place>, f: Frag)
    requires GoodFrag(f) && f.at in holes
    ensures Ended(file, holes, f.next) <==> |file| <= Off(Place(f.at.block + 1, 0))
    ensures Off(Place(f.at.block + 1, 0)) <= |file| ==> ReaderAt(file, holes, f.next, Place(f.at.block + 1, 0))
  {
    NextHidden(holes, f);
  }

  // ----- from fragments to records

  /** Those records whose flag is set, in order. */
  function Select(records: seq<Bytes>, flags: seq<bool>): seq<Bytes>
    requires |records| == |flags|
    decreases |records|
  {
    if records == [] then []
    else (if flags[0] then [records[0]] else []) + Select(records[1..], flags[1..])
  }

  /** For each record of the log, whether no hole hides a fragment of it. */
  ghost function ClearFlags(holes: set<Place>, p: Place, records: seq<Bytes>): (flags: seq<bool>)
    ensures |flags| == |records|
  {
    seq(|records|, i requires 0 <= i < |records| => RecordClear(holes, Starts(p, records)[i], |records[i]|))
  }

  lemma {:induction false} AssembledRecord(p: Place, data: Bytes, begin: bool, rest: seq<Frag>, holes: set<Place>,
                                           inRecord: bool, scratch: Bytes)
    ensures Assembled(RecordFrags(p, data, begin) + rest, holes, inRecord, scratch) ==
            (if (begin || inRecord) && RecordClear(holes, p, |data|) then [(if begin then [] else scratch) + data] else [])
            + Assembled(rest, holes, false, [])
    decreases |data|, Rank(p)
  {
    var n, next := Take(p, |data|), After(p, |data|);
    var more := (if n == |data| then [] else RecordFrags(next, data[n..], false)) + rest;
    assert RecordFrags(p, data, begin) + rest == [FragOf(p, data, begin)] + more;
    RecordClearStep(holes, p, |data|);
    var base := if begin then [] else scratch;
    AssembledFragment(p, data, begin, more, holes, inRecord, scratch);
    if n < |data| {
      var inside := (begin || inRecord) && Clear(holes, HeaderAt(p));
      AssembledRecord(next, data[n..], false, rest, holes, inside, if inside then base + data[..n] else []);
      Rejoin(base, data, n);
    } else {
      assert more == rest;
    }
  }

  lemma {:induction false} AssembledFragment(p: Place, data: Bytes, begin: bool, more: seq<Frag>, holes: set<Place>,
                                             inRecord: bool, scratch: Bytes)
    ensures var n, base := Take(p, |data|), if begin then [] else scratch;
      var inside := (begin || inRecord) && Clear(holes, HeaderAt(p));
      Assembled([FragOf(p, data, begin)] + more, holes, inRecord, scratch) ==
      if n < |data| then Assembled(more, holes, inside, if inside then base + data[..n] else [])
      else (if inside then [base + data] else []) + Assembled(more, holes, false, [])
  {
    var n, f := Take(p, |data|), FragOf(p, data, begin);
    var fs := [f] + more;
    assert fs[1..] == more;
    var base := if begin then [] else scratch;
    var inside := (begin || inRecord) && Clear(holes, f.at);
    assert begin ==> base + data[..n] == data[..n];
    assert n == |data| ==> data[..n] == data;
    if Clear(holes, f.at) {
      WrittenStep(fs, holes, inRecord, scratch, inside && n < |data|, if inside && n < |data| then base + data[..n] else []);
    } else {
      HoleSkipped(fs, holes, inRecord, scratch);
    }
  }

  lemma {:induction false} AssembledLog(p: Place, records: seq<Bytes>, holes: set<Place>)
    ensures Assembled(LogFrags(p, records), holes, false, []) == Select(records, ClearFlags(holes, p, records))
    decreases |records|
  {
    if records != [] {
      var next := EndPlace(p, |records[0]|);
      AssembledRecord(p, records[0], true, LogFrags(next, records[1..]), holes, false, []);
      assert [] + records[0] == records[0];
      AssembledLog(next, records[1..], holes);
      var flags := ClearFlags(holes, p, records);
      assert flags[1..] == ClearFlags(holes, next, records[1..]);
    }
  }

  lemma {:induction false} ChainConcat(p: Place, a: seq<Frag>, q: Place, b: seq<Frag>, end: Place)
    requires Chain(p, a, q) && Chain(q, b, end)
    ensures Chain(p, a + b, end)
    decreases |a|
  {
    if a == [] {
      assert a + b == b;
    } else {
      assert (a + b)[1..] == a[1..] + b;
      ChainConcat(a[0].next, a[1..], q, b, end);
    }
  }

  lemma {:induction false} RecordChain(p: Place, data: Bytes, begin: bool)
    ensures Chain(p, RecordFrags(p, data, begin), EndPlace(p, |data|))
    decreases |data|, Rank(p)
  {
    var n, next := Take(p, |data|), After(p, |data|);
    var f := FragOf(p, data, begin);
    assert GoodFrag(f);
    if n < |data| {
      RecordChain(next, data[n..], false);
      assert RecordFrags(p, data, begin)[1..] == RecordFrags(next, data[n..], false);
    } else {
      assert RecordFrags(p, data, begin) == [f];
    }
  }

  lemma {:induction false} LogChain(p: Place, records: seq<Bytes>)
    ensures Chain(p, LogFrags(p, records), LogEnd(p, records))
    decreases |records|
  {
    if records != [] {
      var next := EndPlace(p, |records[0]|);
      RecordChain(p, records[0], true);
      LogChain(next, records[1..]);
      ChainConcat(p, RecordFrags(p, records[0], true), next, LogFrags(next, records[1..]), LogEnd(p, records));
    }
  }

  /** A log file in which each fragment is written or is a hole gives exactly the
      records that no hole hides. */
  lemma {:induction false} ReadsHoledLog(check: Checker, seal: Sealer, file: Bytes, p: Place, records: seq<Bytes>, holes: set<Place>)
    requires Accepts(check, seal) && p.at == 0 && Off(p) <= |file|
    requires FileIs(check, seal, file, holes, LogFrags(p, records)) && Blank(file, LogEnd(p, records))
    ensures ReadAll(check, file, p, []).0 == Select(records, ClearFlags(holes, p, records))
  {
    LogChain(p, records);
    ReadsFrags(check, seal, file, holes, p, LogFrags(p, records), LogEnd(p, records), p, false, [], []);
    RestIsReadAll(check, file, p, []);
    AssembledLog(p, records, holes);
  }
}
