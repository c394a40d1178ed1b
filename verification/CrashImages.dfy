/** The file that is left when a crash undoes any of the log writers' positional
    writes, and what recovery reads from it. */
module CrashImages {
  import opened Coding
  import opened LogFormat
  import opened LogHoles
  import opened LogReaders
  import opened LogRoundTrip
  import opened LogWriters
  import opened LogCrashes

  /** The first "len" bytes of a sparsely written file; unwritten bytes read as zero. */
  function Image(file: Sparse, len: nat): Bytes {
    seq(len, k requires 0 <= k < len => if k in file then file[k] else 0)
  }

  ghost predicate Whole(seal: Sealer, file: Bytes, f: Frag) {
    |f.payload| < 0x1_0000 && Stored(file, Off(f.at), Physical(seal, f.kind, f.payload))
  }

  /** The header places of the fragments that are not in the file as written. */
  ghost function Unwritten(seal: Sealer, file: Bytes, fs: seq<Frag>): set<Place> {
    set f | f in fs && !Whole(seal, file, f) :: f.at
  }

  /** The checksum catches a fragment whose header was written and whose payload was not. */
  ghost predicate TornCaught(check: Checker, seal: Sealer, file: Bytes, f: Frag)
    requires |f.payload| < 0x1_0000
  {
    var q, body := seal(f.kind, f.payload), Off(f.at) + HEADER;
    body + |f.payload| <= |file| && file[body..body + |f.payload|] != f.payload ==>
      !check([q.0, q.1, q.2, q.3], f.kind, file[body..body + |f.payload|])
  }

  /** The bytes of the header are all as written or all zero, as far as the file goes. */
  ghost predicate HeaderSettled(seal: Sealer, file: Bytes, f: Frag)
    requires |f.payload| < 0x1_0000
  {
    HeaderIs(file, f.at, Header(seal, f.kind, f.payload)) || HeaderBlank(file, f.at)
  }

  ghost predicate HeaderIs(file: Bytes, at: Place, h: Bytes) {
    Off(at) + HEADER <= |file| ==> file[Off(at)..Off(at) + HEADER] == h
  }

  ghost predicate HeaderBlank(file: Bytes, at: Place) {
    forall k :: Off(at) <= k < Off(at) + HEADER && k < |file| ==> file[k] == 0
  }

  /** A fragment that is not whole is a hole for the reader. */
  lemma {:induction false} NotWholeIsLost(check: Checker, seal: Sealer, file: Bytes, f: Frag)
    requires GoodFrag(f) && HeaderSettled(seal, file, f) && TornCaught(check, seal, file, f) && !Whole(seal, file, f)
    ensures Lost(check, file, f.at)
  {
    if Off(f.at) + HEADER <= |file| {
      if HeaderIs(file, f.at, Header(seal, f.kind, f.payload)) {
        TornIsLost(check, seal, file, f);
      } else {
        ZeroHeaderIsLost(check, file, f.at);
      }
    }
  }

  lemma {:induction false} ZeroHeaderIsLost(check: Checker, file: Bytes, h: Place)
    requires Off(h) + HEADER <= |file| && HEADER <= Leftover(h)
    requires HeaderBlank(file, h)
    ensures PieceAt(check, file, h) == Piece(BAD, [], Plus(h, Avail(file, h)), [])
  {
    var b := file[Off(h)..Off(h) + Avail(file, h)];
    ZeroParse(check, h, b);
  }

  lemma {:induction false} ZeroParse(check: Checker, h: Place, b: Bytes)
    requires HEADER <= |b| <= Leftover(h) && b[4] == 0 && b[5] == 0 && b[6] == 0
    ensures Parse(check, h, b) == Piece(BAD, [], Plus(h, |b|), [])
  {
  }

  lemma {:induction false} TornIsLost(check: Checker, seal: Sealer, file: Bytes, f: Frag)
    requires GoodFrag(f) && TornCaught(check, seal, file, f) && !Whole(seal, file, f)
    requires Off(f.at) + HEADER <= |file|
    requires HeaderIs(file, f.at, Header(seal, f.kind, f.payload))
    ensures PieceAt(check, file, f.at).kind == BAD && Off(PieceAt(check, file, f.at).pos) == Off(f.at) + Avail(file, f.at)
  {
    var o, avail := Off(f.at), Avail(file, f.at);
    var b := file[o..o + avail];
    SliceOfSlice(file, o, o + avail, 0, HEADER);
    HeaderBytes(seal, b, f.kind, f.payload);
    if HEADER + |f.payload| <= avail {
      SliceOfSlice(file, o, o + avail, HEADER, HEADER + |f.payload|);
      if file[o + HEADER..o + HEADER + |f.payload|] == f.payload {
        HeaderThenPayload(seal, file, f);
      }
    }
  }

  lemma {:induction false} HeaderThenPayload(seal: Sealer, file: Bytes, f: Frag)
    requires GoodFrag(f) && Off(f.at) + HEADER + |f.payload| <= |file|
    requires HeaderIs(file, f.at, Header(seal, f.kind, f.payload))
    requires file[Off(f.at) + HEADER..Off(f.at) + HEADER + |f.payload|] == f.payload
    ensures Whole(seal, file, f)
  {
    SliceJoins(file, Off(f.at), HEADER, |f.payload|);
  }

  lemma {:induction false} SliceJoins(s: Bytes, o: nat, m: nat, n: nat)
    requires o + m + n <= |s|
    ensures s[o..o + m + n] == s[o..o + m] + s[o + m..o + m + n]
  {
  }

  /** The fragments of a chain lie between its ends, one after another. */
  lemma {:induction false} ChainWithin(p: Place, fs: seq<Frag>, end: Place, f: Frag)
    requires Chain(p, fs, end) && f in fs
    ensures GoodFrag(f) && Off(p) <= Off(f.at) < Off(f.next) <= Off(end)
    decreases |fs|
  {
    ChainForward(fs[0].next, fs[1..], end);
    if f != fs[0] {
      ChainWithin(fs[0].next, fs[1..], end, f);
    }
  }

  lemma {:induction false} ChainForward(p: Place, fs: seq<Frag>, end: Place)
    requires Chain(p, fs, end)
    ensures Off(p) <= Off(end)
    decreases |fs|
  {
    if fs != [] {
      ChainForward(fs[0].next, fs[1..], end);
    }
  }

  lemma {:induction false} ChainApart(p: Place, fs: seq<Frag>, end: Place, f: Frag, g: Frag)
    requires Chain(p, fs, end) && f in fs && g in fs && f != g
    ensures Off(f.next) <= Off(g.at) || Off(g.next) <= Off(f.at)
    decreases |fs|
  {
    if f == fs[0] {
      ChainWithin(fs[0].next, fs[1..], end, g);
    } else if g == fs[0] {
      ChainWithin(fs[0].next, fs[1..], end, f);
    } else {
      ChainApart(fs[0].next, fs[1..], end, f, g);
    }
  }

  ghost predicate Touches(w: Write, lo: nat, hi: nat) {
    exists k: nat :: lo <= k < hi && Covers(w, k)
  }

  /** A fragment's header is written by one write alone. */
  ghost predicate HeaderAlone(seal: Sealer, f: Frag, w: Write)
    requires |f.payload| < 0x1_0000
  {
    Touches(w, Off(f.at), Off(f.at) + HEADER) ==> w == Write(Off(f.at), Header(seal, f.kind, f.payload))
  }

  lemma {:induction false} FragmentHeaderAlone(seal: Sealer, p: Place, data: Bytes, begin: bool, w: Write)
    requires w in FragmentWrites(seal, p, data, begin)
    ensures HeaderAlone(seal, FragOf(p, data, begin), w)
  {
  }

  lemma {:induction false} RecordHeaderAlone(seal: Sealer, p: Place, data: Bytes, begin: bool, f: Frag, w: Write)
    requires f in RecordFrags(p, data, begin) && w in RecordWrites(seal, p, data, begin)
    ensures |f.payload| < 0x1_0000 && HeaderAlone(seal, f, w)
    decreases |data|, Rank(p)
  {
    var n, next, g := Take(p, |data|), After(p, |data|), FragOf(p, data, begin);
    RecordStep(seal, p, data, begin);
    RecordChain(p, data, begin);
    ChainWithin(p, RecordFrags(p, data, begin), EndPlace(p, |data|), f);
    var mine := Write(Off(p), Fragment(seal, p, data, begin));
    FragmentLays(seal, p, data, begin);
    if w in FragmentWrites(seal, p, data, begin) {
      assert Agrees(w, mine);
      if f == g {
        FragmentHeaderAlone(seal, p, data, begin, w);
      } else {
        RecordChain(next, data[n..], false);
        ChainWithin(next, RecordFrags(next, data[n..], false), EndPlace(p, |data|), f);
        assert forall k: nat :: Covers(w, k) ==> k < Off(next);
      }
    } else {
      RecordLays(seal, next, data[n..], false);
      assert Agrees(w, Write(Off(next), Emit(seal, next, data[n..], false)));
      assert forall k: nat :: Covers(w, k) ==> k >= Off(next);
      if f != g {
        RecordHeaderAlone(seal, next, data[n..], false, f, w);
      }
    }
  }

  lemma {:induction false} LogHeaderAlone(seal: Sealer, p: Place, records: seq<Bytes>, f: Frag, w: Write)
    requires f in LogFrags(p, records) && w in LogWrites(seal, p, records)
    ensures |f.payload| < 0x1_0000 && HeaderAlone(seal, f, w)
    decreases |records|
  {
    var next, first := EndPlace(p, |records[0]|), RecordFrags(p, records[0], true);
    RecordChain(p, records[0], true);
    LogChain(next, records[1..]);
    RecordLays(seal, p, records[0], true);
    LogLays(seal, next, records[1..]);
    if f in first {
      ChainWithin(p, first, next, f);
    } else {
      ChainWithin(next, LogFrags(next, records[1..]), LogEnd(p, records), f);
    }
    if w in RecordWrites(seal, p, records[0], true) {
      assert Agrees(w, Write(Off(p), Emit(seal, p, records[0], true)));
      if f in first {
        RecordHeaderAlone(seal, p, records[0], true, f, w);
      }
    } else {
      assert Agrees(w, Write(Off(next), LogBytes(seal, next, records[1..])));
      if f !in first {
        LogHeaderAlone(seal, next, records[1..], f, w);
      }
    }
  }

  lemma {:induction false} LogBytesEnd(seal: Sealer, p: Place, records: seq<Bytes>)
    ensures Off(p) + |LogBytes(seal, p, records)| == Off(LogEnd(p, records))
    decreases |records|
  {
    if records != [] {
      LogBytesEnd(seal, EndPlace(p, |records[0]|), records[1..]);
    }
  }

  /** Some of the log's writes, in any order, leave each header whole or blank, and
      nothing behind the log. */
  lemma {:induction false} ImageSettled(seal: Sealer, p: Place, records: seq<Bytes>, run: seq<Write>, len: nat)
    requires forall w :: w in run ==> w in LogWrites(seal, p, records)
    ensures var file := Image(Contents(run), len);
      && Blank(file, LogEnd(p, records))
      && forall f :: f in LogFrags(p, records) ==> |f.payload| < 0x1_0000 && HeaderSettled(seal, file, f)
  {
    var whole := Write(Off(p), LogBytes(seal, p, records));
    LogLays(seal, p, records);
    PartialLogAgrees(run, whole);
    LogBytesEnd(seal, p, records);
    LogChain(p, records);
    forall f | f in LogFrags(p, records)
      ensures |f.payload| < 0x1_0000 && HeaderSettled(seal, Image(Contents(run), len), f)
    {
      ChainWithin(p, LogFrags(p, records), LogEnd(p, records), f);
      forall w | w in run
        ensures HeaderAlone(seal, f, w)
      {
        LogHeaderAlone(seal, p, records, f, w);
      }
      ImageHeader(seal, run, len, whole, f);
    }
  }

  lemma {:induction false} ImageHeader(seal: Sealer, run: seq<Write>, len: nat, whole: Write, f: Frag)
    requires |f.payload| < 0x1_0000
    requires forall w :: w in run ==> HeaderAlone(seal, f, w) && Agrees(w, whole)
    requires forall k: nat :: k in Contents(run) <==> Covered(run, k)
    requires forall k: nat :: k in Contents(run) ==> Covers(whole, k) && Contents(run)[k] == At(whole, k)
    ensures HeaderSettled(seal, Image(Contents(run), len), f)
  {
    if w :| w in run && Touches(w, Off(f.at), Off(f.at) + HEADER) {
      ImageShows(run, len, whole, w);
    } else {
      ImageBlank(run, len, Off(f.at), Off(f.at) + HEADER);
    }
  }

  lemma {:induction false} ImageBlank(run: seq<Write>, len: nat, lo: nat, hi: nat)
    requires forall w :: w in run ==> !Touches(w, lo, hi)
    requires forall k: nat :: k in Contents(run) <==> Covered(run, k)
    ensures forall k :: lo <= k < hi && k < len ==> Image(Contents(run), len)[k] == 0
  {
    forall k | lo <= k < hi && k < len
      ensures k !in Contents(run)
    {
      assert forall w :: w in run && Covers(w, k) ==> Touches(w, lo, hi);
    }
  }

  lemma {:induction false} ImageShows(run: seq<Write>, len: nat, whole: Write, w: Write)
    requires w in run && Agrees(w, whole)
    requires forall k: nat :: k in Contents(run) <==> Covered(run, k)
    requires forall k: nat :: k in Contents(run) ==> Covers(whole, k) && Contents(run)[k] == At(whole, k)
    ensures w.off + |w.data| <= len ==> Image(Contents(run), len)[w.off..w.off + |w.data|] == w.data
  {
    if w.off + |w.data| <= len {
      forall k | 0 <= k < |w.data|
        ensures Image(Contents(run), len)[w.off..w.off + |w.data|][k] == w.data[k]
      {
        assert Covers(w, w.off + k) && Covered(run, w.off + k) && At(w, w.off + k) == At(whole, w.off + k);
      }
    }
  }

  /** Both writes of a fragment are among those that reached the file. */
  ghost predicate Written(seal: Sealer, run: seq<Write>, f: Frag)
    requires |f.payload| < 0x1_0000
  {
    && Write(Off(f.at), Header(seal, f.kind, f.payload)) in run
    && Write(Off(f.at) + HEADER, f.payload) in run
  }

  /** Then the fragment is whole, if the file is long enough. */
  lemma {:induction false} WrittenIsWhole(seal: Sealer, p: Place, records: seq<Bytes>, run: seq<Write>, len: nat, f: Frag)
    requires forall w :: w in run ==> w in LogWrites(seal, p, records)
    requires GoodFrag(f) && Written(seal, run, f) && Off(f.next) <= len
    ensures Whole(seal, Image(Contents(run), len), f)
  {
    var whole := Write(Off(p), LogBytes(seal, p, records));
    LogLays(seal, p, records);
    PartialLogAgrees(run, whole);
    ImageShows(run, len, whole, Write(Off(f.at), Header(seal, f.kind, f.payload)));
    ImageShows(run, len, whole, Write(Off(f.at) + HEADER, f.payload));
    HeaderThenPayload(seal, Image(Contents(run), len), f);
  }

  /** Recovery after a crash that left any of the log's positional writes undone and
      cut the file anywhere: a record is returned if and only if no unwritten
      fragment is before one of its fragments in the same block, or is one. */
  lemma {:induction false} CrashReads(check: Checker, seal: Sealer, p: Place, records: seq<Bytes>, run: seq<Write>, len: nat)
    requires Accepts(check, seal) && p.at == 0 && Off(p) <= len
    requires forall w :: w in run ==> w in LogWrites(seal, p, records)
    requires forall f :: f in LogFrags(p, records) && |f.payload| < 0x1_0000 ==>
      TornCaught(check, seal, Image(Contents(run), len), f)
    ensures var file := Image(Contents(run), len);
      var holes := Unwritten(seal, file, LogFrags(p, records));
      ReadAll(check, file, p, []).0 == Select(records, ClearFlags(holes, p, records))
  {
    var file, fs := Image(Contents(run), len), LogFrags(p, records);
    var holes := Unwritten(seal, file, fs);
    ImageSettled(seal, p, records, run, len);
    LogChain(p, records);
    forall i | 0 <= i < |fs|
      ensures |fs[i].payload| < 0x1_0000 && FragIs(check, seal, file, holes, fs[i])
    {
      FragSettled(check, seal, file, p, fs, LogEnd(p, records), fs[i]);
    }
    ReadsHoledLog(check, seal, file, p, records, holes);
  }

  lemma {:induction false} FragSettled(check: Checker, seal: Sealer, file: Bytes, p: Place, fs: seq<Frag>, end: Place, f: Frag)
    requires Chain(p, fs, end) && f in fs && |f.payload| < 0x1_0000
    requires HeaderSettled(seal, file, f) && TornCaught(check, seal, file, f)
    ensures FragIs(check, seal, file, Unwritten(seal, file, fs), f)
  {
    var holes := Unwritten(seal, file, fs);
    ChainWithin(p, fs, end, f);
    forall x | x in holes
      ensures !(Off(f.at) < Off(x) < Off(f.next)) && (x == f.at ==> !Whole(seal, file, f))
    {
      var g :| g in fs && !Whole(seal, file, g) && g.at == x;
      ChainWithin(p, fs, end, g);
      if g != f {
        ChainApart(p, fs, end, f, g);
      }
    }
    if f.at in holes {
      NotWholeIsLost(check, seal, file, f);
    }
  }

  /** A reserved and unwritten extent hides a complete record behind it in the block,
      and the reader reports nothing. */
  lemma {:induction false} ZerosHideRecord(check: Checker, seal: Sealer, file: Bytes, p: Place, n: nat, data: Bytes)
    requires HEADER <= n < Leftover(p) && Off(p) <= |file| <= Off(Place(p.block + 1, 0))
    requires file[Off(p)..] == Zeros(n) + Emit(seal, Plus(p, n), data, true)
    ensures ReadAll(check, file, p, []) == ([], [])
  {
    BlankFront(file, p, n, Emit(seal, Plus(p, n), data, true));
    BlankHeaderEnds(check, file, p, []);
  }

  /** In the last block of a file a blank header ends the reading, without a report. */
  lemma {:induction false} BlankHeaderEnds(check: Checker, file: Bytes, p: Place, reports: seq<nat>)
    requires HEADER <= Leftover(p) && Off(p) + HEADER <= |file| <= Off(Place(p.block + 1, 0)) && HeaderBlank(file, p)
    ensures ReadAll(check, file, p, reports) == ([], reports)
  {
    ZeroHeaderIsLost(check, file, p);
    StopsAtEnd(check, file, Plus(p, Avail(file, p)), false, [], reports);
    assert reports + [] + [] == reports;
  }

  lemma {:induction false} BlankFront(file: Bytes, p: Place, n: nat, rest: Bytes)
    requires HEADER <= n && Off(p) <= |file| && file[Off(p)..] == Zeros(n) + rest
    ensures HeaderBlank(file, p) && Off(p) + n <= |file|
  {
    forall k | Off(p) <= k < Off(p) + HEADER && k < |file|
      ensures file[k] == 0
    {
      assert file[k] == file[Off(p)..][k - Off(p)];
    }
  }
}
