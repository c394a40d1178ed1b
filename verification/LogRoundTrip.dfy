/** Reading back what the log writer wrote: every record, in order, without a report;
    and after a crash that cut the file short, every record that was written whole. */
module LogRoundTrip {
  import opened Coding
  import opened LogFormat
  import opened LogReaders

  ghost predicate Stored(file: Bytes, p: nat, bytes: Bytes) {
    p + |bytes| <= |file| && file[p..p + |bytes|] == bytes
  }

  lemma {:induction false} StoredConcat(file: Bytes, p: nat, a: Bytes, b: Bytes)
    requires Stored(file, p, a + b)
    ensures Stored(file, p, a) && Stored(file, p + |a|, b)
  {
    assert a == (a + b)[..|a|] && b == (a + b)[|a|..];
    SliceOfSlice(file, p, p + |a + b|, 0, |a|);
    SliceOfSlice(file, p, p + |a + b|, |a|, |a + b|);
  }

  lemma {:induction false} StoredPrefix(log: Bytes, k: nat, p: nat, bytes: Bytes)
    requires Stored(log, p, bytes) && p + |bytes| <= k <= |log|
    ensures Stored(log[..k], p, bytes)
  {
    assert log[..k][p..p + |bytes|] == log[p..p + |bytes|];
  }

  /** The reader's checksum test passes on every fragment the writer seals. */
  ghost predicate Accepts(check: Checker, seal: Sealer) {
    forall t: byte, payload: Bytes ::
      var q := seal(t, payload); check([q.0, q.1, q.2, q.3], t, payload)
  }

  lemma {:induction false} SealIsAccepted(step: CrcStep, checksum: bool)
    ensures Accepts(Checks(step, checksum), Seal(step))
  {
    forall t: byte, payload: Bytes
      ensures var q := Seal(step)(t, payload); Checks(step, checksum)([q.0, q.1, q.2, q.3], t, payload)
    {
      var crc := Extend(step, Extend(step, 0, [t]), payload);
      ExtendConcat(step, 0, [t], payload);
      UnmaskMask(crc);
      var f := Fixed(Mask(crc), 4);
      Pow256Values();
      FixedRoundTrip(Mask(crc), 4);
      assert f == [f[0], f[1], f[2], f[3]];
    }
  }

  // ----- one fragment

  /** Header and payload of a fragment, at the header's own offset. */
  function Physical(seal: Sealer, t: byte, payload: Bytes): Bytes
    requires |payload| < 0x1_0000
  {
    Header(seal, t, payload) + payload
  }

  lemma {:induction false} HeaderBytes(seal: Sealer, b: Bytes, t: byte, payload: Bytes)
    requires |payload| < 0x1_0000 && HEADER <= |b| && b[..HEADER] == Header(seal, t, payload)
    ensures var q := seal(t, payload); b[..4] == [q.0, q.1, q.2, q.3]
    ensures Length(b[4], b[5]) == |payload| && b[6] == t
  {
    var h := Header(seal, t, payload);
    assert b[..4] == h[..4];
    assert b[4] == h[4] && b[5] == h[5] && b[6] == h[6];
  }

  lemma {:induction false} ParsesPhysical(check: Checker, seal: Sealer, file: Bytes, p: Place, t: byte, payload: Bytes)
    requires Accepts(check, seal) && t != ZERO
    requires |payload| < 0x1_0000 && HEADER + |payload| <= Leftover(p)
    requires Stored(file, Off(p), Physical(seal, t, payload))
    ensures PieceAt(check, file, p) == Piece(t, payload, Plus(p, HEADER + |payload|), [])
  {
    var b := file[Off(p)..Off(p) + Avail(file, p)];
    StoredConcat(file, Off(p), Header(seal, t, payload), payload);
    SliceOfSlice(file, Off(p), Off(p) + Avail(file, p), 0, HEADER);
    SliceOfSlice(file, Off(p), Off(p) + Avail(file, p), HEADER, HEADER + |payload|);
    HeaderBytes(seal, b, t, payload);
    var q := seal(t, payload);
    assert check([q.0, q.1, q.2, q.3], t, payload);
  }

  /** The end of the file inside a fragment stops the read, and nothing is found. */
  lemma {:induction false} StopsInPhysical(check: Checker, seal: Sealer, log: Bytes, k: nat, p: Place, t: byte, payload: Bytes)
    requires |payload| < 0x1_0000 && HEADER + |payload| <= Leftover(p)
    requires Stored(log, Off(p), Physical(seal, t, payload))
    requires Off(p) <= k < Off(p) + HEADER + |payload|
    ensures var piece := PieceAt(check, log[..k], p); (piece.kind == EOF || piece.kind == BAD) && Off(piece.pos) == k
  {
    StoredConcat(log, Off(p), Header(seal, t, payload), payload);
    if Off(p) + HEADER <= k {
      var b := log[..k][Off(p)..k];
      SliceOfSlice(log[..k], Off(p), k, 0, HEADER);
      assert log[..k][Off(p)..Off(p) + HEADER] == log[Off(p)..Off(p) + HEADER];
      HeaderBytes(seal, b, t, payload);
    }
  }

  lemma {:induction false} FragmentSplits(seal: Sealer, file: Bytes, p: Place, data: Bytes, begin: bool)
    requires Stored(file, Off(p), Fragment(seal, p, data, begin))
    ensures var n := Take(p, |data|);
      && Stored(file, Off(HeaderAt(p)), Physical(seal, FragmentType(begin, n == |data|), data[..n]))
  {
    var n := Take(p, |data|);
    var z, f := Zeros(Trailer(p)), Physical(seal, FragmentType(begin, n == |data|), data[..n]);
    assert Fragment(seal, p, data, begin) == z + f;
    StoredConcat(file, Off(p), z, f);
  }

  lemma {:induction false} SkipsTrailer(check: Checker, file: Bytes, p: Place)
    requires Off(HeaderAt(p)) <= |file|
    ensures PieceAt(check, file, p) == PieceAt(check, file, HeaderAt(p))
  {
  }

  lemma {:induction false} ReadsFragment(check: Checker, seal: Sealer, file: Bytes, p: Place, data: Bytes, begin: bool)
    requires Accepts(check, seal) && Stored(file, Off(p), Fragment(seal, p, data, begin))
    ensures var n := Take(p, |data|);
      PieceAt(check, file, p) == Piece(FragmentType(begin, n == |data|), data[..n], After(p, |data|), [])
  {
    var n := Take(p, |data|);
    FragmentSplits(seal, file, p, data, begin);
    SkipsTrailer(check, file, p);
    ParsesPhysical(check, seal, file, HeaderAt(p), FragmentType(begin, n == |data|), data[..n]);
  }

  lemma {:induction false} StopsInFragment(check: Checker, seal: Sealer, log: Bytes, k: nat, p: Place, data: Bytes, begin: bool)
    requires Stored(log, Off(p), Fragment(seal, p, data, begin)) && Off(p) <= k < Off(After(p, |data|))
    ensures var piece := PieceAt(check, log[..k], p); (piece.kind == EOF || piece.kind == BAD) && Off(piece.pos) == k
  {
    var n := Take(p, |data|);
    FragmentSplits(seal, log, p, data, begin);
    if Off(HeaderAt(p)) <= k {
      SkipsTrailer(check, log[..k], p);
      StopsInPhysical(check, seal, log, k, HeaderAt(p), FragmentType(begin, n == |data|), data[..n]);
    }
  }

  // ----- one record

  /** A fragment in its place: the last one completes the record, others extend it. */
  lemma {:induction false} GoodPiece(check: Checker, file: Bytes, p: Place, begin: bool, end: bool, fragment: Bytes, next: Place,
                  scratch: Bytes, reports: seq<nat>)
    requires Off(p) < Off(next) <= |file| && PieceAt(check, file, p) == Piece(FragmentType(begin, end), fragment, next, [])
    requires begin ==> scratch == []
    ensures RecordAt(check, file, p, !begin, scratch, reports) ==
            if end then Record(scratch + fragment, next, reports)
            else RecordAt(check, file, next, true, scratch + fragment, reports)
  {
    assert reports + [] + [] == reports;
    assert begin ==> scratch + fragment == fragment;
  }

  lemma {:induction false} EmitSplits(seal: Sealer, file: Bytes, p: Place, data: Bytes, begin: bool)
    requires Stored(file, Off(p), Emit(seal, p, data, begin))
    ensures var n, next := Take(p, |data|), After(p, |data|);
      && Stored(file, Off(p), Fragment(seal, p, data, begin))
      && (n == |data| ==> EndPlace(p, |data|) == next)
      && (n < |data| ==>
            && Stored(file, Off(next), Emit(seal, next, data[n..], false))
            && EndPlace(p, |data|) == EndPlace(next, |data| - n)
            && (n > 0 || Rank(p) > Rank(next)))
  {
    var n, next := Take(p, |data|), After(p, |data|);
    if n < |data| {
      StoredConcat(file, Off(p), Fragment(seal, p, data, begin), Emit(seal, next, data[n..], false));
    }
  }

  lemma {:induction false} ReadsPart(check: Checker, seal: Sealer, file: Bytes, p: Place, data: Bytes,
                  begin: bool, scratch: Bytes, reports: seq<nat>)
    requires Accepts(check, seal) && Stored(file, Off(p), Fragment(seal, p, data, begin))
    requires begin ==> scratch == []
    ensures var n, next := Take(p, |data|), After(p, |data|);
      RecordAt(check, file, p, !begin, scratch, reports) ==
      if n == |data| then Record(scratch + data[..n], next, reports)
      else RecordAt(check, file, next, true, scratch + data[..n], reports)
  {
    var n, next := Take(p, |data|), After(p, |data|);
    ReadsFragment(check, seal, file, p, data, begin);
    GoodPiece(check, file, p, begin, n == |data|, data[..n], next, scratch, reports);
  }

  /** The rest of a record is read back whole, wherever block boundaries cut it. */
  lemma {:induction false} ReadsRecord(check: Checker, seal: Sealer, file: Bytes, p: Place, data: Bytes,
                                       begin: bool, scratch: Bytes, reports: seq<nat>)
    requires Accepts(check, seal) && Stored(file, Off(p), Emit(seal, p, data, begin))
    requires begin ==> scratch == []
    ensures RecordAt(check, file, p, !begin, scratch, reports) == Record(scratch + data, EndPlace(p, |data|), reports)
    decreases |data|, Rank(p)
  {
    var n, next := Take(p, |data|), After(p, |data|);
    EmitSplits(seal, file, p, data, begin);
    ReadsPart(check, seal, file, p, data, begin, scratch, reports);
    if n < |data| {
      ReadsRecord(check, seal, file, next, data[n..], false, scratch + data[..n], reports);
    }
    Rejoin(scratch, data, n);
  }

  lemma {:induction false} Rejoin(scratch: Bytes, data: Bytes, n: nat)
    requires n <= |data|
    ensures (scratch + data[..n]) + data[n..] == scratch + data
    ensures n == |data| ==> scratch + data[..n] == scratch + data
  {
    assert data == data[..n] + data[n..];
  }

  lemma {:induction false} StopsAtEnd(check: Checker, file: Bytes, p: Place, inRecord: bool, scratch: Bytes, reports: seq<nat>)
    requires Off(p) == |file|
    ensures RecordAt(check, file, p, inRecord, scratch, reports)
            == End(p, if inRecord then reports + [|scratch|] else reports)
  {
    assert reports + [] == reports;
  }

  lemma {:induction false} StopsSoon(check: Checker, file: Bytes, p: Place, inRecord: bool, scratch: Bytes, reports: seq<nat>)
    requires Off(p) <= |file|
    requires var piece := PieceAt(check, file, p); (piece.kind == EOF || piece.kind == BAD) && Off(piece.pos) == |file|
    ensures RecordAt(check, file, p, inRecord, scratch, reports).End?
  {
    var piece := PieceAt(check, file, p);
    var a := Handle(piece.kind, piece.fragment, inRecord, scratch);
    if a.Go? {
      StopsAtEnd(check, file, piece.pos, a.inRecord, a.scratch, reports + piece.drops + a.drops);
    }
  }

  /** A record cut short by the end of the file is not returned. */
  lemma {:induction false} StopsInRecord(check: Checker, seal: Sealer, log: Bytes, k: nat, p: Place, data: Bytes,
                                         begin: bool, scratch: Bytes, reports: seq<nat>)
    requires Accepts(check, seal) && Stored(log, Off(p), Emit(seal, p, data, begin))
    requires begin ==> scratch == []
    requires Off(p) <= k < Off(EndPlace(p, |data|))
    ensures RecordAt(check, log[..k], p, !begin, scratch, reports).End?
    decreases |data|, Rank(p)
  {
    var n, next := Take(p, |data|), After(p, |data|);
    EmitSplits(seal, log, p, data, begin);
    if k < Off(next) {
      StopsInFragment(check, seal, log, k, p, data, begin);
      StopsSoon(check, log[..k], p, !begin, scratch, reports);
    } else {
      StoredPrefix(log, k, Off(p), Fragment(seal, p, data, begin));
      ReadsPart(check, seal, log[..k], p, data, begin, scratch, reports);
      StopsInRecord(check, seal, log, k, next, data[n..], false, scratch + data[..n], reports);
    }
  }

  lemma {:induction false} ReadsWhole(check: Checker, seal: Sealer, file: Bytes, p: Place, data: Bytes, reports: seq<nat>)
    requires Accepts(check, seal) && Stored(file, Off(p), Emit(seal, p, data, true))
    ensures RecordAt(check, file, p, false, [], reports) == Record(data, EndPlace(p, |data|), reports)
  {
    ReadsRecord(check, seal, file, p, data, true, [], reports);
    assert [] + data == data;
  }

  // ----- a whole log

  /** All records a reader returns from a position until it returns false, and its
      reports. */
  function ReadAll(check: Checker, file: Bytes, p: Place, reports: seq<nat>): (seq<Bytes>, seq<nat>)
    requires Off(p) <= |file|
    decreases |file| - Off(p)
  {
    match RecordAt(check, file, p, false, [], reports)
    case End(_, all) => ([], all)
    case Record(data, pos, all) =>
      var rest := ReadAll(check, file, pos, all);
      ([data] + rest.0, rest.1)
  }

  /** The rest of the file, from a place on, is the log of these records. */
  ghost predicate HoldsLog(seal: Sealer, file: Bytes, p: Place, records: seq<Bytes>) {
    Stored(file, Off(p), LogBytes(seal, p, records)) && Off(p) + |LogBytes(seal, p, records)| == |file|
  }

  lemma {:induction false} LogSplits(seal: Sealer, file: Bytes, p: Place, records: seq<Bytes>)
    requires HoldsLog(seal, file, p, records) && records != []
    ensures Stored(file, Off(p), Emit(seal, p, records[0], true))
    ensures HoldsLog(seal, file, EndPlace(p, |records[0]|), records[1..])
  {
    StoredConcat(file, Off(p), Emit(seal, p, records[0], true),
                 LogBytes(seal, EndPlace(p, |records[0]|), records[1..]));
  }

  lemma {:induction false} ReadsLog(check: Checker, seal: Sealer, file: Bytes, p: Place, records: seq<Bytes>, reports: seq<nat>)
    requires Accepts(check, seal) && HoldsLog(seal, file, p, records)
    ensures ReadAll(check, file, p, reports) == (records, reports)
    decreases |records|
  {
    if records == [] {
      StopsAtEnd(check, file, p, false, [], reports);
    } else {
      LogSplits(seal, file, p, records);
      ReadsWhole(check, seal, file, p, records[0], reports);
      ReadsLog(check, seal, file, EndPlace(p, |records[0]|), records[1..], reports);
      assert [records[0]] + records[1..] == records;
    }
  }

  /** How many leading records end within the first k bytes. */
  function WholeWithin(p: Place, records: seq<Bytes>, k: nat): (n: nat)
    ensures n <= |records|
    decreases |records|
  {
    if records == [] || k < Off(EndPlace(p, |records[0]|)) then 0
    else 1 + WholeWithin(EndPlace(p, |records[0]|), records[1..], k)
  }

  /** A log cut short anywhere gives exactly the records that were written whole. */
  lemma {:induction false} ReadsTornLog(check: Checker, seal: Sealer, log: Bytes, k: nat, p: Place,
                                        records: seq<Bytes>, reports: seq<nat>)
    requires Accepts(check, seal) && HoldsLog(seal, log, p, records) && Off(p) <= k <= |log|
    ensures ReadAll(check, log[..k], p, reports).0 == records[..WholeWithin(p, records, k)]
    decreases |records|
  {
    if records == [] {
      StopsAtEnd(check, log[..k], p, false, [], reports);
    } else {
      var next := EndPlace(p, |records[0]|);
      LogSplits(seal, log, p, records);
      if k < Off(next) {
        StopsInRecord(check, seal, log, k, p, records[0], true, [], reports);
      } else {
        ReadsTornRecord(check, seal, log, k, p, records[0], reports);
        ReadsTornLog(check, seal, log, k, next, records[1..], reports);
        OneMore(records, WholeWithin(next, records[1..], k));
      }
    }
  }

  lemma {:induction false} OneMore(records: seq<Bytes>, m: nat)
    requires m < |records|
    ensures [records[0]] + records[1..][..m] == records[..m + 1]
  {
  }

  lemma {:induction false} ReadsTornRecord(check: Checker, seal: Sealer, log: Bytes, k: nat, p: Place, data: Bytes, reports: seq<nat>)
    requires Accepts(check, seal) && Stored(log, Off(p), Emit(seal, p, data, true)) && Off(EndPlace(p, |data|)) <= k <= |log|
    ensures RecordAt(check, log[..k], p, false, [], reports) == Record(data, EndPlace(p, |data|), reports)
  {
    StoredPrefix(log, k, Off(p), Emit(seal, p, data, true));
    ReadsWhole(check, seal, log[..k], p, data, reports);
  }

  /** What the log writer wrote is what the log reader returns, with no report; and a
      torn file gives the records that were written whole. */
  lemma {:induction false} LogSurvives(step: CrcStep, checksum: bool, file: Bytes, start: Place, rs: seq<Bytes>, k: nat)
    requires Off(start) <= k <= |file| && file[Off(start)..] == LogBytes(Seal(step), start, rs)
    ensures ReadAll(Checks(step, checksum), file, start, []) == (rs, [])
    ensures ReadAll(Checks(step, checksum), file[..k], start, []).0 == rs[..WholeWithin(start, rs, k)]
  {
    SealIsAccepted(step, checksum);
    ReadsLog(Checks(step, checksum), Seal(step), file, start, rs, []);
    ReadsTornLog(Checks(step, checksum), Seal(step), file, k, start, rs, []);
  }

  /** The reading loop of RecoverLogFile. */
  method ReadLog(check: Checker, file: Bytes, start: Place) returns (records: seq<Bytes>, reports: seq<nat>)
    requires start.at == 0 && Off(start) <= |file|
    ensures (records, reports) == ReadAll(check, file, start, [])
  {
    var reader := new Reader(check, file, start);
    records := [];
    ghost var all := ReadAll(check, file, start, []);
    assert records + all.0 == all.0;
    while true
      invariant reader.Valid() && fresh(reader) && reader.file == file && reader.check == check
      invariant all == (records + ReadAll(check, file, reader.pos, reader.reports).0,
                        ReadAll(check, file, reader.pos, reader.reports).1)
      decreases |file| - Off(reader.pos)
    {
      var found, record := reader.ReadRecord();
      if !found {
        assert records + [] == records;
        break;
      }
      ghost var rest := ReadAll(check, file, reader.pos, reader.reports).0;
      assert records + ([record] + rest) == (records + [record]) + rest;
      records := records + [record];
    }
    reports := reader.reports;
  }
}
