/** The log reader (db/log_reader.cc) from offset 0, and what it makes of the files
    the log writer leaves behind. */
module LogReaders {
  import opened Coding
  import opened LogFormat

  const EOF: nat := 5
  const BAD: nat := 6

  /** What a physical read found: record type, payload, where reading goes on, and
      the sizes reported as corrupted. */
  datatype Piece = Piece(kind: nat, fragment: Bytes, pos: Place, drops: seq<nat>)

  // ----- the file as seen from a position, without any buffering

  /** Bytes of the file in the rest of this block. */
  function Avail(file: Bytes, p: Place): (n: nat)
    requires Off(p) <= |file|
    ensures Off(p) + n <= |file| && n <= Leftover(p)
  {
    if Leftover(p) <= |file| - Off(p) then Leftover(p) else |file| - Off(p)
  }

  /** Whether a fragment's stored checksum bytes fit its type and payload. */
  type Checker = (Bytes, byte, Bytes) -> bool

  function Checks(step: CrcStep, checksum: bool): Checker {
    (h: Bytes, t: byte, payload: Bytes) =>
      !checksum || (FixedValue(h) < U32 && Unmask(FixedValue(h)) == Extend(step, 0, [t] + payload))
  }

  function Length(a: nat, b: nat): nat {
    a + 256 * b
  }

  /** The record at the front of the rest of a block. */
  function Parse(check: Checker, p: Place, b: Bytes): (r: Piece)
    requires HEADER <= |b| <= Leftover(p)
    ensures Off(p) < Off(r.pos) <= Off(p) + |b|
  {
    var length, t := Length(b[4], b[5]), b[6];
    if HEADER + length > |b| then Piece(BAD, [], Plus(p, |b|), [|b|])
    else if t == ZERO && length == 0 then Piece(BAD, [], Plus(p, |b|), [])
    else if !check(b[..4], t, b[HEADER..HEADER + length]) then Piece(BAD, [], Plus(p, |b|), [|b|])
    else Piece(t, b[HEADER..HEADER + length], Plus(p, HEADER + length), [])
  }

  function PieceAt(check: Checker, file: Bytes, p: Place): (r: Piece)
    requires Off(p) <= |file|
    ensures Off(p) <= Off(r.pos) <= |file|
    ensures r.kind != EOF ==> Off(p) < Off(r.pos)
    decreases |file| - Off(p)
  {
    if Off(p) == |file| then Piece(EOF, [], p, [])
    else if Avail(file, p) >= HEADER then Parse(check, p, file[Off(p)..Off(p) + Avail(file, p)])
    else if Avail(file, p) < Leftover(p) then Piece(EOF, [], Plus(p, Avail(file, p)), [Avail(file, p)])
    else PieceAt(check, file, Plus(p, Leftover(p)))
  }

  /** A logical read: a record or the end of the file, where reading goes on and all
      reports so far. */
  datatype Found = Record(data: Bytes, pos: Place, reports: seq<nat>) | End(pos: Place, reports: seq<nat>)

  /** A record cut short by the start of another one; an empty one is forgiven. */
  function Interrupted(inRecord: bool, scratch: Bytes): seq<nat> {
    if inRecord && scratch != [] then [|scratch|] else []
  }

  /** What a logical read does on a piece: give a record, stop, or go on. */
  datatype Action =
    | Give(data: Bytes, drops: seq<nat>)
    | Stop(drops: seq<nat>)
    | Go(inRecord: bool, scratch: Bytes, drops: seq<nat>)

  function Handle(kind: nat, fragment: Bytes, inRecord: bool, scratch: Bytes): (a: Action)
    ensures kind == EOF <==> a.Stop?
  {
    if kind == EOF then Stop(if inRecord then [|scratch|] else [])
    else if kind == FULL then Give(fragment, Interrupted(inRecord, scratch))
    else if kind == FIRST then Go(true, fragment, Interrupted(inRecord, scratch))
    else if kind == MIDDLE then
      if inRecord then Go(true, scratch + fragment, []) else Go(false, scratch, [|fragment|])
    else if kind == LAST then
      if inRecord then Give(scratch + fragment, []) else Go(false, scratch, [|fragment|])
    else if kind == BAD then
      if inRecord then Go(false, [], [|scratch|]) else Go(false, scratch, [])
    else Go(false, [], [|fragment| + if inRecord then |scratch| else 0])
  }

  function RecordAt(check: Checker, file: Bytes, p: Place, inRecord: bool, scratch: Bytes, reports: seq<nat>): (f: Found)
    requires Off(p) <= |file|
    ensures Off(p) <= Off(f.pos) <= |file| && (f.Record? ==> Off(p) < Off(f.pos))
    decreases |file| - Off(p)
  {
    var piece := PieceAt(check, file, p);
    var all := reports + piece.drops;
    match Handle(piece.kind, piece.fragment, inRecord, scratch)
    case Give(data, drops) => Record(data, piece.pos, all + drops)
    case Stop(drops) => End(piece.pos, all + drops)
    case Go(inside, kept, drops) => RecordAt(check, file, piece.pos, inside, kept, all + drops)
  }

  // ----- the buffered reader

  class Reader {
    const check: Checker
    const file: Bytes
    var buffer: Bytes
    var eof: bool
    var endOfBuffer: nat
    var reports: seq<nat>
    /** Where the buffer starts in the file. */
    ghost var pos: Place

    ghost predicate Valid()
      reads this
    {
      && Off(pos) + |buffer| == endOfBuffer <= |file|
      && buffer == file[Off(pos)..endOfBuffer]
      && (eof ==> endOfBuffer == |file| && (buffer == [] || |buffer| < Leftover(pos)))
      && (!eof ==> if buffer == [] then pos.at == 0 else |buffer| == Leftover(pos))
    }

    /** Reading starts at the beginning of a block. */
    constructor (check: Checker, file: Bytes, start: Place)
      requires start.at == 0 && Off(start) <= |file|
      ensures Valid() && pos == start && reports == []
      ensures this.check == check && this.file == file
    {
      this.check, this.file := check, file;
      buffer, eof, endOfBuffer, reports, pos := [], false, Off(start), [], start;
    }

    method Report(size: nat)
      modifies this`reports
      ensures reports == old(reports) + [size]
    {
      reports := reports + [size];
    }

    method ClearBuffer()
      requires Valid()
      modifies this`buffer, this`pos
      ensures Valid() && buffer == [] && pos == Plus(old(pos), |old(buffer)|)
    {
      pos := Plus(pos, |buffer|);
      buffer := [];
    }

    /** The read of the next block, which also skips a trailer. */
    method ReadBlock()
      requires Valid() && |buffer| < HEADER && !eof
      modifies this`buffer, this`eof, this`endOfBuffer, this`pos
      ensures Valid() && PieceAt(check, file, pos) == PieceAt(check, file, old(pos))
      ensures eof || endOfBuffer > old(endOfBuffer)
    {
      ClearBuffer();
      var end := if endOfBuffer + BLOCK <= |file| then endOfBuffer + BLOCK else |file|;
      buffer := file[endOfBuffer..end];
      endOfBuffer := end;
      if |buffer| < BLOCK {
        eof := true;
      }
    }

    /** The reader has moved over this piece and reported what it drops. */
    ghost predicate Added(piece: Piece, kind: nat, fragment: Bytes, before: seq<nat>)
      reads this
    {
      kind == piece.kind && fragment == piece.fragment && pos == piece.pos && reports == before + piece.drops
    }

    /** Drops the rest of the buffer. */
    method Discard(report: bool)
      requires Valid()
      modifies this`buffer, this`pos, this`reports
      ensures Valid() && buffer == [] && pos == Plus(old(pos), |old(buffer)|)
      ensures reports == old(reports) + if report then [|old(buffer)|] else []
    {
      if report {
        reports := reports + [|buffer|];
      }
      ClearBuffer();
    }

    /** The part of ReadPhysicalRecord that handles a buffered header. */
    method ParseHeader() returns (kind: nat, fragment: Bytes)
      requires Valid() && |buffer| >= HEADER
      modifies this`buffer, this`pos, this`reports
      ensures Valid()
      ensures Added(Parse(check, old(pos), old(buffer)), kind, fragment, old(reports))
    {
      var length, t := Length(buffer[4], buffer[5]), buffer[6];
      if HEADER + length > |buffer| {
        Discard(true);
        return BAD, [];
      }
      if t == ZERO && length == 0 {
        Discard(false);
        return BAD, [];
      }
      if !check(buffer[..4], t, buffer[HEADER..HEADER + length]) {
        Discard(true);
        return BAD, [];
      }
      kind, fragment := t, buffer[HEADER..HEADER + length];
      pos := Plus(pos, HEADER + length);
      buffer := buffer[HEADER + length..];
    }

    lemma {:induction false} BufferedPiece()
      requires Valid() && |buffer| >= HEADER
      ensures PieceAt(check, file, pos) == Parse(check, pos, buffer)
    {
      assert Avail(file, pos) == |buffer|;
    }

    lemma {:induction false} LastPiece()
      requires Valid() && |buffer| < HEADER && eof
      ensures PieceAt(check, file, pos) == Piece(EOF, [], Plus(pos, |buffer|), if |buffer| > 0 then [|buffer|] else [])
    {
    }

    method ReadPhysicalRecord() returns (kind: nat, fragment: Bytes)
      requires Valid()
      modifies this
      ensures Valid()
      ensures Added(PieceAt(check, file, old(pos)), kind, fragment, old(reports))
    {
      while |buffer| < HEADER
        invariant Valid() && reports == old(reports)
        invariant PieceAt(check, file, pos) == PieceAt(check, file, old(pos))
        decreases !eof, |file| - endOfBuffer
      {
        if !eof {
          ReadBlock();
        } else {
          LastPiece();
          Discard(|buffer| > 0);
          return EOF, [];
        }
      }
      BufferedPiece();
      kind, fragment := ParseHeader();
    }

    /** The switch of ReadRecord: what to do with a piece, and the reports it makes. */
    method Switch(kind: nat, fragment: Bytes, inRecord: bool, scratch: Bytes) returns (action: Action)
      modifies this`reports
      ensures action == Handle(kind, fragment, inRecord, scratch)
      ensures reports == old(reports) + action.drops
    {
      ghost var before := reports;
      if kind == FULL {
        if inRecord && |scratch| > 0 {
          Report(|scratch|);
        }
        action := Give(fragment, Interrupted(inRecord, scratch));
      } else if kind == FIRST {
        if inRecord && |scratch| > 0 {
          Report(|scratch|);
        }
        action := Go(true, fragment, Interrupted(inRecord, scratch));
      } else if kind == MIDDLE {
        if !inRecord {
          Report(|fragment|);
          action := Go(false, scratch, [|fragment|]);
        } else {
          action := Go(true, scratch + fragment, []);
        }
      } else if kind == LAST {
        if !inRecord {
          Report(|fragment|);
          action := Go(false, scratch, [|fragment|]);
        } else {
          action := Give(scratch + fragment, []);
        }
      } else if kind == EOF {
        if inRecord {
          Report(|scratch|);
        }
        action := Stop(if inRecord then [|scratch|] else []);
      } else if kind == BAD {
        if inRecord {
          Report(|scratch|);
          action := Go(false, [], [|scratch|]);
        } else {
          action := Go(false, scratch, []);
        }
      } else {
        var size := |fragment| + if inRecord then |scratch| else 0;
        Report(size);
        action := Go(false, [], [size]);
      }
    }

    /** One turn of ReadRecord's loop. */
    method Turn(inRecord: bool, scratch: Bytes) returns (action: Action)
      requires Valid()
      modifies this
      ensures Valid()
      ensures var piece := PieceAt(check, file, old(pos));
        && action == Handle(piece.kind, piece.fragment, inRecord, scratch)
        && pos == piece.pos
        && reports == old(reports) + piece.drops + action.drops
    {
      var kind, fragment := ReadPhysicalRecord();
      action := Switch(kind, fragment, inRecord, scratch);
    }

    method ReadRecord() returns (found: bool, record: Bytes)
      requires Valid()
      modifies this
      ensures Valid()
      ensures RecordAt(check, file, old(pos), false, [], old(reports)) ==
              if found then Record(record, pos, reports) else End(pos, reports)
    {
      var scratch: Bytes, inRecord := [], false;
      while true
        invariant Valid()
        invariant RecordAt(check, file, pos, inRecord, scratch, reports)
                  == RecordAt(check, file, old(pos), false, [], old(reports))
        decreases |file| - Off(pos)
      {
        var action := Turn(inRecord, scratch);
        match action {
          case Give(data, _) => return true, data;
          case Stop(_) => return false, [];
          case Go(inside, kept, _) => inRecord, scratch := inside, kept;
        }
      }
    }
  }
}
