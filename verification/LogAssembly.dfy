/** What the log reader makes of a stream of fragments: the records are the matches of a
    pattern, and every byte of a fragment is returned or reported. */
module LogAssembly {
  import opened Coding
  import opened LogFormat
  import opened LogReaders
  import opened LogRoundTrip

  /** What is read from the file, piece by piece, up to its end. */
  function Pieces(check: Checker, file: Bytes, p: Place): (ps: seq<Piece>)
    requires Off(p) <= |file|
    ensures ps != [] && ps[0] == PieceAt(check, file, p)
    decreases |file| - Off(p)
  {
    var piece := PieceAt(check, file, p);
    if piece.kind == EOF then [piece] else [piece] + Pieces(check, file, piece.pos)
  }

  // ----- the records of a stream, by looking ahead

  /** How many middle fragments the stream begins with. */
  function Middles(ps: seq<Piece>): (n: nat)
    ensures n <= |ps|
    ensures forall i :: 0 <= i < n ==> ps[i].kind == MIDDLE
    ensures n < |ps| ==> ps[n].kind != MIDDLE
  {
    if ps == [] || ps[0].kind != MIDDLE then 0 else 1 + Middles(ps[1..])
  }

  function Joined(ps: seq<Piece>): Bytes {
    if ps == [] then [] else ps[0].fragment + Joined(ps[1..])
  }

  /** The middle fragments and the last one that the stream begins with, if it does. */
  predicate Finishes(ps: seq<Piece>) {
    Middles(ps) < |ps| && ps[Middles(ps)].kind == LAST
  }

  /** The matches of: one full fragment, or a first one, middle ones and a last one. */
  function Assembly(ps: seq<Piece>): seq<Bytes> {
    if ps == [] then []
    else if ps[0].kind == FULL then [ps[0].fragment] + Assembly(ps[1..])
    else if ps[0].kind == FIRST && Finishes(ps[1..]) then
      [Joined(ps[..Middles(ps[1..]) + 2])] + Assembly(ps[Middles(ps[1..]) + 2..])
    else Assembly(ps[1..])
  }

  /** The same when a record has begun before the stream. */
  function Finished(ps: seq<Piece>, scratch: Bytes): seq<Bytes> {
    if Finishes(ps) then [scratch + Joined(ps[..Middles(ps) + 1])] + Assembly(ps[Middles(ps) + 1..])
    else Assembly(ps)
  }

  function FromState(ps: seq<Piece>, inRecord: bool, scratch: Bytes): seq<Bytes> {
    if inRecord then Finished(ps, scratch) else Assembly(ps)
  }

  lemma {:induction false} MiddleStep(ps: seq<Piece>, scratch: Bytes)
    requires ps != [] && ps[0].kind == MIDDLE
    ensures Finished(ps, scratch) == Finished(ps[1..], scratch + ps[0].fragment)
  {
    var rest := ps[1..];
    assert Middles(ps) == 1 + Middles(rest);
    if Finishes(rest) {
      var n := Middles(rest);
      assert ps[..n + 2][1..] == rest[..n + 1] && ps[n + 2..] == rest[n + 1..] && ps[n + 1] == rest[n];
      assert scratch + (ps[0].fragment + Joined(rest[..n + 1])) == (scratch + ps[0].fragment) + Joined(rest[..n + 1]);
    } else {
      assert !Finishes(ps);
    }
  }

  lemma {:induction false} OtherStep(ps: seq<Piece>, scratch: Bytes)
    requires ps != [] && ps[0].kind != MIDDLE
    ensures ps[0].kind == LAST ==> Finished(ps, scratch) == [scratch + ps[0].fragment] + Assembly(ps[1..])
    ensures ps[0].kind != LAST ==> Finished(ps, scratch) == Assembly(ps)
  {
    if ps[0].kind == LAST {
      var one := ps[..1];
      assert one[0] == ps[0] && one[1..] == [];
      assert Joined(one) == ps[0].fragment + Joined(one[1..]) == ps[0].fragment;
    }
  }

  lemma {:induction false} FirstStep(ps: seq<Piece>)
    requires ps != [] && ps[0].kind == FIRST
    ensures Assembly(ps) == Finished(ps[1..], ps[0].fragment)
  {
    var rest := ps[1..];
    if Finishes(rest) {
      var n := Middles(rest);
      assert ps[..n + 2][1..] == rest[..n + 1] && ps[n + 2..] == rest[n + 1..];
    }
  }

  /** One piece, as the reader's switch handles it. */
  lemma {:induction false} HandleStep(ps: seq<Piece>, inRecord: bool, scratch: Bytes)
    requires ps != [] && (!inRecord ==> scratch == [])
    ensures match Handle(ps[0].kind, ps[0].fragment, inRecord, scratch)
            case Give(data, _) => FromState(ps, inRecord, scratch) == [data] + Assembly(ps[1..])
            case Stop(_) => FromState(ps, inRecord, scratch) == Assembly(ps[1..])
            case Go(inside, kept, _) => (!inside ==> kept == []) && FromState(ps, inRecord, scratch) == FromState(ps[1..], inside, kept)
  {
    if ps[0].kind == MIDDLE {
      MiddleStep(ps, scratch);
    } else {
      OtherStep(ps, scratch);
    }
    if ps[0].kind == FIRST {
      FirstStep(ps);
    }
  }

  // ----- reading from a state

  /** Everything that reading on from a state returns, and all reports. */
  function ReadOn(check: Checker, file: Bytes, p: Place, inRecord: bool, scratch: Bytes, reports: seq<nat>): (seq<Bytes>, seq<nat>)
    requires Off(p) <= |file|
  {
    match RecordAt(check, file, p, inRecord, scratch, reports)
    case End(_, all) => ([], all)
    case Record(data, pos, all) =>
      var rest := ReadAll(check, file, pos, all);
      ([data] + rest.0, rest.1)
  }

  lemma {:induction false} ReadOnStep(check: Checker, file: Bytes, p: Place, inRecord: bool, scratch: Bytes, reports: seq<nat>)
    requires Off(p) <= |file|
    ensures var piece := PieceAt(check, file, p);
            var all := reports + piece.drops;
            ReadOn(check, file, p, inRecord, scratch, reports) ==
            match Handle(piece.kind, piece.fragment, inRecord, scratch)
            case Give(data, drops) =>
              var rest := ReadOn(check, file, piece.pos, false, [], all + drops);
              ([data] + rest.0, rest.1)
            case Stop(drops) => ([], all + drops)
            case Go(inside, kept, drops) => ReadOn(check, file, piece.pos, inside, kept, all + drops)
  {
  }

  /** On any file, the records returned are exactly the matches of the pattern in the
      stream of fragments, in order. */
  lemma {:induction false} RecordsAreMatches(check: Checker, file: Bytes, p: Place, inRecord: bool, scratch: Bytes, reports: seq<nat>)
    requires Off(p) <= |file| && (!inRecord ==> scratch == [])
    ensures ReadOn(check, file, p, inRecord, scratch, reports).0 == FromState(Pieces(check, file, p), inRecord, scratch)
    decreases |file| - Off(p)
  {
    var ps := Pieces(check, file, p);
    var piece := ps[0];
    var all := reports + piece.drops;
    ReadOnStep(check, file, p, inRecord, scratch, reports);
    HandleStep(ps, inRecord, scratch);
    if piece.kind == EOF {
      assert ps[1..] == [];
    } else {
      assert ps[1..] == Pieces(check, file, piece.pos);
      match Handle(piece.kind, piece.fragment, inRecord, scratch)
      case Give(data, drops) => RecordsAreMatches(check, file, piece.pos, false, [], all + drops);
      case Go(inside, kept, drops) => RecordsAreMatches(check, file, piece.pos, inside, kept, all + drops);
    }
  }

  lemma {:induction false} ReadAllIsAssembly(check: Checker, file: Bytes, p: Place)
    requires Off(p) <= |file|
    ensures ReadAll(check, file, p, []).0 == Assembly(Pieces(check, file, p))
  {
    RecordsAreMatches(check, file, p, false, [], []);
  }

  // ----- every byte is returned or reported

  function Sum(ns: seq<nat>): nat {
    if ns == [] then 0 else ns[0] + Sum(ns[1..])
  }

  lemma {:induction false} SumConcat(a: seq<nat>, b: seq<nat>)
    ensures Sum(a + b) == Sum(a) + Sum(b)
  {
    if a == [] {
      assert a + b == b;
    } else {
      assert (a + b)[1..] == a[1..] + b;
      SumConcat(a[1..], b);
    }
  }

  function Lengths(records: seq<Bytes>): nat {
    if records == [] then 0 else |records[0]| + Lengths(records[1..])
  }

  /** The payload of a piece that is a fragment, and what was dropped on the way to it. */
  function Bytes1(piece: Piece): nat {
    (if piece.kind == EOF || piece.kind == BAD then 0 else |piece.fragment|) + Sum(piece.drops)
  }

  function Total(ps: seq<Piece>): nat {
    if ps == [] then 0 else Bytes1(ps[0]) + Total(ps[1..])
  }

  /** One piece: its payload joins the record in hand, is returned or is reported, and so
      is what the record in hand held. */
  lemma {:induction false} HandleBalances(kind: nat, fragment: Bytes, inRecord: bool, scratch: Bytes)
    requires !inRecord ==> scratch == []
    ensures var n := if kind == EOF || kind == BAD then 0 else |fragment|;
            match Handle(kind, fragment, inRecord, scratch)
            case Give(data, drops) => |data| + Sum(drops) == |scratch| + n
            case Stop(drops) => Sum(drops) == |scratch|
            case Go(inside, kept, drops) => (!inside ==> kept == []) && |kept| + Sum(drops) == |scratch| + n
  {
    assert forall n: nat :: Sum([n]) == n + Sum([]) by {
      forall n: nat
        ensures Sum([n]) == n + Sum([])
      {
        assert [n][1..] == [];
      }
    }
    assert Sum([]) == 0;
  }

  /** On any file, the lengths of the records returned and of the drops reported add up to
      the payloads of all fragments and the blocks dropped. */
  lemma {:induction false} EveryByteCounts(check: Checker, file: Bytes, p: Place, inRecord: bool, scratch: Bytes, reports: seq<nat>)
    requires Off(p) <= |file| && (!inRecord ==> scratch == [])
    ensures var all := ReadOn(check, file, p, inRecord, scratch, reports);
            Lengths(all.0) + Sum(all.1) == Sum(reports) + |scratch| + Total(Pieces(check, file, p))
    decreases |file| - Off(p)
  {
    var ps := Pieces(check, file, p);
    var piece := ps[0];
    var all := reports + piece.drops;
    ReadOnStep(check, file, p, inRecord, scratch, reports);
    HandleBalances(piece.kind, piece.fragment, inRecord, scratch);
    SumConcat(reports, piece.drops);
    match Handle(piece.kind, piece.fragment, inRecord, scratch)
    case Stop(drops) =>
      SumConcat(all, drops);
      assert ps[1..] == [];
    case Give(data, drops) =>
      SumConcat(all, drops);
      assert ps[1..] == Pieces(check, file, piece.pos);
      EveryByteCounts(check, file, piece.pos, false, [], all + drops);
      var rest := ReadOn(check, file, piece.pos, false, [], all + drops);
      assert ([data] + rest.0)[1..] == rest.0;
    case Go(inside, kept, drops) =>
      SumConcat(all, drops);
      assert ps[1..] == Pieces(check, file, piece.pos);
      EveryByteCounts(check, file, piece.pos, inside, kept, all + drops);
  }
}
