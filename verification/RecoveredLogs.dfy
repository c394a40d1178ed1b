/** The write protocol's logs are log files: what the protocol calls returned is what
    the log reader returns from the file's bytes. */
module RecoveredLogs {
  import opened Coding
  import opened LogFormat
  import opened LogHoles
  import opened LogReaders
  import opened LogRoundTrip
  import Entries
  import CrashSafety
  import LogWriters
  import opened LogCrashes
  import opened CrashImages
  import opened WriteProtocol

  /** Where a record that starts at a place ends, and where its headers are. */
  type Layout = (Place, nat) -> (Place, set<Place>)

  ghost predicate IsLayout(f: Layout) {
    forall p, n :: f(p, n) == (EndPlace(p, n), Places(p, n))
  }

  ghost predicate Shaped(f: Layout, slot: Slot) {
    (slot.end, slot.places) == f(slot.start, slot.size)
  }

  ghost predicate Adjacent(l: Log, k: int)
    requires 0 < k < |l.slots|
  {
    l.slots[k].start == l.slots[k - 1].end
  }

  /** Extents are as the reservation pass computes them, from the start of the file and
      without gaps. */
  ghost predicate Tiled(f: Layout, l: Log) {
    && (forall k :: 0 <= k < |l.slots| ==> Shaped(f, l.slots[k]))
    && (|l.slots| > 0 ==> Off(l.slots[0].start) == 0)
    && (forall k :: 0 < k < |l.slots| ==> Adjacent(l, k))
    && (if |l.slots| == 0 then Off(l.end) == 0 else l.end == l.slots[|l.slots| - 1].end)
  }

  ghost predicate AllTiled(f: Layout, logs: map<nat, Log>) {
    forall n :: n in logs ==> Tiled(f, logs[n])
  }

  lemma {:induction false} AppendTiled(f: Layout, l: Log, slot: Slot)
    requires Tiled(f, l) && Shaped(f, slot) && slot.start == l.end
    ensures Tiled(f, Appending(l, slot))
  {
    var l' := Appending(l, slot);
    forall k | 0 < k < |l'.slots|
      ensures Adjacent(l', k)
    {
      assert k < |l.slots| ==> Adjacent(l, k);
    }
  }

  lemma {:induction false} WriteTiled(f: Layout, l: Log, holes: set<Place>)
    requires Tiled(f, l)
    ensures Tiled(f, l.(holes := holes))
  {
    forall k | 0 < k < |l.slots|
      ensures Adjacent(l.(holes := holes), k)
    {
      assert Adjacent(l, k);
    }
  }

  lemma {:induction false} ReserveTiled(f: Layout, l: Log, i: nat, size: nat, batch: set<Entries.Entry>)
    requires IsLayout(f) && Tiled(f, l)
    ensures Tiled(f, Reserving(l, i, size, batch))
  {
    var shape := f(l.end, size);
    AppendTiled(f, l, Slot(size, l.end, shape.0, shape.1, batch, i));
  }

  lemma {:induction false} StepKeepsTiled(f: Layout, s: State, a: WriteProtocol.Action)
    requires IsLayout(f) && AllTiled(f, s.logs) && Enabled(s, a)
    ensures AllTiled(f, Apply(s, a).logs)
  {
    if a.Reserve? {
      var t := s.tickets[a.i];
      if t.log in s.logs {
        ReserveTiled(f, s.logs[t.log], a.i, a.size, t.batch);
        OneTiled(f, s.logs, t.log, Reserving(s.logs[t.log], a.i, a.size, t.batch));
      }
    } else if a.WriteFragment? {
      var n := s.tickets[a.i].log;
      WriteTiled(f, s.logs[n], s.logs[n].holes - {a.h});
      OneTiled(f, s.logs, n, s.logs[n].(holes := s.logs[n].holes - {a.h}));
    } else {
      OtherTiled(f, s, a);
    }
  }

  lemma {:induction false} OneTiled(f: Layout, logs: map<nat, Log>, n: nat, l: Log)
    requires AllTiled(f, logs) && Tiled(f, l)
    ensures AllTiled(f, logs[n := l])
  {
  }

  lemma {:induction false} OtherTiled(f: Layout, s: State, a: WriteProtocol.Action)
    requires AllTiled(f, s.logs) && Enabled(s, a) && !a.Reserve? && !a.WriteFragment?
    ensures AllTiled(f, Apply(s, a).logs)
  {
    assert Tiled(f, NewLog(s.nextFile));
  }

  lemma {:induction false} RunKeepsTiled(f: Layout, states: seq<State>)
    requires IsLayout(f) && Run(states)
    ensures AllTiled(f, states[|states| - 1].logs)
    decreases |states|
  {
    var n := |states| - 1;
    if n > 0 {
      CrashSafety.StepsPrefix(states);
      RunKeepsTiled(f, states[..n]);
      assert StepAt(states, n - 1);
      NextIsTiled(f, states[n - 1], states[n]);
    }
  }

  lemma {:induction false} NextIsTiled(f: Layout, s: State, s': State)
    requires IsLayout(f) && AllTiled(f, s.logs) && Step(s, s')
    ensures AllTiled(f, s'.logs)
  {
    var a :| Enabled(s, a) && s' == Apply(s, a);
    StepKeepsTiled(f, s, a);
  }

  /** For each extent, whether its record is returned. */
  ghost function ReturnedFlags(l: Log): (flags: seq<bool>)
    ensures |flags| == |l.slots|
  {
    seq(|l.slots|, k requires 0 <= k < |l.slots| => Returned(l, k))
  }

  /** Records of the sizes that were reserved. */
  ghost predicate Fits(l: Log, records: seq<Bytes>) {
    |records| == |l.slots| && forall k :: 0 <= k < |records| ==> |records[k]| == l.slots[k].size
  }

  lemma {:induction false} NextStarts(f: Layout, p: Place, records: seq<Bytes>, k: nat)
    requires IsLayout(f) && k + 1 < |records|
    ensures LogWriters.Starts(p, records)[k + 1] == f(LogWriters.Starts(p, records)[k], |records[k]|).0
  {
    LogWriters.ExtentsTile(p, records, k);
  }

  lemma {:induction false} SlotStarts(f: Layout, l: Log, starts: seq<Place>, k: nat)
    requires Tiled(f, l) && k < |starts| == |l.slots| && Off(starts[0]) == 0
    requires forall j :: 0 <= j < |starts| - 1 ==> NextBy(f, l, starts, j)
    ensures starts[k] == l.slots[k].start
  {
    if k > 0 {
      SlotStarts(f, l, starts, k - 1);
      assert Adjacent(l, k) && Shaped(f, l.slots[k - 1]) && NextBy(f, l, starts, k - 1);
    } else {
      SamePlace(starts[0], l.slots[0].start);
    }
  }

  ghost predicate NextBy(f: Layout, l: Log, starts: seq<Place>, j: int)
    requires 0 <= j < |starts| - 1 && |starts| == |l.slots|
  {
    starts[j + 1] == f(starts[j], l.slots[j].size).0
  }

  lemma {:induction false} RecordStarts(f: Layout, l: Log, p: Place, records: seq<Bytes>, k: nat)
    requires IsLayout(f) && Tiled(f, l) && Off(p) == 0 && Fits(l, records) && k < |records|
    ensures LogWriters.Starts(p, records)[k] == l.slots[k].start
  {
    var starts := LogWriters.Starts(p, records);
    LogWriters.ExtentsTile(p, records, 0);
    forall j | 0 <= j < |starts| - 1
      ensures NextBy(f, l, starts, j)
    {
      NextStarts(f, p, records, j);
    }
    SlotStarts(f, l, starts, k);
  }

  /** Every fragment the log counts as written is in the file, with both its writes. */
  ghost predicate Survives(seal: Sealer, l: Log, fs: seq<Frag>, run: seq<LogWriters.Write>, len: nat) {
    forall f :: f in fs && f.at !in l.holes ==> |f.payload| < 0x1_0000 && Written(seal, run, f) && Off(f.next) <= len
  }

  /** The log once the fragments that did reach the file whole are counted. */
  ghost function Settled(l: Log, seal: Sealer, file: Bytes, fs: seq<Frag>): Log {
    l.(holes := Unwritten(seal, file, fs))
  }

  /** In every reachable state, from a file that has what the protocol counts as written
      and any part of the rest, the reader returns the records of exactly those extents
      that are returned once the fragments in the file are counted, in the order reserved.
      These take in all that were returned before. */
  lemma {:induction false} ReaderReturns(states: seq<State>, n: nat, p: Place, check: Checker, seal: Sealer, records: seq<Bytes>,
                                         run: seq<LogWriters.Write>, len: nat)
    requires Run(states) && n in states[|states| - 1].logs && Accepts(check, seal) && Off(p) == 0
    requires Fits(states[|states| - 1].logs[n], records)
    requires forall w :: w in run ==> w in LogWriters.LogWrites(seal, p, records)
    requires Survives(seal, states[|states| - 1].logs[n], LogFrags(p, records), run, len)
    requires forall f :: f in LogFrags(p, records) && |f.payload| < 0x1_0000 ==>
      TornCaught(check, seal, Image(LogWriters.Contents(run), len), f)
    ensures var l, file := states[|states| - 1].logs[n], Image(LogWriters.Contents(run), len);
      var l' := Settled(l, seal, file, LogFrags(p, records));
      && ReadAll(check, file, p, []).0 == Select(records, ReturnedFlags(l'))
      && l'.holes <= l.holes
      && forall k: nat :: k < |l.slots| && Returned(l, k) ==> Returned(l', k)
  {
    var f: Layout := (p, n) => (EndPlace(p, n), Places(p, n));
    RunKeepsTiled(f, states);
    LogReturns(f, states[|states| - 1].logs[n], p, check, seal, records, run, len);
    OnlyHolesUnwritten(states[|states| - 1].logs[n], p, seal, records, run, len);
    MoreReturned(states[|states| - 1].logs[n], Unwritten(seal, Image(LogWriters.Contents(run), len), LogFrags(p, records)));
  }

  lemma {:induction false} LogReturns(f: Layout, l: Log, p: Place, check: Checker, seal: Sealer, records: seq<Bytes>,
                                      run: seq<LogWriters.Write>, len: nat)
    requires IsLayout(f) && Tiled(f, l) && Off(p) == 0 && Fits(l, records) && Accepts(check, seal)
    requires forall w :: w in run ==> w in LogWriters.LogWrites(seal, p, records)
    requires forall f :: f in LogFrags(p, records) && |f.payload| < 0x1_0000 ==>
      TornCaught(check, seal, Image(LogWriters.Contents(run), len), f)
    ensures var file := Image(LogWriters.Contents(run), len);
      ReadAll(check, file, p, []).0 == Select(records, ReturnedFlags(Settled(l, seal, file, LogFrags(p, records))))
  {
    var l' := Settled(l, seal, Image(LogWriters.Contents(run), len), LogFrags(p, records));
    CrashReads(check, seal, p, records, run, len);
    WriteTiled(f, l, l'.holes);
    FlagsAreReturned(f, l', p, records);
  }

  lemma {:induction false} MoreReturned(l: Log, fewer: set<Place>)
    requires fewer <= l.holes
    ensures forall k: nat :: k < |l.slots| && Returned(l, k) ==> Returned(l.(holes := fewer), k)
  {
    forall k: nat | k < |l.slots| && Returned(l, k)
      ensures Returned(l.(holes := fewer), k)
    {
      FewerHoles(l.holes, fewer, l.slots[k].places);
    }
  }

  lemma {:induction false} OnlyHolesUnwritten(l: Log, p: Place, seal: Sealer, records: seq<Bytes>, run: seq<LogWriters.Write>, len: nat)
    requires forall w :: w in run ==> w in LogWriters.LogWrites(seal, p, records)
    requires Survives(seal, l, LogFrags(p, records), run, len)
    ensures Unwritten(seal, Image(LogWriters.Contents(run), len), LogFrags(p, records)) <= l.holes
  {
    var fs := LogFrags(p, records);
    LogChain(p, records);
    forall f | f in fs && f.at !in l.holes
      ensures Whole(seal, Image(LogWriters.Contents(run), len), f)
    {
      ChainWithin(p, fs, LogEnd(p, records), f);
      WrittenIsWhole(seal, p, records, run, len, f);
    }
  }

  lemma {:induction false} FlagsAreReturned(f: Layout, l: Log, p: Place, records: seq<Bytes>)
    requires IsLayout(f) && Tiled(f, l) && Off(p) == 0 && Fits(l, records)
    ensures ClearFlags(l.holes, p, records) == ReturnedFlags(l)
  {
    forall k: nat | k < |records|
      ensures ClearFlags(l.holes, p, records)[k] == ReturnedFlags(l)[k]
    {
      FlagIsReturned(f, l, p, records, k);
    }
  }

  lemma {:induction false} FlagIsReturned(f: Layout, l: Log, p: Place, records: seq<Bytes>, k: nat)
    requires IsLayout(f) && Tiled(f, l) && Off(p) == 0 && Fits(l, records) && k < |records|
    ensures ClearFlags(l.holes, p, records)[k] == Returned(l, k)
  {
    RecordStarts(f, l, p, records, k);
    assert Shaped(f, l.slots[k]);
  }
}
