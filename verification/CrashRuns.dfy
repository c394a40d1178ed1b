/** A crash can come at any moment and lose any part of what is in memtables only. */
module CrashRuns {
  import opened Entries
  import opened Store
  import opened StoreRecovery
  import Mergers

  lemma {:induction false} Ordered(es: set<Entry>, a: Entry, b: Entry)
    requires UniqueTags(es) && a in es && b in es && a != b
    ensures Before(a, b) || Before(b, a)
  {
  }

  lemma {:induction false} OnePart(d: Disk, kept: set<Entry>) returns (r: Replay)
    requires Full(d) && kept <= d.s.mem + ImmEntries(d.s.imm)
    ensures MayRecover(d, r) && Back(r) == kept && |r.parts| <= 1 && r.last == d.s.lastSequence
  {
    forall a, b | a in kept && b in kept && a != b
      ensures Before(a, b) || Before(b, a)
    {
      Ordered(d.s.written, a, b);
    }
    var rows := Mergers.SortEntries(kept);
    r := Replay(if kept == {} then [] else [rows], d.s.lastSequence);
    assert forall e :: e in rows <==> e in Elements(rows);
    if kept != {} {
      assert r.parts[0] == rows;
    }
    assert Back(r) == kept;
  }

  lemma {:induction false} RunLonger(disks: seq<Disk>, events: seq<Event>, e: Event, d: Disk)
    requires RunBy(disks, events) && StepBy(disks[|events|], e, d)
    ensures RunBy(disks + [d], events + [e])
  {
    var more, longer := disks + [d], events + [e];
    forall i
      ensures EventAt(more, longer, i)
    {
      if 0 <= i < |events| {
        assert EventAt(disks, events, i);
        assert more[i] == disks[i] && more[i + 1] == disks[i + 1] && longer[i] == events[i];
      }
    }
  }

  /** After any run a crash may lose any part of the batches that are in no table yet, and
      the history says exactly that. */
  lemma {:induction false} AnyPartMayBeLost(disks: seq<Disk>, events: seq<Event>, lost: set<Entry>)
    returns (r: Replay, more: seq<Disk>)
    requires RunBy(disks, events)
    requires var h := History(disks[0].s.lastSequence, events); lost <= h.young + h.full
    ensures RunBy(more, events + [Crash(r)]) && more[0] == disks[0]
    ensures History(disks[0].s.lastSequence, events + [Crash(r)]).kept == History(disks[0].s.lastSequence, events).kept - lost
  {
    var d, h := disks[|events|], History(disks[0].s.lastSequence, events);
    RunOf(disks, events);
    RunKeepsFull(disks);
    HistoryOfRun(disks, events);
    r := OnePart(d, h.young + h.full - lost);
    RunLonger(disks, events, Crash(r), Recovered(d, r));
    more := disks + [Recovered(d, r)];
    assert (events + [Crash(r)])[..|events|] == events;
    assert h.young + h.full - Back(r) == lost;
  }
}
