/** What a read at the last sequence sees while writers are at work. */
module ConcurrentReads {
  import opened Entries
  import opened WriteProtocol
  import opened Durability
  import opened CrashSafety

  /** What a reader searches: both memtables and the tables. */
  ghost function Contents(s: State): set<Entry> {
    s.mem + (if s.imm.Imm? then s.imm.entries else {}) + s.manifest.tables
  }

  /** A writer that set the last sequence and whose batch is in its memtable. */
  predicate Shown(t: Ticket) {
    (t.turn.Published? || t.turn.Released?) && t.work.Applied?
  }

  /** What was there at open, and the batches of those writers. */
  ghost function PublishedWrites(s: State): set<Entry> {
    (set e | e in s.manifest.tables && e.seqno <= s.base)
    + (set i, e | 0 <= i < |s.tickets| && Shown(s.tickets[i]) && e in s.tickets[i].batch :: e)
  }

  ghost predicate ShownBy(s: State, e: Entry) {
    exists i :: 0 <= i < |s.tickets| && Shown(s.tickets[i]) && e in s.tickets[i].batch
  }

  lemma {:induction false} InPublished(s: State, e: Entry)
    ensures e in PublishedWrites(s) <==> (e in s.manifest.tables && e.seqno <= s.base) || ShownBy(s, e)
  {
  }

  /** Tickets are published in order, and the last sequence lies between those that are
      and those that are not. */
  lemma {:induction false} PublishedIff(s: State, i: nat)
    requires Ordered(s) && i < |s.tickets|
    ensures s.base < s.tickets[i].start <= s.tickets[i].end
    ensures if s.tickets[i].turn.Published? || s.tickets[i].turn.Released?
            then s.tickets[i].end <= s.lastSequence && Ready(s.tickets[i])
            else s.lastSequence < s.tickets[i].start
  {
    assert s.served < |s.tickets| && s.served < i ==> s.tickets[s.served].end < s.tickets[i].start;
    assert 0 < s.served <= |s.tickets| && s.served - 1 < i ==> s.tickets[s.served - 1].end < s.tickets[i].start;
    assert 0 < s.served <= |s.tickets| && i < s.served - 1 ==> s.tickets[i].end < s.tickets[s.served - 1].start;
    assert s.served < |s.tickets| && i < s.served ==> s.tickets[i].end < s.tickets[s.served].start;
  }

  /** An entry of an applied batch that the last sequence takes in was published. */
  lemma {:induction false} AppliedIsShown(s: State, i: nat, e: Entry)
    requires Inv(s) && i < |s.tickets| && s.tickets[i].work.Applied? && e in s.tickets[i].batch && e.seqno <= s.lastSequence
    ensures ShownBy(s, e)
  {
    assert Placed(s, s.tickets[i]);
    PublishedIff(s, i);
  }

  lemma {:induction false} VisibleIsPublished(s: State, e: Entry)
    requires Full(s) && e in Contents(s) && e.seqno <= s.lastSequence
    ensures e in PublishedWrites(s)
  {
    InPublished(s, e);
    if e in s.mem {
      var i :| 0 <= i < |s.tickets| && s.tickets[i].log == s.log && s.tickets[i].work.Applied? && e in s.tickets[i].batch;
      AppliedIsShown(s, i, e);
    } else if e in s.manifest.tables {
      if e.seqno > s.base {
        var i :| 0 <= i < |s.tickets| && !Named(s, s.tickets[i]) && s.tickets[i].work.Applied? && e in s.tickets[i].batch;
        AppliedIsShown(s, i, e);
      }
    } else {
      var i :| 0 <= i < |s.tickets| && s.tickets[i].log == s.imm.log && s.tickets[i].work.Applied? && e in s.tickets[i].batch;
      AppliedIsShown(s, i, e);
    }
  }

  lemma {:induction false} PublishedIsVisible(s: State, e: Entry)
    requires Full(s) && e in PublishedWrites(s)
    ensures e in Contents(s) && e.seqno <= s.lastSequence
  {
    InPublished(s, e);
    if ShownBy(s, e) {
      var i :| 0 <= i < |s.tickets| && Shown(s.tickets[i]) && e in s.tickets[i].batch;
      assert Placed(s, s.tickets[i]);
      PublishedIff(s, i);
    }
  }

  /** A batch that no reader may see. */
  ghost predicate Unpublished(s: State, e: Entry) {
    exists i :: 0 <= i < |s.tickets| && !s.tickets[i].turn.Published? && !s.tickets[i].turn.Released? && e in s.tickets[i].batch
  }

  /** In every reachable state, and with any part of the batches of unpublished writers
      already in a memtable, a read at the last sequence sees exactly what was there at
      open and the batches that were published. */
  lemma {:induction false} ReadsSeePublished(states: seq<State>, partly: set<Entry>, k: UserKey, e: Entry)
    requires Run(states)
    requires var s := states[|states| - 1]; forall x :: x in partly ==> Unpublished(s, x)
    ensures var s := states[|states| - 1];
            IsNewest(Contents(s) + partly, k, s.lastSequence, e) <==> IsNewest(PublishedWrites(s), k, s.lastSequence, e)
  {
    var s := states[|states| - 1];
    RunKeepsFull(states);
    forall x | x in Contents(s) + partly && x.seqno <= s.lastSequence
      ensures x in PublishedWrites(s)
    {
      if x in partly {
        UnpublishedIsLater(s, x);
      }
      VisibleIsPublished(s, x);
    }
    forall x | x in PublishedWrites(s)
      ensures x in Contents(s) + partly && x.seqno <= s.lastSequence
    {
      PublishedIsVisible(s, x);
    }
    SameVisible(Contents(s) + partly, PublishedWrites(s), k, s.lastSequence, e);
  }

  lemma {:induction false} UnpublishedIsLater(s: State, e: Entry)
    requires Inv(s) && Unpublished(s, e)
    ensures e.seqno > s.lastSequence
  {
    var i :| 0 <= i < |s.tickets| && !s.tickets[i].turn.Published? && !s.tickets[i].turn.Released? && e in s.tickets[i].batch;
    assert Placed(s, s.tickets[i]);
    PublishedIff(s, i);
  }

  lemma {:induction false} SameVisible(es: set<Entry>, fs: set<Entry>, k: UserKey, n: nat, e: Entry)
    requires forall x :: x in es && x.seqno <= n ==> x in fs
    requires forall x :: x in fs ==> x in es && x.seqno <= n
    ensures IsNewest(es, k, n, e) <==> IsNewest(fs, k, n, e)
  {
  }

  /** A batch is seen whole or not at all: whole once its writer has published it,
      and never if its log append failed. */
  lemma {:induction false} BatchesAreAtomic(states: seq<State>, i: nat)
    requires Run(states) && i < |states[|states| - 1].tickets|
    ensures var s := states[|states| - 1]; var t := s.tickets[i];
            if Shown(t) then t.batch <= PublishedWrites(s) && t.end <= s.lastSequence
            else t.batch !! PublishedWrites(s)
  {
    var s := states[|states| - 1];
    RunKeepsFull(states);
    PublishedIff(s, i);
    forall e | e in s.tickets[i].batch
      ensures e in PublishedWrites(s) <==> Shown(s.tickets[i])
    {
      assert Placed(s, s.tickets[i]);
      InPublished(s, e);
      OnlyWriter(s, i, e);
    }
  }
}
