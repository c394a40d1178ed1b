/** The specification every storage layer is measured against.

    The store is a set of versioned entries (user key, sequence, type, value).
    A read of a user key at a snapshot sees the entry with the largest sequence
    not above the snapshot, and a deletion marker hides what is older.

    User keys are compared only through the user comparator, so a key is
    represented here by its position in that comparator's order; module
    Comparators proves that every finite set of byte-string keys has such
    positions. */
module Entries {

  type UserKey = int
  type Value = string

  /** kMaxSequenceNumber: eight bits of a 64-bit tag hold the value type. */
  const MAX_SEQUENCE: nat := 0xFF_FFFF_FFFF_FFFF

  type SequenceNumber = n: nat | n <= MAX_SEQUENCE

  datatype Kind = Deletion | Put

  datatype Entry = Entry(key: UserKey, seqno: SequenceNumber, kind: Kind, value: Value)

  /** Internal-key order: user key ascending, then sequence descending. */
  predicate Before(a: Entry, b: Entry) {
    a.key < b.key || (a.key == b.key && a.seqno > b.seqno)
  }

  /** "e" sorts before the lookup key (k, snapshot). */
  predicate BeforeKey(e: Entry, k: UserKey, snapshot: nat) {
    e.key < k || (e.key == k && e.seqno > snapshot)
  }

  /** What a table, memtable block or merged input looks like. */
  ghost predicate Sorted(s: seq<Entry>) {
    forall i, j :: 0 <= i < j < |s| ==> Before(s[i], s[j])
  }

  /** No two different entries share a user key and a sequence. */
  ghost predicate UniqueTags(es: set<Entry>) {
    forall e, f :: e in es && f in es && e.key == f.key && e.seqno == f.seqno ==> e == f
  }

  ghost function Elements(s: seq<Entry>): set<Entry> {
    set e | e in s
  }

  predicate Visible(e: Entry, k: UserKey, snapshot: nat) {
    e.key == k && e.seqno <= snapshot
  }

  ghost predicate HasVisible(es: set<Entry>, k: UserKey, snapshot: nat) {
    exists e :: e in es && Visible(e, k, snapshot)
  }

  /** "e" is the entry a read of k at the snapshot must return. */
  ghost predicate IsNewest(es: set<Entry>, k: UserKey, snapshot: nat, e: Entry) {
    && e in es
    && Visible(e, k, snapshot)
    && forall f :: f in es && Visible(f, k, snapshot) ==> f.seqno <= e.seqno
  }

  datatype ReadResult = NotFound | Found(value: Value)

  function ResultOf(e: Entry): ReadResult {
    if e.kind.Put? then Found(e.value) else NotFound
  }

  /** The map a snapshot shows: newest visible entry, deletions hide. */
  ghost function Read(es: set<Entry>, k: UserKey, snapshot: nat): ReadResult {
    if exists e :: IsNewest(es, k, snapshot, e)
    then var e :| IsNewest(es, k, snapshot, e); ResultOf(e)
    else NotFound
  }

  /** A key with any visible entry has a newest one. */
  lemma {:induction false} NewestExists(es: set<Entry>, k: UserKey, snapshot: nat)
    requires HasVisible(es, k, snapshot)
    ensures exists e :: IsNewest(es, k, snapshot, e)
  {
    var e :| e in es && Visible(e, k, snapshot);
    var rest := es - {e};
    if HasVisible(rest, k, snapshot) {
      NewestExists(rest, k, snapshot);
      var m :| IsNewest(rest, k, snapshot, m);
      assert IsNewest(es, k, snapshot, if m.seqno >= e.seqno then m else e);
    } else {
      assert forall f :: f in es && f != e ==> f in rest;
      assert IsNewest(es, k, snapshot, e);
    }
  }

  /** Read is determined by any newest visible entry. */
  lemma {:induction false} ReadNewest(es: set<Entry>, k: UserKey, snapshot: nat, e: Entry)
    requires UniqueTags(es)
    requires IsNewest(es, k, snapshot, e)
    ensures Read(es, k, snapshot) == ResultOf(e)
  {
    assert forall m :: IsNewest(es, k, snapshot, m) ==> m == e by {
      forall m | IsNewest(es, k, snapshot, m) ensures m == e {
        assert Visible(m, k, snapshot) && Visible(e, k, snapshot);
      }
    }
  }

  /** A key that only deletions make visible, or nothing does, reads as absent. */
  lemma {:induction false} ReadNone(es: set<Entry>, k: UserKey, snapshot: nat)
    requires !HasVisible(es, k, snapshot)
    ensures Read(es, k, snapshot) == NotFound
  {
    if e :| IsNewest(es, k, snapshot, e) {
      assert HasVisible(es, k, snapshot);
    }
  }

  /** Removing entries that are not the newest visible one changes no read. */
  lemma {:induction false} ReadSubset(small: set<Entry>, big: set<Entry>, k: UserKey, snapshot: nat)
    requires UniqueTags(big)
    requires small <= big
    requires forall e :: IsNewest(big, k, snapshot, e) ==> e in small
    ensures Read(small, k, snapshot) == Read(big, k, snapshot)
  {
    if HasVisible(big, k, snapshot) {
      NewestExists(big, k, snapshot);
      var e :| IsNewest(big, k, snapshot, e);
      assert IsNewest(small, k, snapshot, e);
      ReadNewest(big, k, snapshot, e);
      ReadNewest(small, k, snapshot, e);
    } else {
      ReadNone(big, k, snapshot);
      assert !HasVisible(small, k, snapshot);
      ReadNone(small, k, snapshot);
    }
  }
}
