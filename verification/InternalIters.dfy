/** The internal iterator as DBIter uses it: a merging iterator and its place in the
    sorted merge of the children. */
module InternalIters {
  import opened Entries
  import opened Mergers
  import Lookups

  class InternalIter {
    const merging: MergingIterator
    ghost const entries: seq<Entry>

    /** At entries[pos], or not valid when pos == |entries|. */
    ghost var pos: nat

    constructor (merging: MergingIterator)
      requires merging.Valid() && merging.Current() == Off
      ensures Valid() && this.merging == merging && entries == merging.merged && pos == |entries|
    {
      this.merging := merging;
      this.entries := merging.merged;
      this.pos := |merging.merged|;
    }

    ghost predicate Valid()
      reads this, merging
    {
      && merging.Valid()
      && entries == merging.merged
      && pos <= |entries|
      && merging.Current() == Nth(entries, pos)
    }

    method Entry() returns (e: Entry)
      requires Valid() && pos < |entries|
      ensures e == entries[pos]
    {
      e := merging.children[merging.current][merging.at[merging.current]];
    }

    method IsValid() returns (valid: bool)
      requires Valid()
      ensures valid <==> pos < |entries|
    {
      valid := merging.current >= 0;
    }

    method Next()
      requires Valid() && pos < |entries|
      modifies this, merging
      ensures Valid() && pos == old(pos) + 1
    {
      merging.Next();
      pos := pos + 1;
    }

    method Prev()
      requires Valid() && pos < |entries|
      modifies this, merging
      ensures Valid() && pos == if old(pos) == 0 then |entries| else old(pos) - 1
    {
      merging.Prev();
      pos := if pos == 0 then |entries| else pos - 1;
    }

    method Seek(k: UserKey, snapshot: nat)
      requires Valid()
      modifies this, merging
      ensures Valid() && pos == Lookups.SeekRow(entries, k, snapshot)
    {
      merging.Seek(k, snapshot);
      pos := Lookups.SeekRow(entries, k, snapshot);
    }

    method SeekToFirst()
      requires Valid()
      modifies this, merging
      ensures Valid() && pos == 0
    {
      merging.SeekToFirst();
      pos := 0;
    }

    method SeekToLast()
      requires Valid()
      modifies this, merging
      ensures Valid() && pos == if |entries| == 0 then 0 else |entries| - 1
    {
      merging.SeekToLast();
      pos := if |entries| == 0 then 0 else |entries| - 1;
    }
  }
}
