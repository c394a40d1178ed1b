/** The memtable (db/memtable.cc): encoded entries in the number-first order. The skip
    list that holds them is module SkipLists; here it is the sequence it spells. */
module MemTables {
  import opened Coding
  import opened Comparators
  import opened Entries

  /** A put or a deletion with its sequence number. */
  datatype Op = Op(seqno: nat, put: bool, key: Bytes, value: Bytes)

  predicate Fits(op: Op) {
    op.seqno <= MAX_SEQUENCE && |op.key| + 8 < U32 && |op.value| < U32
  }

  function KindOf(op: Op): nat {
    if op.put then 1 else 0
  }

  function InternalOf(op: Op): Bytes {
    InternalKey(op.key, Tag(op.seqno, KindOf(op)))
  }

  /** A skip list key: the user key's number and the encoded entry. */
  datatype Row = Row(num: nat, entry: Bytes)

  function RowOf(num: Numbering, op: Op): Row {
    Row(num(op.key), Prefixed(InternalOf(op)) + Prefixed(op.value))
  }

  function LookupRow(num: Numbering, key: Bytes, snapshot: nat): Row {
    Row(num(key), Prefixed(InternalKey(key, Tag(snapshot, VALUE_FOR_SEEK))))
  }

  /** The internal key in front of an encoded entry. */
  predicate HasKey(row: Row) {
    ParsePrefixed(row.entry).Some? && |ParsePrefixed(row.entry).value.0| >= 8
  }

  function KeyIn(row: Row): (k: Bytes)
    requires HasKey(row)
    ensures |k| >= 8
  {
    ParsePrefixed(row.entry).value.0
  }

  predicate RowLess(a: Row, b: Row)
    requires HasKey(a) && HasKey(b)
  {
    NumberedLess(a.num, KeyIn(a), b.num, KeyIn(b))
  }

  /** User key ascending, then newest first. */
  predicate OpBefore(a: Op, b: Op) {
    Less(a.key, b.key) || (a.key == b.key && a.seqno > b.seqno)
  }

  lemma {:induction false} RowDecodes(num: Numbering, op: Op)
    requires Fits(op)
    ensures HasKey(RowOf(num, op)) && KeyIn(RowOf(num, op)) == InternalOf(op)
    ensures ParsePrefixed(RowOf(num, op).entry) == Some((InternalOf(op), Prefixed(op.value)))
    ensures UserOf(InternalOf(op)) == op.key && TagOf(InternalOf(op)) == Tag(op.seqno, KindOf(op))
  {
    PrefixedRoundTrip(InternalOf(op), Prefixed(op.value));
    InternalKeyParts(op.key, Tag(op.seqno, KindOf(op)));
  }

  lemma {:induction false} LookupDecodes(num: Numbering, key: Bytes, snapshot: nat)
    requires |key| + 8 < U32 && snapshot <= MAX_SEQUENCE
    ensures HasKey(LookupRow(num, key, snapshot))
    ensures KeyIn(LookupRow(num, key, snapshot)) == InternalKey(key, Tag(snapshot, VALUE_FOR_SEEK))
    ensures UserOf(KeyIn(LookupRow(num, key, snapshot))) == key
    ensures TagOf(KeyIn(LookupRow(num, key, snapshot))) == Tag(snapshot, VALUE_FOR_SEEK)
  {
    var k := InternalKey(key, Tag(snapshot, VALUE_FOR_SEEK));
    PrefixedRoundTrip(k, []);
    assert Prefixed(k) + [] == Prefixed(k);
    InternalKeyParts(key, Tag(snapshot, VALUE_FOR_SEEK));
  }

  lemma {:induction false} RowOrder(num: Numbering, a: Op, b: Op)
    requires Faithful(num) && Fits(a) && Fits(b) && (a.key == b.key ==> a.seqno != b.seqno)
    ensures HasKey(RowOf(num, a)) && HasKey(RowOf(num, b)) && (RowLess(RowOf(num, a), RowOf(num, b)) <==> OpBefore(a, b))
  {
    RowDecodes(num, a);
    RowDecodes(num, b);
    NumberedIsInternal(num, InternalOf(a), InternalOf(b));
  }

  /** Before the lookup key are the entries of earlier keys and the too new ones. */
  lemma {:induction false} LookupOrder(num: Numbering, op: Op, key: Bytes, snapshot: nat)
    requires Faithful(num) && Fits(op) && |key| + 8 < U32 && snapshot <= MAX_SEQUENCE
    ensures HasKey(RowOf(num, op)) && HasKey(LookupRow(num, key, snapshot))
    ensures RowLess(RowOf(num, op), LookupRow(num, key, snapshot)) <==> Less(op.key, key) || (op.key == key && op.seqno > snapshot)
  {
    RowDecodes(num, op);
    LookupDecodes(num, key, snapshot);
    NumberedIsInternal(num, InternalOf(op), KeyIn(LookupRow(num, key, snapshot)));
  }

  ghost predicate SortedOps(ops: seq<Op>) {
    forall i, j :: 0 <= i < j < |ops| ==> OpBefore(ops[i], ops[j])
  }

  lemma {:induction false} OpTransitive(a: Op, b: Op, c: Op)
    requires OpBefore(a, b) && OpBefore(b, c)
    ensures OpBefore(a, c)
  {
    if Less(a.key, b.key) && Less(b.key, c.key) {
      LessTransitive(a.key, b.key, c.key);
    }
  }

  lemma {:induction false} InsertKeepsOrder(ops: seq<Op>, n: nat, op: Op)
    requires SortedOps(ops) && n <= |ops|
    requires forall i :: 0 <= i < n ==> OpBefore(ops[i], op)
    requires n < |ops| ==> OpBefore(op, ops[n])
    ensures SortedOps(ops[..n] + [op] + ops[n..])
  {
    var r := ops[..n] + [op] + ops[n..];
    forall i, j | 0 <= i < j < |r|
      ensures OpBefore(r[i], r[j])
    {
      if i == n && j > n + 1 {
        OpTransitive(op, ops[n], ops[j - 1]);
      }
    }
  }

  predicate Sees(op: Op, key: Bytes, snapshot: nat) {
    op.key == key && op.seqno <= snapshot
  }

  /** The operation a read of the key at the snapshot must return. */
  ghost predicate Newest(ops: seq<Op>, key: Bytes, snapshot: nat, op: Op) {
    && op in ops
    && Sees(op, key, snapshot)
    && forall o :: o in ops && Sees(o, key, snapshot) ==> o.seqno <= op.seqno
  }

  /** The first entry not before the lookup key answers. */
  lemma {:induction false} FirstAnswers(ops: seq<Op>, n: nat, key: Bytes, snapshot: nat)
    requires SortedOps(ops) && n <= |ops|
    requires forall i :: 0 <= i < n ==> !Sees(ops[i], key, snapshot)
    requires n < |ops| ==> !Less(ops[n].key, key) && (ops[n].key == key ==> ops[n].seqno <= snapshot)
    ensures n < |ops| && ops[n].key == key ==> Newest(ops, key, snapshot, ops[n])
    ensures !(n < |ops| && ops[n].key == key) ==> forall o :: o in ops ==> !Sees(o, key, snapshot)
  {
    forall o | o in ops && Sees(o, key, snapshot)
      ensures n < |ops| && ops[n].key == key && o.seqno <= ops[n].seqno
    {
      var j :| 0 <= j < |ops| && ops[j] == o;
      assert j >= n;
      if j > n {
        assert OpBefore(ops[n], ops[j]);
      }
    }
  }

  /** The rows encode the operations. */
  ghost predicate Mirrors(num: Numbering, rows: seq<Row>, ops: seq<Op>) {
    |rows| == |ops| && forall i :: 0 <= i < |ops| ==> Fits(ops[i]) && rows[i] == RowOf(num, ops[i])
  }

  lemma {:induction false} MirrorInsert(num: Numbering, rows: seq<Row>, ops: seq<Op>, n: nat, op: Op)
    requires Mirrors(num, rows, ops) && n <= |ops| && Fits(op)
    ensures Mirrors(num, rows[..n] + [RowOf(num, op)] + rows[n..], ops[..n] + [op] + ops[n..])
    ensures multiset(ops[..n] + [op] + ops[n..]) == multiset(ops) + multiset{op}
  {
    assert ops == ops[..n] + ops[n..];
  }

  datatype Answer = Absent | Deleted | Found(value: Bytes)

  class MemTable {
    /** The user comparator's KeyNum. */
    const num: Numbering
    var rows: seq<Row>
    /** The operations the rows encode. */
    ghost var ops: seq<Op>

    ghost predicate Valid()
      reads this
    {
      && Faithful(num)
      && Mirrors(num, rows, ops)
      && SortedOps(ops)
    }

    constructor (num: Numbering)
      requires Faithful(num)
      ensures Valid() && ops == []
    {
      this.num, rows, ops := num, [], [];
    }

    /** KeyComparator::operator(), below zero, zero or above zero. */
    static method Compare(a: Row, b: Row) returns (c: int)
      requires HasKey(a) && HasKey(b)
      ensures c < 0 <==> RowLess(a, b)
    {
      if a.num < b.num {
        return -1;
      } else if a.num > b.num {
        return 1;
      }
      var x := GetLengthPrefixed(a.entry);
      var y := GetLengthPrefixed(b.entry);
      var k, l := x.value.0, y.value.0;
      if UserOf(k) == UserOf(l) {
        c := if TagOf(k) > TagOf(l) then -1 else if TagOf(k) < TagOf(l) then 1 else 0;
        LessIrreflexive(UserOf(k));
      } else {
        c := if Less(UserOf(k), UserOf(l)) then -1 else 1;
      }
    }

    /** The skip list search: the first row not before the target. */
    method SeekRow(target: Row) returns (n: nat)
      requires Valid() && HasKey(target)
      ensures n <= |rows|
      ensures forall i :: 0 <= i < |rows| ==> HasKey(rows[i])
      ensures forall i :: 0 <= i < n ==> RowLess(rows[i], target)
      ensures n < |rows| ==> !RowLess(rows[n], target)
    {
      forall i | 0 <= i < |rows|
        ensures HasKey(rows[i])
      {
        RowDecodes(num, ops[i]);
      }
      n := 0;
      while n < |rows|
        invariant 0 <= n <= |rows|
        invariant forall i :: 0 <= i < n ==> RowLess(rows[i], target)
      {
        var c := Compare(rows[n], target);
        if c >= 0 { break; }
        n := n + 1;
      }
    }

    method Encode(seqno: nat, put: bool, key: Bytes, value: Bytes) returns (row: Row)
      requires Fits(Op(seqno, put, key, value))
      ensures row == RowOf(num, Op(seqno, put, key, value))
    {
      var ikey := key + Fixed(seqno * 256 + if put then 1 else 0, 8);
      var buf := PutLengthPrefixed([], ikey);
      buf := PutLengthPrefixed(buf, value);
      row := Row(num(key), buf);
    }

    /** Where a new operation goes. */
    lemma {:induction false} InsertPosition(n: nat, op: Op)
      requires Valid() && Fits(op) && n <= |ops| && (forall o :: o in ops && o.key == op.key ==> o.seqno != op.seqno)
      requires HasKey(RowOf(num, op)) && forall i :: 0 <= i < |rows| ==> HasKey(rows[i])
      requires forall i :: 0 <= i < n ==> RowLess(rows[i], RowOf(num, op))
      requires n < |rows| ==> !RowLess(rows[n], RowOf(num, op))
      ensures SortedOps(ops[..n] + [op] + ops[n..])
    {
      forall i | 0 <= i < |ops|
        ensures RowLess(rows[i], RowOf(num, op)) <==> OpBefore(ops[i], op)
      {
        assert ops[i] in ops;
        RowOrder(num, ops[i], op);
      }
      if n < |ops| {
        LessTotal(ops[n].key, op.key);
        assert ops[n] in ops;
      }
      InsertKeepsOrder(ops, n, op);
    }

    method Add(seqno: nat, put: bool, key: Bytes, value: Bytes)
      requires Valid() && Fits(Op(seqno, put, key, value))
      requires forall o :: o in ops && o.key == key ==> o.seqno != seqno
      modifies this
      ensures Valid() && multiset(ops) == multiset(old(ops)) + multiset{Op(seqno, put, key, value)}
    {
      ghost var op := Op(seqno, put, key, value);
      var row := Encode(seqno, put, key, value);
      RowDecodes(num, op);
      var n := SeekRow(row);
      InsertPosition(n, op);
      MirrorInsert(num, rows, ops, n, op);
      rows := rows[..n] + [row] + rows[n..];
      ops := ops[..n] + [op] + ops[n..];
    }

    /** What Get makes of the row it lands on. */
    method ReadRow(row: Row, keynum: nat, key: Bytes, ghost op: Op) returns (r: Answer)
      requires Fits(op) && row == RowOf(num, op) && keynum == num(key)
      ensures r == if op.key != key then Absent else if op.put then Answer.Found(op.value) else Deleted
    {
      RowDecodes(num, op);
      var entry := GetLengthPrefixed(row.entry);
      var (ikey, rest) := entry.value;
      r := Absent;
      if row.num == keynum && UserOf(ikey) == key {
        if TagOf(ikey) % 256 == 1 {
          PrefixedRoundTrip(op.value, []);
          assert rest + [] == rest;
          var v := GetLengthPrefixed(rest);
          r := Answer.Found(v.value.0);
        } else {
          r := Deleted;
        }
      }
    }

    /** Where a lookup lands. */
    lemma {:induction false} LookupPosition(n: nat, key: Bytes, snapshot: nat)
      requires Valid() && |key| + 8 < U32 && snapshot <= MAX_SEQUENCE && n <= |ops|
      requires HasKey(LookupRow(num, key, snapshot)) && forall i :: 0 <= i < |rows| ==> HasKey(rows[i])
      requires forall i :: 0 <= i < n ==> RowLess(rows[i], LookupRow(num, key, snapshot))
      requires n < |rows| ==> !RowLess(rows[n], LookupRow(num, key, snapshot))
      ensures n < |ops| && ops[n].key == key ==> Newest(ops, key, snapshot, ops[n])
      ensures !(n < |ops| && ops[n].key == key) ==> forall o :: o in ops ==> !Sees(o, key, snapshot)
    {
      forall i | 0 <= i < |ops|
        ensures RowLess(rows[i], LookupRow(num, key, snapshot)) <==>
                Less(ops[i].key, key) || (ops[i].key == key && ops[i].seqno > snapshot)
      {
        LookupOrder(num, ops[i], key, snapshot);
      }
      LessIrreflexive(key);
      FirstAnswers(ops, n, key, snapshot);
    }

    method EncodeLookup(key: Bytes, snapshot: nat) returns (target: Row)
      requires |key| + 8 < U32 && snapshot <= MAX_SEQUENCE
      ensures target == LookupRow(num, key, snapshot) && HasKey(target)
    {
      var keynum := num(key);
      var memkey := PutLengthPrefixed([], key + Fixed(snapshot * 256 + 1, 8));
      target := Row(keynum, memkey);
      LookupDecodes(num, key, snapshot);
    }

    method Get(key: Bytes, snapshot: nat) returns (r: Answer)
      requires Valid() && |key| + 8 < U32 && snapshot <= MAX_SEQUENCE
      ensures r == Absent <==> forall o :: o in ops ==> !Sees(o, key, snapshot)
      ensures r == Deleted ==> exists op :: Newest(ops, key, snapshot, op) && !op.put
      ensures r.Found? ==> exists op :: Newest(ops, key, snapshot, op) && op.put && op.value == r.value
    {
      var target := EncodeLookup(key, snapshot);
      var n := SeekRow(target);
      LookupPosition(n, key, snapshot);
      if n < |rows| {
        r := ReadRow(rows[n], target.num, key, ops[n]);
      } else {
        r := Absent;
      }
    }
  }
}
