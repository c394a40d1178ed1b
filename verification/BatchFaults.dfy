/** What a write batch says, by its bytes alone: which strings are records of it, where
    the reading of any string stops, and with what status. */
module BatchFaults {
  import opened Coding
  import opened WriteBatches

  // ----- the parts of a record

  /** Seven bits from each byte, low bits first. */
  function Sevens(s: Bytes): nat {
    if s == [] then 0 else s[0] % 128 + 128 * Sevens(s[1..])
  }

  /** Every byte but the last has its high bit set. */
  predicate IsVarint(s: Bytes) {
    s != [] && s[|s| - 1] < 128 && forall i :: 0 <= i < |s| - 1 ==> s[i] >= 128
  }

  lemma {:induction false} VarintTail(s: Bytes)
    requires s != [] && s[0] >= 128
    ensures IsVarint(s) <==> IsVarint(s[1..])
  {
    var more := s[1..];
    if IsVarint(more) {
      forall i | 0 <= i < |s| - 1
        ensures s[i] >= 128
      {
        assert i > 0 ==> s[i] == more[i - 1];
      }
    }
    if IsVarint(s) {
      assert forall i :: 0 <= i < |more| - 1 ==> more[i] == s[i + 1];
    }
  }

  /** The integers that the decoder accepts, minimal or not. */
  lemma {:induction false} ParseVarintIff(s: Bytes, limit: nat, v: nat, n: nat)
    ensures ParseVarint(s, limit) == Some((v, n)) <==> n <= |s| && n <= limit && IsVarint(s[..n]) && v == Sevens(s[..n])
    decreases limit
  {
    if limit > 0 && s != [] && n > 0 {
      if s[0] < 128 {
        if n <= |s| && IsVarint(s[..n]) {
          assert s[..n][0] == s[0];
        }
        assert s[..1] == [s[0]];
      } else {
        if n <= |s| {
          VarintTail(s[..n]);
          assert s[..n][1..] == s[1..][..n - 1];
        }
        MoreVarint(s, limit, v, n);
      }
    }
  }

  lemma {:induction false} MoreVarint(s: Bytes, limit: nat, v: nat, n: nat)
    requires limit > 0 && s != [] && n > 0 && s[0] >= 128
    ensures ParseVarint(s, limit) == Some((v, n)) <==>
      n <= |s| && n <= limit && IsVarint(s[1..][..n - 1]) && v == s[0] - 128 + 128 * Sevens(s[1..][..n - 1])
    decreases limit, 0
  {
    if n <= |s| {
      ParseVarintIff(s[1..], limit - 1, Sevens(s[1..][..n - 1]), n - 1);
    }
    var r := ParseVarint(s[1..], limit - 1);
    if r.Some? {
      ParseVarintIff(s[1..], limit - 1, r.value.0, r.value.1);
    }
  }

  /** A length of at most five bytes, taken modulo 2^32, and that many bytes. */
  predicate PrefixAt(s: Bytes, n: int, data: Bytes, rest: Bytes) {
    0 <= n <= |s| && n <= 5 && IsVarint(s[..n]) && |data| == Sevens(s[..n]) % U32 && s[n..] == data + rest
  }

  ghost predicate Leads(s: Bytes, data: Bytes, rest: Bytes) {
    exists n :: PrefixAt(s, n, data, rest)
  }

  lemma {:induction false} ParsePrefixedIff(s: Bytes, data: Bytes, rest: Bytes)
    ensures ParsePrefixed(s) == Some((data, rest)) <==> Leads(s, data, rest)
  {
    var r := ParseVarint(s, 5);
    if r.Some? {
      ParseVarintIff(s, 5, r.value.0, r.value.1);
      if ParsePrefixed(s) == Some((data, rest)) {
        assert s[r.value.1..] == data + rest;
        assert PrefixAt(s, r.value.1, data, rest);
      }
    }
    if n :| PrefixAt(s, n, data, rest) {
      ParseVarintIff(s, 5, Sevens(s[..n]), n);
      assert s[n..][..|data|] == data && s[n..][|data|..] == rest;
      assert s[n..n + |data|] == data && s[n + |data|..] == rest;
    }
  }

  // ----- records

  ghost predicate PutLeads(s: Bytes, key: Bytes, more: Bytes, value: Bytes, rest: Bytes) {
    Leads(s, key, more) && Leads(more, value, rest)
  }

  /** s begins with a record of the item: a 1, the key and the value, or a 0 and the key. */
  ghost predicate Record(s: Bytes, item: Item, rest: Bytes) {
    && s != []
    && match item
       case PutItem(key, value) => s[0] == 1 && exists more :: PutLeads(s[1..], key, more, value, rest)
       case DeleteItem(key) => s[0] == 0 && Leads(s[1..], key, rest)
  }

  lemma {:induction false} PutIff(s: Bytes, key: Bytes, value: Bytes, rest: Bytes)
    ensures (exists more :: PutLeads(s, key, more, value, rest)) <==>
      ParsePrefixed(s).Some? && ParsePrefixed(s).value.0 == key && ParsePrefixed(ParsePrefixed(s).value.1) == Some((value, rest))
  {
    if more :| PutLeads(s, key, more, value, rest) {
      ParsePrefixedIff(s, key, more);
      ParsePrefixedIff(more, value, rest);
    }
    if ParsePrefixed(s).Some? && ParsePrefixed(s).value.0 == key {
      var more := ParsePrefixed(s).value.1;
      ParsePrefixedIff(s, key, more);
      ParsePrefixedIff(more, value, rest);
      assert PutLeads(s, key, more, value, rest) <==> Leads(more, value, rest);
    }
  }

  lemma {:induction false} RecordIff(s: Bytes, item: Item, rest: Bytes)
    requires s != []
    ensures ParseItem(s) == Next(item, rest) <==> Record(s, item, rest)
  {
    match item
    case PutItem(key, value) => PutIff(s[1..], key, value, rest);
    case DeleteItem(key) => ParsePrefixedIff(s[1..], key, rest);
  }

  // ----- the whole string

  /** s is the records of these items, and then the rest. */
  ghost predicate Records(s: Bytes, items: seq<Item>, rest: Bytes)
    decreases |items|
  {
    if items == [] then rest == s
    else exists more :: Record(s, items[0], more) && Records(more, items[1..], rest)
  }

  ghost predicate NoRecord(s: Bytes) {
    forall item, rest :: !Record(s, item, rest)
  }

  /** Why no record can be read at the front of s. */
  ghost predicate Faulty(s: Bytes, status: Status) {
    && s != [] && NoRecord(s)
    && status == if s[0] == 1 then BadPut else if s[0] == 0 then BadDelete else UnknownTag
  }

  ghost predicate Stops(s: Bytes, items: seq<Item>, rest: Bytes, status: Status) {
    Records(s, items, rest) && if status.Ok? then rest == [] else Faulty(rest, status)
  }

  lemma {:induction false} FaultyIff(s: Bytes, status: Status)
    requires s != []
    ensures ParseItem(s) == Wrong(status) <==> Faulty(s, status)
  {
    var r := ParseItem(s);
    if r.Next? {
      RecordIff(s, r.item, r.rest);
    } else {
      forall item, rest
        ensures !Record(s, item, rest)
      {
        RecordIff(s, item, rest);
      }
    }
  }

  lemma {:induction false} RecordFirst(s: Bytes, item: Item, more: Bytes, items: seq<Item>, rest: Bytes)
    requires Record(s, item, more) && Records(more, items, rest)
    ensures Records(s, [item] + items, rest)
  {
    assert ([item] + items)[1..] == items;
  }

  lemma {:induction false} ParseItemsStops(s: Bytes) returns (rest: Bytes)
    ensures Stops(s, ParseItems(s).0, rest, ParseItems(s).1)
    decreases |s|
  {
    rest := s;
    if s != [] {
      match ParseItem(s)
      case Wrong(status) =>
        FaultyIff(s, status);
      case Next(item, more) =>
        RecordIff(s, item, more);
        rest := ParseItemsStops(more);
        RecordFirst(s, item, more, ParseItems(more).0, rest);
    }
  }

  lemma {:induction false} StopsIsParseItems(s: Bytes, items: seq<Item>, rest: Bytes, status: Status)
    requires Stops(s, items, rest, status)
    ensures ParseItems(s) == (items, status)
    decreases |items|
  {
    if items == [] {
      if s != [] {
        FaultyIff(s, status);
      }
    } else {
      var more :| Record(s, items[0], more) && Records(more, items[1..], rest);
      RecordIff(s, items[0], more);
      StopsIsParseItems(more, items[1..], rest, status);
      assert items == [items[0]] + items[1..];
    }
  }

  /** The items are those before the first fault, and the status is why reading stopped. */
  ghost predicate Means(rep: Bytes, items: seq<Item>, status: Status) {
    if |rep| < 12 then items == [] && status == TooSmall
    else if status == Ok || status == WrongCount then
      Records(rep[12..], items, []) && (status == Ok <==> |items| == FixedValue(rep[8..12]))
    else exists rest :: Stops(rep[12..], items, rest, status)
  }

  /** WriteBatch::Iterate on any bytes. */
  lemma {:induction false} IteratedIff(rep: Bytes, items: seq<Item>, status: Status)
    ensures Iterated(rep) == (items, status) <==> Means(rep, items, status)
  {
    if |rep| >= 12 {
      var body := rep[12..];
      var end := ParseItemsStops(body);
      if Means(rep, items, status) {
        if status == Ok || status == WrongCount {
          assert Stops(body, items, [], Ok);
          StopsIsParseItems(body, items, [], Ok);
        } else {
          var rest :| Stops(body, items, rest, status);
          StopsIsParseItems(body, items, rest, status);
        }
      }
    }
  }
}
