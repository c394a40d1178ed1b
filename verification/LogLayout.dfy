/** Where the writer puts a record, in plain numbers: blocks, headers and type bytes. */
module LogLayout {
  import opened Coding
  import opened LogFormat
  import opened LogCrashes

  /** Where fragment k of a record begins to look for room. */
  function LooksFrom(p: Place, fs: seq<Frag>, k: nat): Place
    requires k < |fs|
  {
    if k == 0 then p else fs[k - 1].next
  }

  /** A header never crosses a block: fewer than seven bytes are left empty. */
  ghost predicate WellPlaced(p: Place, fs: seq<Frag>, k: nat)
    requires k < |fs|
  {
    var from := LooksFrom(p, fs, k);
    && fs[k].at == (if 32768 - from.at < 7 then Place(from.block + 1, 0) else from)
    && Off(fs[k].next) == Off(fs[k].at) + 7 + |fs[k].payload|
  }

  /** Every fragment but the last fills its block. */
  ghost predicate FillsBlock(fs: seq<Frag>, k: nat)
    requires k < |fs|
  {
    fs[k].at.at + 7 + |fs[k].payload| == 32768
  }

  /** Type bytes: one for a whole record, two for its first fragment, three for the middle
      and four for the last. */
  function KindAt(n: nat, k: nat, begin: bool): nat {
    if begin && k == 0 then (if n == 1 then 1 else 2)
    else if k == n - 1 then 4 else 3
  }

  lemma {:induction false} RecordLayout(p: Place, data: Bytes, begin: bool, k: nat)
    requires k < |RecordFrags(p, data, begin)|
    ensures var fs := RecordFrags(p, data, begin);
            && WellPlaced(p, fs, k)
            && (k < |fs| - 1 ==> FillsBlock(fs, k))
            && fs[k].kind == KindAt(|fs|, k, begin)
    decreases |data|, Rank(p)
  {
    var n, fs := Take(p, |data|), RecordFrags(p, data, begin);
    var first := FragOf(p, data, begin);
    if n < |data| {
      var next := After(p, |data|);
      var rest := RecordFrags(next, data[n..], false);
      assert fs == [first] + rest;
      if k > 0 {
        RecordLayout(next, data[n..], false, k - 1);
        assert LooksFrom(p, fs, k) == LooksFrom(next, rest, k - 1);
      }
    }
  }

  function Payloads(fs: seq<Frag>): Bytes {
    if fs == [] then [] else fs[0].payload + Payloads(fs[1..])
  }

  lemma {:induction false} PayloadsAreData(p: Place, data: Bytes, begin: bool)
    ensures Payloads(RecordFrags(p, data, begin)) == data
    decreases |data|, Rank(p)
  {
    var n, first := Take(p, |data|), FragOf(p, data, begin);
    if n == |data| {
      assert RecordFrags(p, data, begin) == [first] && [first][1..] == [];
      assert data[..n] + [] == data;
    } else {
      var rest := RecordFrags(After(p, |data|), data[n..], false);
      assert ([first] + rest)[1..] == rest;
      PayloadsAreData(After(p, |data|), data[n..], false);
      assert data[..n] + data[n..] == data;
    }
  }
}
