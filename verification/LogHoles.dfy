/** Extents are reserved in order and filled later, so a crash can leave unwritten
    fragments in the middle of a log.  Which records such a hole hides. */
module LogHoles {
  import opened LogFormat

  /** Where the fragments of (the rest of) a record have their headers. */
  function Places(p: Place, left: nat): set<Place>
    decreases left, Rank(p)
  {
    var n := Take(p, left);
    {HeaderAt(p)} + if n == left then {} else Places(After(p, left), left - n)
  }

  lemma {:induction false} PlacesWithin(p: Place, left: nat, h: Place)
    requires h in Places(p, left)
    ensures Off(p) <= Off(h) < Off(EndPlace(p, left))
    decreases left, Rank(p)
  {
    var n := Take(p, left);
    if n < left && h != HeaderAt(p) {
      PlacesWithin(After(p, left), left - n, h);
    }
  }

  /** An unreadable fragment takes the rest of its block with it. */
  predicate Blocks(x: Place, h: Place) {
    x.block == h.block && x.at <= h.at
  }

  lemma {:induction false} BlocksFromBefore(x: Place, h: Place)
    requires Blocks(x, h)
    ensures Off(x) <= Off(h)
  {
  }

  ghost predicate Clear(holes: set<Place>, h: Place) {
    forall x :: x in holes ==> !Blocks(x, h)
  }

  ghost predicate AllClear(holes: set<Place>, places: set<Place>) {
    forall h :: h in places ==> Clear(holes, h)
  }

  /** No unwritten fragment is before, or is, one of the record's fragments in the
      same block. */
  ghost predicate RecordClear(holes: set<Place>, p: Place, left: nat) {
    AllClear(holes, Places(p, left))
  }

  lemma {:induction false} RecordClearStep(holes: set<Place>, p: Place, left: nat)
    ensures var n := Take(p, left);
      RecordClear(holes, p, left) <==>
      Clear(holes, HeaderAt(p)) && (n == left || RecordClear(holes, After(p, left), left - n))
  {
    var n := Take(p, left);
    assert HeaderAt(p) in Places(p, left);
    if n < left {
      assert Places(p, left) == {HeaderAt(p)} + Places(After(p, left), left - n);
    }
  }

  /** Holes behind all of these places cannot hide one. */
  lemma {:induction false} LaterHolesDoNotHide(holes: set<Place>, more: set<Place>, places: set<Place>)
    requires forall x, h :: x in more && h in places ==> Off(h) < Off(x)
    ensures AllClear(holes + more, places) <==> AllClear(holes, places)
  {
    forall h | h in places
      ensures Clear(holes + more, h) <==> Clear(holes, h)
    {
      assert forall x :: x in more ==> !Blocks(x, h);
    }
  }

  /** Writing fragments hides nothing. */
  lemma {:induction false} FewerHoles(holes: set<Place>, fewer: set<Place>, places: set<Place>)
    requires fewer <= holes && AllClear(holes, places)
    ensures AllClear(fewer, places)
  {
    forall h | h in places
      ensures Clear(fewer, h)
    {
      assert Clear(holes, h);
    }
  }
}
