/**
 * Fresh identifiers. The source draws random longs until one is not yet a
 * key of the table; the model keeps only the outcome, a key not in the
 * table, which exists because every finite set of numbers has an upper
 * bound.
 */
module Fresh {

  /** A number above every member of `s`, so never a member of it. */
  ghost function Bound(s: set<int>): (r: int)
    ensures forall x :: x in s ==> x < r
  {
    if s == {} then 0
    else
      assert exists y :: y in s by {
        if forall y :: y !in s { assert false; }
      }
      var y :| y in s;
      var b := Bound(s - {y});
      assert forall x :: x in s ==> x == y || x in s - {y};
      if y + 1 > b then y + 1 else b
  }
}
