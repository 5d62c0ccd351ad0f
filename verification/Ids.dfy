/** Fresh identifiers. */
module Ids {
  /** Some number is not in use yet. */
  lemma FreshExists(used: set<nat>)
    ensures exists n: nat :: n !in used
  {
    var bound := Above(used);
    assert bound !in used;
  }

  lemma Above(xs: set<nat>) returns (bound: nat)
    ensures forall x :: x in xs ==> x < bound
  {
    if xs == {} {
      bound := 0;
    } else {
      var x :| x in xs;
      var rest := Above(xs - {x});
      bound := if rest > x then rest else x + 1;
      assert forall y :: y in xs ==> y == x || y in xs - {x};
    }
  }
}
