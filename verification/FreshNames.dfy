/** Names for workers and runners yet to come. */
module FreshNames {
  /** From this name on, none has been used. */
  lemma {:induction false} Unused(names: set<nat>) returns (n: nat)
    ensures forall k :: k in names ==> k < n
    decreases |names|
  {
    if names == {} {
      n := 0;
    } else {
      var k :| k in names;
      var m := Unused(names - {k});
      assert forall x :: x in names ==> x == k || x in names - {k};
      n := if k < m then m else k + 1;
    }
  }
}
