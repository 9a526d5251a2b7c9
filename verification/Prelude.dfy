/** Definitions shared by every module. */
module Prelude {
  datatype Option<+T> = None | Some(value: T)

  /** Every finite set of naturals has a strict upper bound. */
  lemma {:induction false} FreshNat(used: set<nat>) returns (n: nat)
    ensures forall m | m in used :: m < n
    decreases used
  {
    n := 0;
    if used != {} {
      var x :| x in used;
      var k := FreshNat(used - {x});
      n := if k > x then k else x + 1;
      forall m | m in used ensures m < n {
        assert m == x || m in used - {x};
      }
    }
  }
}
