/** The largest element of a finite set of integers. */
module Maxima {

  ghost function MaxOf(ps: set<int>): (m: int)
    requires exists p :: p in ps
    ensures m in ps && forall p | p in ps :: p <= m
    decreases |ps|
  {
    var p: int :| p in ps;
    if forall q | q in ps :: q == p then p
    else
      var rest := ps - {p};
      assert exists q :: q in rest by {
        var q :| q in ps && q != p;
        assert q in rest;
      }
      var m := MaxOf(rest);
      assert forall q | q in ps :: q == p || q in rest;
      if m > p then m else p
  }

  lemma MaxIs(ps: set<int>, m: int)
    requires m in ps && forall p | p in ps :: p <= m
    ensures MaxOf(ps) == m
  {
  }
}
