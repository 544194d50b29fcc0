/** The rug automaton (build/lib/cage/rug.py): 26 states on a toroidal Moore map; each cell
    becomes one more than the mean of its neighbors, modulo 26. */
module Rug {
  import opened Topology
  import opened Aggregate
  import opened Maps

  const States := 26

  /** `RugAutomaton.rule`: `(average(address) + 1) % states`. Python's `%` by a positive
      modulus is never negative, like Dafny's. */
  function RugRule(m: PlanarMap, a: Address): (r: int)
    requires m.Valid() && m.ReadableAround(a) && m.neighborhood.Size() > 0
    ensures 0 <= r < States
  {
    (m.Average(a) + 1) % States
  }

  /** Neighbors all holding `v` give `(v + 1) mod 26`; in particular an all-zero
      neighborhood gives 1. */
  lemma RugUniform(m: PlanarMap, a: Address, v: int)
    requires m.Valid() && m.ReadableAround(a) && m.neighborhood == Neighborhood.MooreNeighborhood
    requires forall i :: 0 <= i < |m.States(a)| ==> m.States(a)[i] == v
    ensures RugRule(m, a) == (v + 1) % States
    ensures v == 0 ==> RugRule(m, a) == 1
  {
    SumIsTotal(m.States(a));
    TotalConstant(m.States(a), v);
    assert m.NeighborSum(a) == 8 * v;
  }
}
