/** Packard's averaging automaton (build/lib/cage/packard.py): 256 states on a toroidal
    Moore map; each cell becomes the floor of the mean of its 3 x 3 block. */
module Packard {
  import opened Topology
  import opened Aggregate
  import opened Maps

  const States := 256

  /** `PackardAutomaton.rule`: `divmod(inclusiveSum(address), 9)[0]`. */
  function PackardRule(m: PlanarMap, a: Address): int
    requires m.Valid() && m.ReadableAround(a) && m.neighborhood.Size() > 0
  {
    m.InclusiveSum(a) / 9
  }

  /** On a Moore map the rule is the inclusive average. */
  lemma PackardIsInclusiveAverage(m: PlanarMap, a: Address)
    requires m.Valid() && m.ReadableAround(a) && m.neighborhood == Neighborhood.MooreNeighborhood
    ensures PackardRule(m, a) == m.InclusiveAverage(a)
  {
  }

  /** Valid states stay valid. */
  lemma PackardBounds(m: PlanarMap, a: Address)
    requires m.Valid() && m.ReadableAround(a) && m.neighborhood == Neighborhood.MooreNeighborhood
    requires m.CellsBelow(States)
    ensures 0 <= PackardRule(m, a) < States
  {
    StatesBelow(m, a, States);
    SumIsTotal(m.States(a));
    TotalBounds(m.States(a), 0, States - 1);
  }

  /** A block holding one value everywhere keeps it. */
  lemma PackardUniform(m: PlanarMap, a: Address, v: int)
    requires m.Valid() && m.ReadableAround(a) && m.neighborhood == Neighborhood.MooreNeighborhood
    requires m.Get(a) == v && forall i :: 0 <= i < |m.States(a)| ==> m.States(a)[i] == v
    ensures PackardRule(m, a) == v
  {
    SumIsTotal(m.States(a));
    TotalConstant(m.States(a), v);
  }
}
