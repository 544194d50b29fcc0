/** Brian's Brain (cage/brain.py): three states on a toroidal Moore map. */
module Brain {
  import opened Topology
  import opened Aggregate
  import opened Maps

  const States := 3
  const Quiescent := 0
  const Firing := 1
  const Refractory := 2

  /** `BrainAutomaton.rule`. A state outside the three is an assertion failure, excluded by
      the precondition. */
  function BrainRule(m: PlanarMap, a: Address): (r: int)
    requires m.Valid() && m.ReadableAround(a) && 0 <= m.Get(a) < States
    ensures 0 <= r < States
    ensures m.Get(a) == Quiescent ==>
              (r == Firing <==> CountWith(m.States(a), Firing) == 2) && (r == Firing || r == Quiescent)
    ensures m.Get(a) == Firing ==> r == Refractory
    ensures m.Get(a) == Refractory ==> r == Quiescent
  {
    var state := m.Get(a);
    if state == Quiescent then
      if CountWith(m.States(a), Firing) == 2 then Firing else Quiescent
    else if state == Firing then Refractory
    else Quiescent
  }

  /** A cell fires for one generation only and is quiescent again two generations later,
      whatever its neighbors do: given three successive maps in which cell `a` evolves by
      the rule, firing at the first is resting at the third. */
  lemma FiringThenRests(m0: PlanarMap, m1: PlanarMap, m2: PlanarMap, a: Address)
    requires m0.Valid() && m0.ReadableAround(a) && m0.Get(a) == Firing
    requires m1.Valid() && m1.ReadableAround(a) && m1.Get(a) == BrainRule(m0, a)
    requires m2.Valid() && m2.ReadableAround(a) && m2.Get(a) == BrainRule(m1, a)
    ensures m1.Get(a) == Refractory && m2.Get(a) == Quiescent
  {
  }

  /** A quiescent cell starts firing exactly when two of its eight Moore neighbors fire;
      no other number of firing neighbors does it. */
  lemma QuiescentFiresOnTwo(m: PlanarMap, a: Address)
    requires m.Valid() && m.ReadableAround(a) && m.Get(a) == Quiescent
    requires m.neighborhood == Neighborhood.MooreNeighborhood
    ensures CountWith(m.States(a), Firing) <= 8
    ensures BrainRule(m, a) == if CountWith(m.States(a), Firing) == 2 then Firing else Quiescent
  {
  }
}
