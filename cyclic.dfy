/** The cyclic automaton (cage/cyclic.py): seven states on a toroidal von Neumann map;
    a cell advances to its successor state when a neighbor already holds it. */
module Cyclic {
  import opened Topology
  import opened Aggregate
  import opened Maps

  /** `CyclicAutomaton.states`; the class body asserts it is at most 26,
      which seven is. */
  const States := 7

  /** The successor state: one more, wrapping to 0 on reaching `States`. */
  function Successor(state: int): (r: int)
    ensures 0 <= state < States ==> 0 <= r < States && r == (state + 1) % States
  {
    if state + 1 == States then 0 else state + 1
  }

  /** `CyclicAutomaton.rule`. */
  function CyclicRule(m: PlanarMap, a: Address): (r: int)
    requires m.Valid() && m.ReadableAround(a)
    ensures r == Successor(m.Get(a)) <==> HasWith(m.States(a), Successor(m.Get(a)))
  {
    var state := m.Get(a);
    var next := Successor(state);
    if HasWith(m.States(a), next) then next else state
  }

  /** In one step a cell either stays or advances by exactly one, modulo 7, and it advances
      exactly when some von Neumann neighbor holds the successor. */
  lemma CyclicStep(m: PlanarMap, a: Address)
    requires m.Valid() && m.ReadableAround(a) && 0 <= m.Get(a) < States
    ensures 0 <= CyclicRule(m, a) < States
    ensures CyclicRule(m, a) == m.Get(a) || CyclicRule(m, a) == (m.Get(a) + 1) % States
    ensures CyclicRule(m, a) == (m.Get(a) + 1) % States <==> (m.Get(a) + 1) % States in m.States(a)
  {
    HasWithIff(m.States(a), Successor(m.Get(a)));
  }
}
