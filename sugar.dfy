/** The "sugar" (Belousov-Zhabotinsky style) automaton of build/lib/cage/sugar.py: 100
    states on a toroidal Moore map, 0 healthy and 99 sick. */
module Sugar {
  import opened Topology
  import opened Aggregate
  import opened Maps

  const States := 100
  const Healthy := 0
  const Sick := 99

  /** `SugarAutomaton.rule`. `isUnhealthy` is Python's `state != HEALTHY`, used as 0 or 1;
      every division floors (`divmod` and Python 2's integer `/`). */
  function SugarRule(m: PlanarMap, a: Address): (r: int)
    requires m.Valid() && m.ReadableAround(a) && m.neighborhood.Size() > 0
    ensures m.Get(a) == Sick ==> r == Healthy
    ensures m.Get(a) != Healthy && m.Get(a) != Sick ==> r <= Sick
  {
    var state := m.Get(a);
    var s := m.States(a);
    var isUnhealthy := if state != Healthy then 1 else 0;
    if state == Healthy then
      (CountNonZero(s) + isUnhealthy) / 2 + CountWith(s, Sick) / 3
    else if state == Sick then
      Healthy
    else
      var newState := m.InclusiveSum(a) / (CountNonZero(s) + isUnhealthy) + 15;
      if newState >= States then Sick else newState
  }

  /** On a Moore map whose cells all hold valid states: a healthy cell becomes at most 6,
      an ill cell at least 15, the sick cell healthy, and every result is a valid state. */
  lemma SugarBounds(m: PlanarMap, a: Address)
    requires m.Valid() && m.ReadableAround(a) && m.neighborhood == Neighborhood.MooreNeighborhood
    requires m.CellsBelow(States)
    ensures 0 <= SugarRule(m, a) < States
    ensures m.Get(a) == Healthy ==> SugarRule(m, a) <= 6
    ensures m.Get(a) != Healthy && m.Get(a) != Sick ==> 15 <= SugarRule(m, a)
  {
    var state := m.Get(a);
    if state == Healthy {
      HealthyCell(m, a);
    } else if state != Sick {
      IllCell(m, a);
      IllAtLeast(m, a);
    }
  }

  /** The healthy case: half the non-zero neighbors plus a third of the sick ones, at most
      four plus two on eight neighbors. */
  lemma HealthyCell(m: PlanarMap, a: Address)
    requires m.Valid() && m.ReadableAround(a) && m.neighborhood == Neighborhood.MooreNeighborhood
    requires m.Get(a) == Healthy
    ensures var s := m.States(a);
            SugarRule(m, a) == CountNonZero(s) / 2 + CountWith(s, Sick) / 3 && 0 <= SugarRule(m, a) <= 6
  {
    var s := m.States(a);
    assert |s| == 8;
    HalfAndThird(CountNonZero(s), CountWith(s, Sick));
  }

  lemma HalfAndThird(p: nat, q: nat)
    requires p <= 8 && q <= 8
    ensures 0 <= p / 2 + q / 3 <= 6
  {
  }

  /** An ill cell's new value is at least 15: the inclusive sum of valid states is not
      negative. */
  lemma IllAtLeast(m: PlanarMap, a: Address)
    requires m.Valid() && m.ReadableAround(a) && m.neighborhood.Size() > 0 && m.CellsBelow(States)
    ensures m.InclusiveSum(a) / (CountNonZero(m.States(a)) + 1) >= 0
  {
    var s := m.States(a);
    StatesBelow(m, a, States);
    SumIsTotal(s);
    TotalBounds(s, 0, States - 1);
    GetBelow(m, a, States);
    DivNonNegative(m.InclusiveSum(a), CountNonZero(s) + 1);
  }

  lemma DivNonNegative(n: int, d: int)
    requires n >= 0 && d >= 1
    ensures n / d >= 0
  {
  }

  /** The ill case spelled out: the inclusive sum divided by one more than the number of
      non-zero neighbors, plus 15, clamped to SICK. */
  lemma IllCell(m: PlanarMap, a: Address)
    requires m.Valid() && m.ReadableAround(a) && m.neighborhood.Size() > 0
    requires m.Get(a) != Healthy && m.Get(a) != Sick
    ensures var v := m.InclusiveSum(a) / (CountNonZero(m.States(a)) + 1) + 15;
            SugarRule(m, a) == if v >= States then Sick else v
  {
  }
}
