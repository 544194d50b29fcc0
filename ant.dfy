/** The genome ant of cage/ant.py: an agent whose three lookup tables (genes), indexed by
    perceived color and internal state, give its new color, new state and action. */
module Ant {
  import opened Base
  import opened Bits
  import opened Topology
  import opened Maps
  import opened Direction

  /** `Genome.ACTIONS` and the four action codes. */
  const ActionCount := 4
  const NoAction := 0
  const TurnLeft := 1
  const TurnRight := 2
  const Advance := 3

  /** A table with one row per color and one entry per state. */
  predicate Shaped(t: seq<seq<int>>, colors: nat, states: nat) {
    |t| == colors && forall c :: 0 <= c < colors ==> |t[c]| == states
  }

  /** Every entry of a shaped table lies in `[0, values)`. */
  predicate EntriesBelow(t: seq<seq<int>>, colors: nat, states: nat, values: int)
    requires Shaped(t, colors, states)
  {
    forall c, s :: 0 <= c < colors && 0 <= s < states ==> 0 <= t[c][s] < values
  }

  /** A single lookup table (`Gene`). */
  class Gene {
    const colors: nat
    const states: nat
    var data: seq<seq<int>>

    predicate Valid()
      reads this
    {
      Shaped(data, colors, states)
    }

    /** A fresh gene is all zeros. */
    constructor (colors: nat, states: nat)
      ensures this.colors == colors && this.states == states && Valid()
      ensures EntriesBelow(data, colors, states, 1)
    {
      this.colors, this.states := colors, states;
      var rows: seq<seq<int>> := [];
      for c := 0 to colors
        invariant |rows| == c
        invariant forall i :: 0 <= i < c ==> rows[i] == seq(states, _ => 0)
      {
        rows := rows + [seq(states, _ => 0)];
      }
      data := rows;
    }

    /** `get`: both indexes are asserted in range. */
    function Get(color: int, state: int): int
      reads this
      requires Valid() && 0 <= color < colors && 0 <= state < states
    {
      data[color][state]
    }

    /** `set`: both indexes are asserted in range; exactly one entry changes. */
    method Set(color: int, state: int, value: int)
      requires Valid() && 0 <= color < colors && 0 <= state < states
      modifies this
      ensures Valid()
      ensures data == old(data)[color := old(data)[color][state := value]]
    {
      data := data[color := data[color][state := value]];
    }

    /** `randomize`: every entry becomes some value in `[0, values)`, chosen freely.
        `random.randrange(0)` raises, so a non-empty gene needs `values > 0`. */
    method Randomize(values: int)
      requires Valid() && (colors == 0 || states == 0 || values > 0)
      modifies this
      ensures Valid() && EntriesBelow(data, colors, states, values)
    {
      for c := 0 to colors
        invariant Valid()
        invariant forall i, s :: 0 <= i < c && 0 <= s < states ==> 0 <= data[i][s] < values
      {
        for s := 0 to states
          invariant Valid()
          invariant forall i, t :: 0 <= i < c && 0 <= t < states ==> 0 <= data[i][t] < values
          invariant forall t :: 0 <= t < s ==> 0 <= data[c][t] < values
        {
          var v :| 0 <= v < values;
          Set(c, s, v);
        }
      }
    }
  }

  /** The value of a genome: its counts and its three tables. */
  datatype Genes = Genes(colors: nat, states: nat,
                         color: seq<seq<int>>, state: seq<seq<int>>, action: seq<seq<int>>)
  {
    predicate Valid() {
      PowerCheck(colors) && PowerCheck(states) &&
      Shaped(color, colors, states) && Shaped(state, colors, states) && Shaped(action, colors, states)
    }

    /** What `Genome.randomize` guarantees. */
    predicate Randomized()
      requires Valid()
    {
      EntriesBelow(color, colors, states, colors) &&
      EntriesBelow(state, colors, states, states) &&
      EntriesBelow(action, colors, states, ActionCount)
    }
  }

  class Genome {
    const colors: nat
    const states: nat
    const color: Gene
    const state: Gene
    const action: Gene

    predicate Valid()
      reads this, color, state, action
    {
      color != state && state != action && color != action &&
      color.colors == colors && state.colors == colors && action.colors == colors &&
      color.states == states && state.states == states && action.states == states &&
      color.Valid() && state.Valid() && action.Valid() &&
      PowerCheck(colors) && PowerCheck(states)
    }

    function Tables(): (g: Genes)
      reads this, color, state, action
      requires Valid()
      ensures g.Valid() && g.colors == colors && g.states == states
    {
      Genes(colors, states, color.data, state.data, action.data)
    }

    /** Both counts must pass `n & (n - 1) == 0`; the three genes start all zeros. */
    constructor (colors: nat, states: nat)
      requires PowerCheck(colors) && PowerCheck(states)
      ensures Valid() && this.colors == colors && this.states == states
      ensures fresh(color) && fresh(state) && fresh(action)
      ensures EntriesBelow(color.data, colors, states, 1)
      ensures EntriesBelow(state.data, colors, states, 1)
      ensures EntriesBelow(action.data, colors, states, 1)
    {
      this.colors, this.states := colors, states;
      color := new Gene(colors, states);
      state := new Gene(colors, states);
      action := new Gene(colors, states);
    }

    method Randomize()
      requires Valid()
      modifies color, state, action
      ensures Valid() && Tables().Randomized()
    {
      color.Randomize(colors);
      state.Randomize(states);
      action.Randomize(ActionCount);
    }
  }

  // ---------------------------------------------------------------------------
  // One update, on values

  /** `(cell & ~mask) | newColor` with `mask == colors - 1`: the bits above the mask are
      kept and the low bits replaced. */
  function MaskedCell(cell: int, colors: nat, newColor: int): int
    requires colors > 0
  {
    cell - cell % colors + newColor
  }

  /** The effect of an action code on the pose: only the four known codes succeed, only
      an advance moves, and an advance keeps the facing. */
  function Act(action: int, pose: Pose, t: PlanarTopology): (r: Option<Pose>)
    ensures r.Some? ==> 0 <= action < ActionCount
    ensures r.Some? && action != Advance ==> r.value.location == pose.location
    ensures r.Some? && action == Advance ==> r.value.facing == pose.facing
  {
    if action == NoAction then Some(pose)
    else if action == TurnLeft then Some(Pose(pose.location, Turned(pose.facing, 1, Ordinal.Count())))
    else if action == TurnRight then Some(Pose(pose.location, Turned(pose.facing, -1, Ordinal.Count())))
    else if action == Advance then
      if 0 <= pose.facing + Ordinal.Count() && pose.facing < Ordinal.Count() then
        match t.Normalize(Advanced(Ordinal, pose.facing, pose.location))
        case Some(l) => Some(Pose(l, pose.facing))
        case None => None
      else None
    else None
  }

  datatype AntResult = AntResult(pose: Pose, state: int, cells: PlanarMap)

  /** `Ant.update`: None where the source fails an assertion or an index. A successful
      update keeps the map's shape and leaves the ant in a valid state. */
  function AntStep(g: Genes, pose: Pose, state: int, m: PlanarMap): (r: Option<AntResult>)
    requires g.Valid() && m.Valid()
    ensures r.Some? ==> r.value.cells.Valid() && r.value.cells.topology == m.topology &&
                        r.value.cells.neighborhood == m.neighborhood && 0 <= r.value.state < g.states
  {
    var loc := pose.location;
    if !m.topology.Readable(loc) || g.colors == 0 || !(0 <= state < g.states) then None
    else
      var cell := m.Get(loc);
      var color := cell % g.colors;
      var newColor := g.color[color][state];
      var newState := g.state[color][state];
      var action := g.action[color][state];
      if !(0 <= newColor < g.colors) || !m.topology.InRange(loc) || !(0 <= newState < g.states) then None
      else
        match Act(action, pose, m.topology)
        case Some(p) => Some(AntResult(p, newState, m.With(loc, MaskedCell(cell, g.colors, newColor))))
        case None => None
  }

  // ---------------------------------------------------------------------------
  // Properties

  /** A successful update, spelled out: the guards held and the result is the action
      applied to the pose, the state gene's value and the rewritten cell. */
  lemma AntStepUnfold(g: Genes, pose: Pose, state: int, m: PlanarMap)
    requires g.Valid() && m.Valid() && AntStep(g, pose, state, m).Some?
    ensures m.topology.InRange(pose.location) && g.colors > 0 && 0 <= state < g.states
    ensures var cell := m.Get(pose.location);
            var color := cell % g.colors;
            var act := Act(g.action[color][state], pose, m.topology);
            act.Some? &&
            AntStep(g, pose, state, m).value ==
              AntResult(act.value, g.state[color][state],
                        m.With(pose.location, MaskedCell(cell, g.colors, g.color[color][state])))
  {
  }

  /** With a power-of-two color count the mask reads the remainder: `cell & (colors - 1)`
      equals `cell % colors`. Stated for non-negative cells: an ant's map starts all 0,
      and `MaskedCell` of a non-negative cell with a color in `[0, colors)` is again
      non-negative, so no cell an ant reads is negative. */
  lemma ColorIsMasked(cell: nat, colors: nat)
    requires PowerCheck(colors) && colors > 0
    ensures And(cell, colors - 1) == cell % colors
  {
    PowerCheckIff(colors);
    var k: nat :| Pow2(k) == colors;
    AndMaskIsMod(cell, k);
  }

  /** The rewrite keeps every bit above the mask and puts `newColor` in the low bits. */
  lemma MaskedCellBits(cell: int, colors: nat, newColor: int)
    requires colors > 0 && 0 <= newColor < colors
    ensures MaskedCell(cell, colors, newColor) / colors == cell / colors
    ensures MaskedCell(cell, colors, newColor) % colors == newColor
  {
    var q := cell / colors;
    assert cell - cell % colors == colors * q;
    ModUnique(MaskedCell(cell, colors, newColor), colors, q, newColor);
  }

  /** What a successful update did: the cell under the ant (at the location before it
      moved) got the color gene's value in its low bits and kept its high bits, no other
      cell changed, the state became the state gene's value, and the action was applied. */
  lemma AntStepEffect(g: Genes, pose: Pose, state: int, m: PlanarMap)
    requires g.Valid() && m.Valid() && AntStep(g, pose, state, m).Some?
    ensures m.topology.InRange(pose.location) && g.colors > 0 && 0 <= state < g.states
    ensures var r := AntStep(g, pose, state, m).value;
            var cell := m.Get(pose.location);
            var color := cell % g.colors;
            r.cells.Valid() && r.cells.topology == m.topology && r.cells.neighborhood == m.neighborhood &&
            r.cells.Get(pose.location) / g.colors == cell / g.colors &&
            r.cells.Get(pose.location) % g.colors == g.color[color][state] &&
            (forall b :: m.topology.InRange(b) && b != pose.location ==> r.cells.Get(b) == m.Get(b)) &&
            r.state == g.state[color][state] && 0 <= r.state < g.states &&
            Some(r.pose) == Act(g.action[color][state], pose, m.topology)
  {
    var r := AntStep(g, pose, state, m).value;
    var cell := m.Get(pose.location);
    var color := cell % g.colors;
    var v := MaskedCell(cell, g.colors, g.color[color][state]);
    MaskedCellBits(cell, g.colors, g.color[color][state]);
    WithThenGet(m, pose.location, v, pose.location);
    forall b | m.topology.InRange(b) && b != pose.location
      ensures r.cells.Get(b) == m.Get(b)
    {
      WithThenGet(m, pose.location, v, b);
    }
  }

  /** Each action's effect: none keeps the pose, left and right step the facing modulo 8,
      advance moves one ordinal offset and folds the location back onto a toroid, and an
      unknown code fails. */
  lemma ActEffect(action: int, pose: Pose, t: PlanarTopology)
    requires t.ToroidTopology? && t.InRange(pose.location) && 0 <= pose.facing < Ordinal.Count()
    ensures action == NoAction ==> Act(action, pose, t) == Some(pose)
    ensures action == TurnLeft ==> Act(action, pose, t) == Some(Pose(pose.location, (pose.facing + 1) % 8))
    ensures action == TurnRight ==> Act(action, pose, t) == Some(Pose(pose.location, (pose.facing - 1) % 8))
    ensures action == Advance ==>
              var o := Ordinal.Offsets()[pose.facing];
              var l := (pose.location.0 + o.0, pose.location.1 + o.1);
              Act(action, pose, t) == Some(Pose(t.Normalize(l).value, pose.facing)) &&
              t.InRange(t.Normalize(l).value)
    ensures !(0 <= action < ActionCount) ==> Act(action, pose, t) == None
  {
  }

  /** A well-placed ant: on a non-empty toroid, standing on a cell, in a valid state,
      facing one of the eight directions, and driven by a randomized genome. */
  predicate WellPlaced(g: Genes, pose: Pose, state: int, m: PlanarMap)
    requires g.Valid()
  {
    m.Valid() && m.topology.ToroidTopology? && m.topology.InRange(pose.location) &&
    g.colors > 0 && g.Randomized() && 0 <= state < g.states &&
    0 <= pose.facing < Ordinal.Count()
  }

  /** A well-placed ant always completes its update and stays well placed, so it can run
      for ever. */
  lemma AntStepKeepsWellPlaced(g: Genes, pose: Pose, state: int, m: PlanarMap)
    requires g.Valid() && WellPlaced(g, pose, state, m)
    ensures AntStep(g, pose, state, m).Some?
    ensures var r := AntStep(g, pose, state, m).value;
            WellPlaced(g, r.pose, r.state, r.cells)
  {
    var cell := m.Get(pose.location);
    var color := cell % g.colors;
    var action := g.action[color][state];
    ActEffect(action, pose, m.topology);
  }
}
