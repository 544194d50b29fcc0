/** Langton's virtual ant (cage/vant.py): it turns by the cell under it, flips that cell
    between 0 and 1, and moves one cardinal step on a toroid. */
module Vant {
  import opened Base
  import opened Topology
  import opened Maps
  import opened Direction

  /** `Automaton.states`. */
  const States := 2

  /** `not state`, stored as 0 or 1. */
  function Flipped(state: int): (r: int)
    ensures r == 0 || r == 1
    ensures r == 1 <==> state == 0
  {
    if state == 0 then 1 else 0
  }

  datatype VantResult = VantResult(pose: Pose, cells: PlanarMap)

  /** `Vant.update`: None where the source fails an assertion or an index. A successful
      update keeps the map's shape. */
  function VantStep(pose: Pose, m: PlanarMap): (r: Option<VantResult>)
    requires m.Valid()
    ensures r.Some? ==> r.value.cells.Valid() && r.value.cells.topology == m.topology &&
                        r.value.cells.neighborhood == m.neighborhood
  {
    var loc := pose.location;
    if !m.topology.Readable(loc) || !m.topology.InRange(loc) then None
    else
      var state := m.Get(loc);
      var facing := if state != 0 then Turned(pose.facing, -1, Cardinal.Count())
                    else Turned(pose.facing, 1, Cardinal.Count());
      match m.topology.Normalize(Advanced(Cardinal, facing, loc))
      case Some(l) => Some(VantResult(Pose(l, facing), m.With(loc, Flipped(state))))
      case None => None
  }

  // ---------------------------------------------------------------------------
  // Properties

  /** A successful update, spelled out. */
  lemma VantStepUnfold(pose: Pose, m: PlanarMap)
    requires m.Valid() && VantStep(pose, m).Some?
    ensures m.topology.InRange(pose.location)
    ensures var state := m.Get(pose.location);
            var facing := if state != 0 then Turned(pose.facing, -1, Cardinal.Count())
                          else Turned(pose.facing, 1, Cardinal.Count());
            var next := m.topology.Normalize(Advanced(Cardinal, facing, pose.location));
            next.Some? &&
            VantStep(pose, m).value == VantResult(Pose(next.value, facing), m.With(pose.location, Flipped(state)))
  {
  }

  /** What a successful update did: it turned right (facing - 1) on a non-zero cell and
      left (facing + 1) otherwise, flipped the cell it stood on and no other, and moved
      one cardinal step along its new facing. */
  lemma VantStepEffect(pose: Pose, m: PlanarMap, r: VantResult)
    requires m.Valid() && VantStep(pose, m) == Some(r)
    ensures m.topology.InRange(pose.location)
    ensures var state := m.Get(pose.location);
            r.pose.facing == (if state != 0 then (pose.facing - 1) % 4 else (pose.facing + 1) % 4) &&
            0 <= r.pose.facing < 4
    ensures r.cells.Valid() && r.cells.topology == m.topology
    ensures r.cells.Get(pose.location) == (if m.Get(pose.location) == 0 then 1 else 0)
    ensures forall b :: m.topology.InRange(b) && b != pose.location ==> r.cells.Get(b) == m.Get(b)
    ensures Some(r.pose.location) == m.topology.Normalize(Advanced(Cardinal, r.pose.facing, pose.location))
  {
    VantStepUnfold(pose, m);
    var loc, state := pose.location, m.Get(pose.location);
    var facing := if state != 0 then Turned(pose.facing, -1, Cardinal.Count())
                  else Turned(pose.facing, 1, Cardinal.Count());
    var next := m.topology.Normalize(Advanced(Cardinal, facing, loc));
    assert r.pose == Pose(next.value, facing) && r.cells == m.With(loc, Flipped(state));
    VantTurns(pose.facing, state, facing);
    WithChangesOne(m, loc, Flipped(state));
  }

  /** The turn a vant takes, as arithmetic modulo 4. */
  lemma VantTurns(facing: int, state: int, turned: int)
    requires turned == if state != 0 then Turned(facing, -1, Cardinal.Count()) else Turned(facing, 1, Cardinal.Count())
    ensures turned == (if state != 0 then (facing - 1) % 4 else (facing + 1) % 4) && 0 <= turned < 4
  {
  }

  /** Writing one cell changes that cell and no other. */
  lemma WithChangesOne(m: PlanarMap, a: Address, v: int)
    requires m.Valid() && m.topology.InRange(a)
    ensures m.With(a, v).Get(a) == v
    ensures forall b :: m.topology.InRange(b) && b != a ==> m.With(a, v).Get(b) == m.Get(b)
  {
    WithThenGet(m, a, v, a);
    forall b | m.topology.InRange(b) && b != a
      ensures m.With(a, v).Get(b) == m.Get(b)
    {
      WithThenGet(m, a, v, b);
    }
  }

  /** On a toroid a vant standing on the grid always completes its update and lands on
      the grid again, whatever its facing. */
  lemma VantStaysOnTorus(pose: Pose, m: PlanarMap)
    requires m.Valid() && m.topology.ToroidTopology? && m.topology.InRange(pose.location)
    ensures VantStep(pose, m).Some?
    ensures m.topology.InRange(VantStep(pose, m).value.pose.location)
  {
  }

  /** A vant keeps a two-state map two-state. */
  lemma VantKeepsTwoStates(pose: Pose, m: PlanarMap)
    requires m.Valid() && m.CellsBelow(States) && VantStep(pose, m).Some?
    ensures VantStep(pose, m).value.cells.CellsBelow(States)
  {
    var c := VantStep(pose, m).value.cells;
    assert forall x, y :: 0 <= x < |c.buffer| && 0 <= y < |c.buffer[x]| ==> 0 <= c.buffer[x][y] < States;
  }
}
