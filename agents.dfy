/** Agents (the Agent class of cage/cage.py and its two subclasses, the genome ant of
    cage/ant.py and the vant of cage/vant.py): objects with a location and a direction
    that roam over an automaton's map. */
module Agents {
  import opened Base
  import opened Topology
  import opened Maps
  import opened Direction
  import Ant
  import Vant

  /** Which kind of agent, with what drives it. An ant holds its genome's tables. */
  datatype Kind = AntKind(genes: Ant.Genes) | VantKind

  /** The value of an agent: its kind, pose and, for an ant, its state. */
  datatype AgentView = AgentView(kind: Kind, pose: Pose, state: int)

  datatype StepResult = StepResult(agent: AgentView, cells: PlanarMap)

  /** One `update` of an agent, on values. None where the source raises, including an ant
      whose genome tables are too small for its colors and states. */
  function AgentStep(v: AgentView, m: PlanarMap): (r: Option<StepResult>)
    requires m.Valid()
    ensures r.Some? ==> r.value.agent.kind == v.kind && r.value.cells.Valid() &&
                        r.value.cells.topology == m.topology && r.value.cells.neighborhood == m.neighborhood
    ensures r.Some? && v.kind.VantKind? ==> r.value.agent.state == v.state
  {
    match v.kind
    case AntKind(g) =>
      if !g.Valid() then None
      else (match Ant.AntStep(g, v.pose, v.state, m)
            case Some(a) => Some(StepResult(AgentView(v.kind, a.pose, a.state), a.cells))
            case None => None)
    case VantKind =>
      (match Vant.VantStep(v.pose, m)
       case Some(a) => Some(StepResult(AgentView(v.kind, a.pose, v.state), a.cells))
       case None => None)
  }

  /** The compass each kind turns by: ants use the eight ordinal directions, vants the four
      cardinal ones. */
  function CompassOf(k: Kind): Compass {
    if k.AntKind? then Ordinal else Cardinal
  }

  class Agent {
    const kind: Kind
    const compass: Compass
    var location: Address
    var facing: int
    var state: int

    /** Reads only constants, so nothing an update does can break it. */
    predicate Valid() {
      compass == CompassOf(kind) && (kind.AntKind? ==> kind.genes.Valid())
    }

    function View(): AgentView
      reads this
    {
      AgentView(kind, Pose(location, facing), state)
    }

    /** `Ant(automaton, genome, location = (0, 0), direction = 0, state = 0)`. */
    constructor NewAnt(genes: Ant.Genes, location: Address, facing: int, state: int)
      requires genes.Valid()
      ensures Valid()
      ensures View() == AgentView(AntKind(genes), Pose(location, facing), state)
    {
      kind := AntKind(genes);
      compass := Ordinal;
      this.facing := facing;
      this.location, this.state := location, state;
    }

    /** `Vant(automaton, location = None, direction = 0)`: a missing location is the map's
        zero address `(0, 0)`. A vant has no state; it is kept at 0. */
    constructor NewVant(location: Option<Address>, facing: int)
      ensures Valid()
      ensures View() == AgentView(VantKind, Pose(if location.Some? then location.value else (0, 0), facing), 0)
    {
      kind := VantKind;
      compass := Cardinal;
      this.facing := facing;
      this.location := if location.Some? then location.value else (0, 0);
      state := 0;
    }

    /** `update`: read the map, write one cell, then change state and pose, in the order
        the source does. */
    method Update(cells: PlanarCells)
      requires Valid() && cells.Valid() && AgentStep(View(), cells.View()).Some?
      modifies this, cells.buffer
      ensures Valid() && cells.Valid()
      ensures View() == AgentStep(old(View()), old(cells.View())).value.agent
      ensures cells.View() == AgentStep(old(View()), old(cells.View())).value.cells
    {
      match kind
      case AntKind(g) => UpdateAnt(g, cells);
      case VantKind => UpdateVant(cells);
    }

    /** `advance`: one step along the facing, then `normalize` on the map's topology. */
    method Advance(t: PlanarTopology)
      requires 0 <= facing + compass.Count() && facing < compass.Count()
      requires t.Normalize(Advanced(compass, facing, location)).Some?
      modifies this
      ensures state == old(state) && facing == old(facing)
      ensures location == t.Normalize(Advanced(compass, facing, old(location))).value
    {
      location := Advanced(compass, facing, location);
      location := t.Normalize(location).value;
    }

    /** `Ant.update`. */
    method UpdateAnt(g: Ant.Genes, cells: PlanarCells)
      requires kind == AntKind(g) && Valid() && cells.Valid()
      requires Ant.AntStep(g, View().pose, state, cells.View()).Some?
      modifies this, cells.buffer
      ensures Valid() && cells.Valid()
      ensures var r := Ant.AntStep(g, old(View()).pose, old(state), old(cells.View())).value;
              View() == AgentView(kind, r.pose, r.state) && cells.View() == r.cells
    {
      ghost var m0, p0 := cells.View(), View().pose;
      Ant.AntStepUnfold(g, p0, state, m0);
      ghost var r := Ant.AntStep(g, p0, state, m0).value;
      var cell := cells.Get(location);
      var color := cell % g.colors;
      var newColor := g.color[color][state];
      var newState := g.state[color][state];
      var action := g.action[color][state];
      ghost var act := Ant.Act(action, p0, m0.topology).value;
      cells.Set(location, Ant.MaskedCell(cell, g.colors, newColor));
      assert cells.View() == r.cells;
      state := newState;
      if action == Ant.NoAction {
      } else if action == Ant.TurnLeft {
        facing := Turned(facing, 1, compass.Count());
      } else if action == Ant.TurnRight {
        facing := Turned(facing, -1, compass.Count());
      } else {
        assert action == Ant.Advance;
        Advance(cells.topology);
      }
      assert Pose(location, facing) == act;
    }

    /** `Vant.update`. */
    method UpdateVant(cells: PlanarCells)
      requires kind == VantKind && Valid() && cells.Valid()
      requires Vant.VantStep(View().pose, cells.View()).Some?
      modifies this, cells.buffer
      ensures Valid() && cells.Valid()
      ensures var r := Vant.VantStep(old(View()).pose, old(cells.View())).value;
              View() == AgentView(kind, r.pose, old(state)) && cells.View() == r.cells
    {
      ghost var m0, p0 := cells.View(), View().pose;
      Vant.VantStepUnfold(p0, m0);
      ghost var r := Vant.VantStep(p0, m0).value;
      var cellState := cells.Get(location);
      assert cellState == m0.Get(p0.location);
      if cellState != 0 {
        facing := Turned(facing, -1, compass.Count());
      } else {
        facing := Turned(facing, 1, compass.Count());
      }
      assert facing == r.pose.facing;
      assert cells.View() == m0;
      cells.Set(location, Vant.Flipped(cellState));
      assert cells.View() == r.cells;
      Advance(cells.topology);
      assert Pose(location, facing) == r.pose;
    }
  }
}
