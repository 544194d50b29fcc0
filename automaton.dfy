/** The automata of cage/cage.py: a map, a generation counter and a list of agents, updated
    synchronously (SynchronousAutomaton: read the map, write a scratch map, swap the two
    buffers), asynchronously (AsynchronousAutomaton: write the cells in place, in raster
    order) or not at all (AgentAutomaton, where only the agents move). */
module Automaton {
  import opened Base
  import opened Topology
  import opened Maps
  import opened Schedule
  import opened Agents
  import opened Registry
  import Rules
  import Bits
  import Direction
  import LinearTotal

  /** Which of the three update disciplines an automaton follows, with its rule. */
  datatype Discipline = Synchronous(rule: CellRule) | Asynchronous(rule: CellRule) | AgentOnly

  /** The agent loop of `Automaton.update`: each agent of the list updates in turn on the
      cells the agents before it left. */
  method UpdateAgents(agents: seq<Agent>, cells: PlanarCells)
    requires cells.Valid() && Distinct(agents)
    requires forall i :: 0 <= i < |agents| ==> agents[i].Valid()
    requires AgentsRun(AgentViews(agents), cells.View()).Some?
    modifies cells.buffer, agents
    ensures cells.Valid()
    ensures var r := AgentsRun(old(AgentViews(agents)), old(cells.View())).value;
            AgentViews(agents) == r.agents && cells.View() == r.cells
  {
    ghost var vs0, m0 := AgentViews(agents), cells.View();
    ghost var done: seq<AgentView> := [];
    for i := 0 to |agents|
      invariant cells.Valid() && forall k :: 0 <= k < |agents| ==> agents[k].Valid()
      invariant RunUpTo(AgentViews(agents), vs0, m0, i, done, cells.View())
    {
      ghost var views, c := AgentViews(agents), cells.View();
      RunUpToNext(views, vs0, m0, i, done, c);
      ghost var s := AgentStep(views[i], c).value;
      assert agents[i] in agents;
      UpdateAgent(agents, cells, i);
      assert AgentViews(agents) == views[i := s.agent] && cells.View() == s.cells;
      done := done + [s.agent];
    }
    assert vs0[..|agents|] == vs0;
  }

  /** Halfway through the agent loop: the first `i` agents have updated, giving `done` on
      the cells `c`, and the others still hold their values `vs0` from before the loop. */
  ghost predicate RunUpTo(views: seq<AgentView>, vs0: seq<AgentView>, m0: PlanarMap, i: nat,
                          done: seq<AgentView>, c: PlanarMap)
  {
    m0.Valid() && |vs0| == |views| && i <= |views| &&
    AgentsRun(vs0, m0).Some? && AgentsRun(vs0[..i], m0) == Some(RunResult(done, c)) &&
    views == done + vs0[i..]
  }

  /** The loop's step: the next agent's update extends the run by one. */
  lemma RunUpToNext(views: seq<AgentView>, vs0: seq<AgentView>, m0: PlanarMap, i: nat,
                    done: seq<AgentView>, c: PlanarMap)
    requires RunUpTo(views, vs0, m0, i, done, c) && i < |views|
    ensures c.Valid() && AgentStep(views[i], c).Some?
    ensures var s := AgentStep(views[i], c).value;
            RunUpTo(views[i := s.agent], vs0, m0, i + 1, done + [s.agent], s.cells)
  {
    ShiftOne(done, vs0, i, views[i]);
    RunStep(vs0, m0, i, done, c);
    var s := AgentStep(views[i], c).value;
    ShiftOne(done, vs0, i, s.agent);
  }

  /** Replacing the first not-yet-updated value moves the boundary one place on. */
  lemma ShiftOne<T>(done: seq<T>, vs: seq<T>, i: nat, v: T)
    requires |done| == i < |vs|
    ensures (done + vs[i..])[i] == vs[i]
    ensures (done + vs[i..])[i := v] == (done + [v]) + vs[i + 1..]
  {
  }

  /** `agent.update()` for the agent at position `i` of a duplicate-free list: that agent
      takes its next value and the cells theirs, and no other agent changes. */
  method UpdateAgent(agents: seq<Agent>, cells: PlanarCells, i: nat)
    requires cells.Valid() && Distinct(agents) && i < |agents| && agents[i].Valid()
    requires AgentStep(agents[i].View(), cells.View()).Some?
    modifies agents[i], cells.buffer
    ensures cells.Valid() && agents[i].Valid()
    ensures var s := AgentStep(old(agents[i].View()), old(cells.View())).value;
            AgentViews(agents) == old(AgentViews(agents))[i := s.agent] && cells.View() == s.cells
  {
    ghost var before := AgentViews(agents);
    assert forall j :: 0 <= j < |agents| && j != i ==> agents[j] != agents[i];
    agents[i].Update(cells);
    assert forall j :: 0 <= j < |agents| && j != i ==> agents[j].View() == before[j];
  }

  /** The rule, evaluated on the unchanged cells `src`, written into `dst` for every
      address, x outer and y inner. */
  method ComputeInto(f: CellRule, src: PlanarCells, dst: PlanarCells)
    requires src.Valid() && dst.Valid() && dst.topology == src.topology && dst.neighborhood == src.neighborhood
    requires dst.buffer != src.buffer && AllApplicable(f, src.View())
    modifies dst.buffer
    ensures dst.Valid() && dst.View() == SyncStep(f, src.View())
    ensures src.View() == old(src.View())
  {
    ghost var target := SyncStep(f, src.View());
    for x := 0 to src.topology.width
      invariant dst.Valid() && src.View() == old(src.View())
      invariant forall i, j :: 0 <= i < x && 0 <= j < dst.buffer.Length1 ==> dst.buffer[i, j] == target.buffer[i][j]
    {
      ComputeColumn(f, src, dst, x, target);
    }
    SnapshotIs(dst.buffer, target);
  }

  /** The inner loop of the synchronous update: column `x` of `dst` gets the rule's values,
      the other columns and `src` are left alone. */
  method ComputeColumn(f: CellRule, src: PlanarCells, dst: PlanarCells, x: nat, ghost target: PlanarMap)
    requires src.Valid() && dst.Valid() && dst.topology == src.topology && dst.neighborhood == src.neighborhood
    requires dst.buffer != src.buffer && AllApplicable(f, src.View()) && target == SyncStep(f, src.View())
    requires x < src.topology.width
    modifies dst.buffer
    ensures dst.Valid() && src.View() == old(src.View())
    ensures forall j :: 0 <= j < dst.buffer.Length1 ==> dst.buffer[x, j] == target.buffer[x][j]
    ensures forall i, j :: 0 <= i < dst.buffer.Length0 && 0 <= j < dst.buffer.Length1 && i != x ==>
              dst.buffer[i, j] == old(dst.buffer[i, j])
  {
    for y := 0 to src.topology.height
      invariant dst.Valid() && src.View() == old(src.View())
      invariant forall j :: 0 <= j < y ==> dst.buffer[x, j] == target.buffer[x][j]
      invariant forall i, j :: 0 <= i < dst.buffer.Length0 && 0 <= j < dst.buffer.Length1 && i != x ==>
                  dst.buffer[i, j] == old(dst.buffer[i, j])
    {
      var v := f(src.View(), (x, y));
      dst.Set((x, y), v);
    }
  }

  /** The rule written in place into `cells` at every address in raster order, each value
      computed on the cells as the earlier writes left them. */
  method SweepInPlace(f: CellRule, cells: PlanarCells)
    requires cells.Valid()
    requires Sweep(f, cells.View(), RasterOrder(cells.topology.width, cells.topology.height)).Some?
    modifies cells.buffer
    ensures cells.Valid()
    ensures Some(cells.View()) == Sweep(f, old(cells.View()), RasterOrder(cells.topology.width, cells.topology.height))
  {
    ghost var m0 := cells.View();
    var w, h := cells.topology.width, cells.topology.height;
    for x := 0 to w
      invariant cells.Valid() && Sweep(f, m0, RasterOrder(x, h)) == Some(cells.View())
    {
      RasterOrderNext(f, m0, w, h, x, cells.View());
      SweepColumn(f, cells, x);
    }
  }

  /** The inner loop of the asynchronous update: the addresses of column `x` in turn. */
  method SweepColumn(f: CellRule, cells: PlanarCells, x: int)
    requires cells.Valid() && Sweep(f, cells.View(), Column(x, cells.topology.height)).Some?
    modifies cells.buffer
    ensures cells.Valid()
    ensures Some(cells.View()) == Sweep(f, old(cells.View()), Column(x, cells.topology.height))
  {
    ghost var p0 := cells.View();
    ghost var column := Column(x, cells.topology.height);
    for y := 0 to cells.topology.height
      invariant cells.Valid() && Sweep(f, p0, column[..y]) == Some(cells.View())
    {
      SweepCell(f, cells, p0, column, x, y);
    }
    assert column[..cells.topology.height] == column;
  }

  /** The visit to address `(x, y)`, the next one of a sweep over `order` from `p0`. */
  method SweepCell(f: CellRule, cells: PlanarCells, ghost p0: PlanarMap, ghost order: seq<Address>, x: int, y: int)
    requires cells.Valid() && p0.Valid() && Sweep(f, p0, order).Some?
    requires 0 <= y < |order| && order[y] == (x, y) && Sweep(f, p0, order[..y]) == Some(cells.View())
    modifies cells.buffer
    ensures cells.Valid() && Sweep(f, p0, order[..y + 1]) == Some(cells.View())
  {
    SweepStep(f, p0, order, y, cells.View());
    var v := f(cells.View(), (x, y));
    cells.Set((x, y), v);
  }

  /** A two-dimensional automaton. */
  class PlanarAutomaton {
    const discipline: Discipline
    const cells: PlanarCells
    /** The scratch cells of a synchronous automaton; the others have none. */
    const workCells: PlanarCells?
    var generation: nat
    var agents: seq<Agent>

    /** The maps have the same shape and separate buffers; no agent is registered twice,
        and every agent is well formed. */
    predicate Valid()
      reads this, cells, workCells
    {
      cells.Valid() &&
      (discipline.Synchronous? <==> workCells != null) &&
      (workCells != null ==>
        workCells.Valid() && workCells.topology == cells.topology && workCells.neighborhood == cells.neighborhood &&
        workCells.buffer != cells.buffer) &&
      Distinct(agents) &&
      forall i :: 0 <= i < |agents| ==> agents[i].Valid()
    }

    /** `Automaton.__init__`, and for a synchronous automaton `workCells = cells.clone()`. */
    constructor (d: Discipline, m: PlanarCells)
      requires m.Valid()
      ensures Valid() && discipline == d && cells == m && generation == 0 && agents == []
      ensures d.Synchronous? ==> fresh(workCells) && fresh(workCells.buffer)
    {
      discipline, cells := d, m;
      generation, agents := 0, [];
      if d.Synchronous? {
        var c := m.Clone();
        workCells := c;
      } else {
        workCells := null;
      }
    }

    /** `add`: the agent must not be registered yet; it goes last. */
    method Add(agent: Agent)
      requires Valid() && agent.Valid() && agent !in agents
      modifies this
      ensures Valid() && agents == old(agents) + [agent] && generation == old(generation)
    {
      AppendKeepsDistinct(agents, agent);
      agents := agents + [agent];
    }

    /** `remove`: the agent must be registered; it alone leaves, the rest keep their order. */
    method Remove(agent: Agent)
      requires Valid() && agent in agents
      modifies this
      ensures Valid() && agents == RemoveFirst(old(agents), agent) && generation == old(generation)
      ensures agent !in agents && forall b :: b != agent ==> (b in agents <==> b in old(agents))
    {
      RemoveKeepsDistinct(agents, agent);
      agents := RemoveFirst(agents, agent);
    }

    /** `Automaton.update`: one more generation, then every agent in list order. This is
        the whole update of the agent-only automata of cage/ant.py and cage/vant.py. */
    method AdvanceGeneration()
      requires Valid() && AgentsRun(AgentViews(agents), cells.View()).Some?
      modifies this, cells.buffer, agents
      ensures Valid() && agents == old(agents) && generation == old(generation) + 1
      ensures var r := AgentsRun(old(AgentViews(agents)), old(cells.View())).value;
              AgentViews(agents) == r.agents && cells.View() == r.cells
      ensures workCells != null ==> workCells.View() == old(workCells.View())
    {
      ghost var vs, m := AgentViews(agents), cells.View();
      generation := generation + 1;
      assert AgentViews(agents) == vs && cells.View() == m;
      UpdateAgents(agents, cells);
    }

    /** The cell loop of `SynchronousAutomaton.update`: the rule, evaluated on the
        unchanged cells, written into the scratch cells for every address. */
    method Compute()
      requires Valid() && discipline.Synchronous? && AllApplicable(discipline.rule, cells.View())
      modifies workCells.buffer
      ensures Valid() && workCells.View() == SyncStep(discipline.rule, cells.View())
      ensures cells.View() == old(cells.View()) && AgentViews(agents) == old(AgentViews(agents))
    {
      ComputeInto(discipline.rule, cells, workCells);
    }

    /** `swap`: the two buffers change places; nothing is copied. */
    method Swap()
      requires Valid() && discipline.Synchronous?
      modifies cells, workCells
      ensures Valid() && cells.buffer == old(workCells.buffer) && workCells.buffer == old(cells.buffer)
      ensures cells.View() == old(workCells.View()) && workCells.View() == old(cells.View())
      ensures AgentViews(agents) == old(AgentViews(agents))
    {
      cells.buffer, workCells.buffer := workCells.buffer, cells.buffer;
    }

    /** `SynchronousAutomaton.update`: every cell's new state is computed from the old
        cells alone, the buffers are swapped, and then the agents run on the new cells. The
        scratch map is left holding the previous generation. */
    method SynchronousUpdate()
      requires Valid() && discipline.Synchronous? && AllApplicable(discipline.rule, cells.View())
      requires AgentsRun(AgentViews(agents), SyncStep(discipline.rule, cells.View())).Some?
      modifies this, cells, workCells, cells.buffer, workCells.buffer
      modifies agents
      ensures Valid() && agents == old(agents) && generation == old(generation) + 1
      ensures cells.buffer == old(workCells.buffer) && workCells.buffer == old(cells.buffer)
      ensures workCells.View() == old(cells.View())
      ensures var r := AgentsRun(old(AgentViews(agents)), SyncStep(discipline.rule, old(cells.View()))).value;
              AgentViews(agents) == r.agents && cells.View() == r.cells
    {
      ghost var vs0, next := AgentViews(agents), SyncStep(discipline.rule, cells.View());
      Compute();
      Swap();
      AdvanceGeneration();
    }

    /** The cell loop of `AsynchronousAutomaton.update`: every address in raster order
        gets the rule's value computed on the cells as already updated. */
    method SweepCells()
      requires Valid() && discipline.Asynchronous?
      requires Sweep(discipline.rule, cells.View(), RasterOrder(cells.topology.width, cells.topology.height)).Some?
      modifies cells.buffer
      ensures Valid()
      ensures Some(cells.View()) ==
              Sweep(discipline.rule, old(cells.View()), RasterOrder(cells.topology.width, cells.topology.height))
    {
      SweepInPlace(discipline.rule, cells);
    }

    /** `AsynchronousAutomaton.update`: the in-place sweep, then `Automaton.update`. */
    method AsynchronousUpdate()
      requires Valid() && discipline.Asynchronous?
      requires Sweep(discipline.rule, cells.View(), RasterOrder(cells.topology.width, cells.topology.height)).Some?
      requires AgentsRun(AgentViews(agents),
                 Sweep(discipline.rule, cells.View(), RasterOrder(cells.topology.width, cells.topology.height)).value).Some?
      modifies this, cells.buffer, agents
      ensures Valid() && agents == old(agents) && generation == old(generation) + 1
      ensures var swept := Sweep(discipline.rule, old(cells.View()), RasterOrder(cells.topology.width, cells.topology.height));
              var r := AgentsRun(old(AgentViews(agents)), swept.value).value;
              AgentViews(agents) == r.agents && cells.View() == r.cells
    {
      ghost var vs0 := AgentViews(agents);
      SweepCells();
      assert AgentViews(agents) == vs0;
      AdvanceGeneration();
    }
  }

  /** A buffer that agrees with a map cell by cell snapshots to that map's buffer. */
  lemma SnapshotIs(a: array2<int>, m: PlanarMap)
    requires m.Valid() && a.Length0 == m.topology.width && a.Length1 == m.topology.height
    requires forall i, j :: 0 <= i < a.Length0 && 0 <= j < a.Length1 ==> a[i, j] == m.buffer[i][j]
    ensures Snapshot(a) == m.buffer
  {
    assert forall i :: 0 <= i < a.Length0 ==> Snapshot(a)[i] == m.buffer[i];
  }

  /** The rule, evaluated on the unchanged line `src`, written into `dst` at every
      index from 0 up. */
  method LinearComputeInto(rule: LinearRule, src: LinearCells, dst: LinearCells)
    requires src.Valid() && dst.Valid() && dst.topology == src.topology && dst.radius == src.radius
    requires dst.buffer != src.buffer && LinearAllApplicable(rule, src.View())
    modifies dst.buffer
    ensures dst.Valid() && dst.View() == LinearSyncStep(rule, src.View())
    ensures src.View() == old(src.View())
  {
    ghost var target := LinearSyncStep(rule, src.View()).buffer;
    for x := 0 to src.topology.length
      invariant dst.Valid() && src.View() == old(src.View())
      invariant forall i :: 0 <= i < x ==> dst.buffer[i] == target[i]
    {
      LinearComputeCell(rule, src, dst, x, target);
    }
    assert dst.buffer[..] == target;
  }

  /** Cell `x` of the one-dimensional synchronous step, written into `dst`. */
  method LinearComputeCell(rule: LinearRule, src: LinearCells, dst: LinearCells, x: int, ghost target: seq<int>)
    requires src.Valid() && dst.Valid() && dst.topology == src.topology && dst.radius == src.radius
    requires dst.buffer != src.buffer && LinearAllApplicable(rule, src.View())
    requires src.topology.InRange(x) && target == LinearSyncStep(rule, src.View()).buffer
    modifies dst.buffer
    ensures dst.Valid() && src.View() == old(src.View())
    ensures dst.buffer[x] == target[x]
    ensures forall i :: 0 <= i < dst.buffer.Length && i != x ==> dst.buffer[i] == old(dst.buffer[i])
  {
    var v := LinearApply(rule, src.View(), x);
    dst.Set(x, v);
  }

  /** A one-dimensional automaton. Every one in the repository is synchronous and has no
      agents. */
  class LinearAutomaton {
    const rule: LinearRule
    const cells: LinearCells
    const workCells: LinearCells
    var generation: nat

    predicate Valid()
      reads this, cells, workCells
    {
      cells.Valid() && workCells.Valid() && workCells.topology == cells.topology && workCells.radius == cells.radius &&
      workCells.buffer != cells.buffer
    }

    constructor (r: LinearRule, m: LinearCells)
      requires m.Valid()
      ensures Valid() && rule == r && cells == m && generation == 0
      ensures fresh(workCells) && fresh(workCells.buffer)
    {
      rule, cells := r, m;
      generation := 0;
      var c := m.Clone();
      workCells := c;
    }

    /** `LinearCodedAutomaton(size, code)`: a blank bounded line of radius 1 with the
        elementary table of the code. */
    constructor Coded(size: nat, code: int)
      ensures Valid() && rule == LinearCodedRule(Rules.LinearTable(code)) && generation == 0
      ensures cells.View() == BlankLinear(LineTopology(size), 1)
    {
      var table := Rules.PopulateLinearCoded(code);
      rule := LinearCodedRule(table);
      var m := new LinearCells(LineTopology(size), 1);
      cells := m;
      generation := 0;
      var c := m.Clone();
      workCells := c;
    }

    /** `LinearTotalisticAutomaton(size, k, r, code)` of cage/1dtotal.py: a blank bounded
        line of radius `r` with the `2r + 2` low bits of the code as table. */
    constructor Totalistic(size: nat, radius: nat, code: int)
      ensures Valid() && rule == LinearTotalisticRule(Bits.BitsOf(code, 2 * radius + 2)) && generation == 0
      ensures cells.View() == BlankLinear(LineTopology(size), radius)
    {
      var table := LinearTotal.Populate(code, radius);
      rule := LinearTotalisticRule(table);
      var m := new LinearCells(LineTopology(size), radius);
      cells := m;
      generation := 0;
      var c := m.Clone();
      workCells := c;
    }

    /** `running`: the totalistic explorer stops after half the line's length; every other
        automaton runs forever. */
    function Running(): (b: bool)
      reads this
      ensures rule.LinearTotalisticRule? ==> (b <==> 2 * (generation + 1) <= cells.topology.length)
      ensures !rule.LinearTotalisticRule? ==> b
    {
      LinearTotal.RunningIff(generation, cells.topology.length);
      if rule.LinearTotalisticRule? then LinearTotal.Running(generation, cells.topology.length) else true
    }

    /** `SynchronousAutomaton.update` on a line: the rule on the old line, written into
        the scratch line, then the swap and the generation count. */
    method Update()
      requires Valid() && LinearAllApplicable(rule, cells.View())
      modifies this, cells, workCells, cells.buffer, workCells.buffer
      ensures Valid() && generation == old(generation) + 1
      ensures cells.buffer == old(workCells.buffer) && workCells.buffer == old(cells.buffer)
      ensures cells.View() == LinearSyncStep(rule, old(cells.View())) && workCells.View() == old(cells.View())
    {
      LinearComputeInto(rule, cells, workCells);
      cells.buffer, workCells.buffer := workCells.buffer, cells.buffer;
      generation := generation + 1;
    }
  }
}
