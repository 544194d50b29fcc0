/** The agent registry of an automaton (`Automaton.agents`, `add`, `remove` and the
    agent loop of `Automaton.update` in cage/cage.py): a duplicate-free list kept in
    insertion order, whose agents are updated one after another on the same map. */
module Registry {
  import opened Base
  import opened Maps
  import opened Agents

  /** No element occurs twice: each one's first occurrence is where it stands. */
  predicate Distinct<T(==)>(s: seq<T>) {
    forall i :: 0 <= i < |s| ==> IndexOf(s, s[i]) == i
  }

  /** The position of the first occurrence of `x`. */
  function IndexOf<T(==)>(s: seq<T>, x: T): (i: nat)
    requires x in s
    ensures i < |s| && s[i] == x && x !in s[..i]
  {
    if s[0] == x then 0
    else
      var j := IndexOf(s[1..], x);
      assert s[1..][..j] == s[1..j + 1];
      assert s[..j + 1] == [s[0]] + s[1..j + 1];
      j + 1
  }

  /** No occurrence of `x` comes before its first one. */
  lemma {:induction false} IndexOfFirst<T>(s: seq<T>, x: T, k: nat)
    requires k < |s| && s[k] == x
    ensures IndexOf(s, x) <= k
  {
    if s[0] != x {
      IndexOfFirst(s[1..], x, k - 1);
    }
  }

  /** `list.remove`: delete the first occurrence of `x`, keeping the rest in order. */
  function RemoveFirst<T(==)>(s: seq<T>, x: T): (r: seq<T>)
    requires x in s
    ensures |r| == |s| - 1
  {
    if s[0] == x then s[1..] else [s[0]] + RemoveFirst(s[1..], x)
  }

  /** `remove` splices out the first occurrence: what stood before it, then what stood after. */
  lemma {:induction false} RemoveFirstSplices<T>(s: seq<T>, x: T)
    requires x in s
    ensures RemoveFirst(s, x) == s[..IndexOf(s, x)] + s[IndexOf(s, x) + 1..]
  {
    if s[0] != x {
      var t := s[1..];
      RemoveFirstSplices(t, x);
      var j := IndexOf(t, x);
      assert IndexOf(s, x) == j + 1;
      ConsSplice(s, j);
    }
  }

  lemma ConsSplice<T>(s: seq<T>, j: nat)
    requires j + 1 < |s|
    ensures s[..j + 1] + s[j + 2..] == [s[0]] + (s[1..][..j] + s[1..][j + 1..])
  {
    assert s[..j + 1] == [s[0]] + s[1..][..j];
    assert s[j + 2..] == s[1..][j + 1..];
  }

  // ---------------------------------------------------------------------------
  // Properties of the registry

  /** Distinctness is the usual pairwise one: no two positions hold the same element. */
  lemma {:induction false} DistinctIffPairwise<T>(s: seq<T>)
    ensures Distinct(s) <==> forall p, q :: 0 <= p < q < |s| ==> s[p] != s[q]
  {
    if Distinct(s) {
      forall p, q | 0 <= p < q < |s|
        ensures s[p] != s[q]
      {
        assert IndexOf(s, s[q]) == q;
        assert s[p] in s[..q];
      }
    }
    if forall p, q :: 0 <= p < q < |s| ==> s[p] != s[q] {
      forall i | 0 <= i < |s|
        ensures IndexOf(s, s[i]) == i
      {
        IndexOfFirst(s, s[i], i);
      }
    }
  }

  /** `add` keeps the list duplicate-free, and keeps the old agents first, in order. */
  lemma AppendKeepsDistinct<T>(s: seq<T>, x: T)
    requires Distinct(s) && x !in s
    ensures Distinct(s + [x]) && (s + [x])[..|s|] == s && x in s + [x]
  {
    DistinctIffPairwise(s);
    DistinctIffPairwise(s + [x]);
  }

  /** Cutting position `i` out of a list moves every later element up by one. */
  lemma SpliceAt<T>(s: seq<T>, i: nat)
    requires i < |s|
    ensures var r := s[..i] + s[i + 1..];
            |r| == |s| - 1 && forall k :: 0 <= k < |r| ==> r[k] == s[if k < i then k else k + 1]
  {
    var r := s[..i] + s[i + 1..];
    forall k | 0 <= k < |r|
      ensures r[k] == s[if k < i then k else k + 1]
    {
      if k < i {
        assert r[k] == s[..i][k];
      } else {
        assert r[k] == s[i + 1..][k - i];
      }
    }
  }

  /** Cutting one position out of a duplicate-free list leaves it duplicate-free and
      without the element cut. */
  lemma {:induction false} SpliceKeepsDistinct<T>(s: seq<T>, i: nat)
    requires Distinct(s) && i < |s|
    ensures Distinct(s[..i] + s[i + 1..]) && s[i] !in s[..i] + s[i + 1..]
  {
    var r := s[..i] + s[i + 1..];
    SpliceAt(s, i);
    DistinctIffPairwise(s);
    forall p, q | 0 <= p < q < |r|
      ensures r[p] != r[q]
    {
      var p', q' := if p < i then p else p + 1, if q < i then q else q + 1;
      assert r[p] == s[p'] && r[q] == s[q'] && p' < q';
    }
    DistinctIffPairwise(r);
    forall k | 0 <= k < |r|
      ensures r[k] != s[i]
    {
      var k' := if k < i then k else k + 1;
      assert r[k] == s[k'] && k' != i;
    }
  }

  /** Cutting position `i` out of a list takes one copy of `s[i]` out of its multiset and
      leaves every other element in or out as it was. */
  lemma SpliceContents<T>(s: seq<T>, i: nat)
    requires i < |s|
    ensures var r := s[..i] + s[i + 1..];
            multiset(r) == multiset(s) - multiset{s[i]} &&
            forall y :: y != s[i] ==> (y in r <==> y in s)
  {
    var r := s[..i] + s[i + 1..];
    assert s == s[..i] + [s[i]] + s[i + 1..];
    calc {
      multiset(s);
      multiset(s[..i] + [s[i]] + s[i + 1..]);
      multiset(s[..i]) + multiset{s[i]} + multiset(s[i + 1..]);
      multiset(r) + multiset{s[i]};
    }
    forall y | y != s[i]
      ensures y in r <==> y in s
    {
      assert y in r <==> y in multiset(r);
      assert y in s <==> y in multiset(s);
    }
  }

  /** In a duplicate-free list `remove` takes out exactly `x`: the others stay, in their
      order (each one moves up past the gap), and `x` is gone. */
  lemma RemoveKeepsDistinct<T>(s: seq<T>, x: T)
    requires Distinct(s) && x in s
    ensures var r := RemoveFirst(s, x);
            Distinct(r) && x !in r &&
            (forall k :: 0 <= k < |r| ==> r[k] == s[if k < IndexOf(s, x) then k else k + 1]) &&
            (forall y :: y != x ==> (y in r <==> y in s)) &&
            multiset(r) == multiset(s) - multiset{x}
  {
    var i := IndexOf(s, x);
    RemoveFirstSplices(s, x);
    SpliceAt(s, i);
    SpliceKeepsDistinct(s, i);
    SpliceContents(s, i);
  }

  /** Adding an absent agent and then removing it gives back the registry as it was. */
  lemma AddThenRemove<T>(s: seq<T>, x: T)
    requires x !in s
    ensures RemoveFirst(s + [x], x) == s
  {
    RemoveFirstSplices(s + [x], x);
    assert (s + [x])[..|s|] == s;
    assert x !in (s + [x])[..|s|];
  }

  // ---------------------------------------------------------------------------
  // Running the agents

  /** The values of a list of agents, in list order. */
  function AgentViews(s: seq<Agent>): (r: seq<AgentView>)
    reads s
    ensures |r| == |s| && forall i :: 0 <= i < |s| ==> r[i] == s[i].View()
  {
    seq(|s|, i reads s requires 0 <= i < |s| => s[i].View())
  }

  datatype RunResult = RunResult(agents: seq<AgentView>, cells: PlanarMap)

  /** `for agent in self.agents: agent.update()`: each agent sees the map as the agents
      before it left it. None if any update fails. */
  function AgentsRun(vs: seq<AgentView>, m: PlanarMap): (r: Option<RunResult>)
    requires m.Valid()
    ensures r.Some? ==> |r.value.agents| == |vs| && r.value.cells.Valid() &&
                        r.value.cells.topology == m.topology && r.value.cells.neighborhood == m.neighborhood
    ensures r.Some? ==> forall k :: 0 <= k < |vs| ==> r.value.agents[k].kind == vs[k].kind
    decreases |vs|, 1
  {
    if |vs| == 0 then Some(RunResult([], m)) else RunLast(vs, m)
  }

  /** A non-empty run: the run of all agents but the last, then the last one's update. */
  function RunLast(vs: seq<AgentView>, m: PlanarMap): (r: Option<RunResult>)
    requires m.Valid() && |vs| > 0
    ensures r.Some? ==> |r.value.agents| == |vs| && r.value.cells.Valid() &&
                        r.value.cells.topology == m.topology && r.value.cells.neighborhood == m.neighborhood
    ensures r.Some? ==> forall k :: 0 <= k < |vs| ==> r.value.agents[k].kind == vs[k].kind
    decreases |vs|, 0
  {
    match AgentsRun(vs[..|vs| - 1], m)
    case None => None
    case Some(p) => RunThen(p, vs[|vs| - 1])
  }

  /** One more agent's update after a run. */
  function RunThen(p: RunResult, v: AgentView): (r: Option<RunResult>)
    requires p.cells.Valid()
    ensures r.Some? ==> |r.value.agents| == |p.agents| + 1 && r.value.agents[..|p.agents|] == p.agents
    ensures r.Some? ==> r.value.agents[|p.agents|].kind == v.kind && r.value.cells.Valid() &&
                        r.value.cells.topology == p.cells.topology && r.value.cells.neighborhood == p.cells.neighborhood
  {
    match AgentStep(v, p.cells)
    case None => None
    case Some(s) => Some(RunResult(p.agents + [s.agent], s.cells))
  }

  /** A run that succeeds for all agents succeeds for every leading group of them: an
      agent's update never depends on the agents after it. */
  lemma {:induction false} AgentsRunPrefix(vs: seq<AgentView>, m: PlanarMap, k: nat)
    requires m.Valid() && k <= |vs|
    requires AgentsRun(vs, m).Some?
    ensures AgentsRun(vs[..k], m).Some?
    ensures AgentsRun(vs[..k], m).value.agents == AgentsRun(vs, m).value.agents[..k]
    decreases |vs|
  {
    if k < |vs| {
      var init := vs[..|vs| - 1];
      assert init[..k] == vs[..k];
      AgentsRunPrefix(init, m, k);
      assert AgentsRun(vs, m).value.agents[..|vs| - 1] == AgentsRun(init, m).value.agents;
    } else {
      assert vs[..k] == vs;
    }
  }

  /** How a run grows by one agent: the agent at position `i` updates on the map the agents
      before it left behind. */
  lemma RunStep(vs: seq<AgentView>, m: PlanarMap, i: nat, done: seq<AgentView>, c: PlanarMap)
    requires m.Valid() && i < |vs|
    requires AgentsRun(vs, m).Some? && AgentsRun(vs[..i], m) == Some(RunResult(done, c))
    ensures c.Valid() && AgentStep(vs[i], c).Some?
    ensures var s := AgentStep(vs[i], c).value;
            AgentsRun(vs[..i + 1], m) == Some(RunResult(done + [s.agent], s.cells))
  {
    AgentsRunPrefix(vs, m, i + 1);
    assert vs[..i + 1][..i] == vs[..i];
  }

  /** Vants on a toroid never fail: however many there are, each standing on the grid,
      they all complete their updates and all end on the grid, keeping their kind. */
  lemma {:induction false} VantsOnTorusRun(vs: seq<AgentView>, m: PlanarMap)
    requires m.Valid() && m.topology.ToroidTopology?
    requires forall k :: 0 <= k < |vs| ==> vs[k].kind.VantKind? && m.topology.InRange(vs[k].pose.location)
    ensures AgentsRun(vs, m).Some?
    ensures forall k :: 0 <= k < |vs| ==> m.topology.InRange(AgentsRun(vs, m).value.agents[k].pose.location)
    decreases |vs|
  {
    if |vs| > 0 {
      var n := |vs| - 1;
      var init := vs[..n];
      assert forall k :: 0 <= k < n ==> init[k] == vs[k];
      VantsOnTorusRun(init, m);
      var p := AgentsRun(init, m).value;
      RunSnoc(vs, m, p);
      VantRunThen(p, vs[n], m.topology);
    }
  }

  /** A non-empty run is the run of its leading agents followed by the last one. */
  lemma RunSnoc(vs: seq<AgentView>, m: PlanarMap, p: RunResult)
    requires m.Valid() && |vs| > 0 && AgentsRun(vs[..|vs| - 1], m) == Some(p)
    ensures p.cells.Valid() && AgentsRun(vs, m) == RunThen(p, vs[|vs| - 1])
  {
  }

  /** One more vant on a toroid keeps every agent of a run on the grid. */
  lemma VantRunThen(p: RunResult, v: AgentView, t: Topology.PlanarTopology)
    requires p.cells.Valid() && p.cells.topology == t && t.ToroidTopology?
    requires v.kind.VantKind? && t.InRange(v.pose.location)
    requires forall k :: 0 <= k < |p.agents| ==> t.InRange(p.agents[k].pose.location)
    ensures RunThen(p, v).Some?
    ensures forall k :: 0 <= k <= |p.agents| ==> t.InRange(RunThen(p, v).value.agents[k].pose.location)
  {
    Vant.VantStaysOnTorus(v.pose, p.cells);
    var r := RunThen(p, v).value;
    assert r.agents == p.agents + [AgentStep(v, p.cells).value.agent];
  }
}
