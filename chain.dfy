/** The chain reaction of cage/chain.py: an asynchronous automaton on a toroid with no
    neighbors, whose cells are CHARGED, FIRING or FIRED. A firing cell fires, may throw
    particles at nearby cells, and is spent; between generations each particle lands and
    sets a charged cell firing. */
module Chain {
  import opened Base
  import opened Topology
  import opened Neighborhood
  import opened Maps
  import opened Schedule
  import Registry

  const States := 3
  const Charged := 0
  const Firing := 1
  const Fired := 2
  /** How many particles one firing throws, when it throws any. */
  const Particles := 2
  /** How far a particle may land from the cell that threw it, on each axis. */
  const Radius := 2

  /** `rule` applied to the value at one address. */
  function Burn(s: int): int {
    if s == Firing then Fired else s
  }

  /** `rule`: the firing cell has fired, and no other state changes. Throwing particles is
      the side effect `ChainAutomaton.Rule` adds. */
  function ChainRule(m: PlanarMap, a: Address): (r: int)
    requires m.Valid() && m.topology.Readable(a)
    ensures r != Firing
    ensures r != m.Get(a) ==> m.Get(a) == Firing && r == Fired
    ensures 0 <= m.Get(a) < States ==> 0 <= r < States
  {
    Burn(m.Get(a))
  }

  /** One outcome of `fire`'s random draws: nothing (the draw above `FIRE_PROBABILITY`), or
      `Particles` offsets, each within `Radius` on both axes and none of them `(0, 0)`. */
  predicate Draw(d: seq<Address>) {
    (|d| == 0 || |d| == Particles) &&
    forall i :: 0 <= i < |d| ==> -Radius <= d[i].0 <= Radius && -Radius <= d[i].1 <= Radius && d[i] != (0, 0)
  }

  /** The particles thrown from `a` with offsets `d`, in the order they are drawn. */
  function Shifted(a: Address, d: seq<Address>): (r: seq<Address>)
    ensures |r| == |d| && forall i :: 0 <= i < |d| ==> r[i] == (a.0 + d[i].0, a.1 + d[i].1)
  {
    seq(|d|, i requires 0 <= i < |d| => (a.0 + d[i].0, a.1 + d[i].1))
  }

  /** `p` is a cell other than `a` within `Radius` of it on both axes. */
  predicate Near(a: Address, p: Address) {
    p != a && -Radius <= p.0 - a.0 <= Radius && -Radius <= p.1 - a.1 <= Radius
  }

  predicate Fires(m: PlanarMap, a: Address)
    requires m.Valid()
  {
    m.topology.InRange(a) && m.buffer[a.0][a.1] == Firing
  }

  /** The particles a pass over `order` throws from the map `m`: each firing cell in turn
      throws the particles its own draw gives. */
  function Sparks(m: PlanarMap, order: seq<Address>, draw: Address -> seq<Address>): seq<Address>
    requires m.Valid()
    decreases |order|
  {
    if |order| == 0 then []
    else
      var a := order[|order| - 1];
      Sparks(m, order[..|order| - 1], draw) + (if Fires(m, a) then Shifted(a, draw(a)) else [])
  }

  /** The map after one asynchronous pass, cell by cell: every firing cell has fired. */
  function Burnt(m: PlanarMap): (r: PlanarMap)
    requires m.Valid()
    ensures r.Valid() && r.topology == m.topology && r.neighborhood == m.neighborhood
    ensures forall x, y :: 0 <= x < m.topology.width && 0 <= y < m.topology.height ==>
              r.buffer[x][y] == Burn(m.buffer[x][y])
  {
    var w, h := m.topology.width, m.topology.height;
    PlanarMap(m.topology, m.neighborhood,
      seq(w, x requires 0 <= x < w => seq(h, y requires 0 <= y < h => Burn(m.buffer[x][y]))))
  }

  /** `between` on values: each particle is normalized and read, and a charged cell there
      starts firing. None where the source raises: the normalized address cannot be read
      (an index past the buffer), or it is a charged cell `set` refuses because the single
      fold left it out of range. */
  function Ignite(m: PlanarMap, ps: seq<Address>): (r: Option<PlanarMap>)
    requires m.Valid() && m.topology.ToroidTopology?
    ensures r.Some? ==> r.value.Valid() && r.value.topology == m.topology && r.value.neighborhood == m.neighborhood
    decreases |ps|
  {
    if |ps| == 0 then Some(m)
    else
      match Ignite(m, ps[..|ps| - 1])
      case None => None
      case Some(p) =>
        var b := p.topology.Normalize(ps[|ps| - 1]).value;
        if !p.topology.Readable(b) then None
        else if p.Get(b) != Charged then Some(p)
        else if p.topology.InRange(b) then Some(p.With(b, Firing))
        else None
  }

  /** Some particle lands on `c`. */
  predicate Hit(t: PlanarTopology, ps: seq<Address>, c: Address) {
    exists i :: 0 <= i < |ps| && t.Normalize(ps[i]) == Some(c)
  }

  /** An address `normalize` folds into range on a toroid of the given shape. */
  predicate InWindow(t: PlanarTopology, p: Address) {
    0 <= p.0 + t.width && p.0 < 2 * t.width && 0 <= p.1 + t.height && p.1 < 2 * t.height
  }

  /** The state of the chain automaton between two calls. */
  ghost predicate Swept(m0: PlanarMap, p: PlanarMap, x: int, y: int) {
    m0.Valid() && p.Valid() && p.topology == m0.topology && p.neighborhood == m0.neighborhood &&
    forall i, j :: 0 <= i < m0.topology.width && 0 <= j < m0.topology.height ==>
      p.buffer[i][j] == if i < x || (i == x && j < y) then Burn(m0.buffer[i][j]) else m0.buffer[i][j]
  }

  /** The automaton of cage/chain.py. */
  class ChainAutomaton {
    const cells: PlanarCells
    /** The particles thrown and not yet landed. */
    var particles: seq<Address>
    var generation: nat

    predicate Valid()
      reads this, cells
    {
      cells.Valid() && cells.topology.ToroidTopology? && cells.neighborhood == NullNeighborhood
    }

    /** `Automaton(size)`: a blank toroid of the given size, all charged, and no particles. */
    constructor (width: nat, height: nat)
      ensures Valid() && particles == [] && generation == 0
      ensures cells.View() == BlankPlanar(ToroidTopology(width, height), NullNeighborhood)
    {
      cells := new PlanarCells(ToroidTopology(width, height), NullNeighborhood);
      particles, generation := [], 0;
    }

    /** `fire`: the particles of one draw join the queue, in order. */
    method Fire(a: Address, d: seq<Address>)
      requires Draw(d)
      modifies this
      ensures particles == old(particles) + Shifted(a, d) && generation == old(generation)
    {
      for i := 0 to |d|
        invariant particles == old(particles) + Shifted(a, d)[..i] && generation == old(generation)
      {
        var x, y := a.0 + d[i].0, a.1 + d[i].1;
        particles := particles + [(x, y)];
        assert Shifted(a, d)[..i + 1] == Shifted(a, d)[..i] + [(x, y)];
      }
      assert Shifted(a, d)[..|d|] == Shifted(a, d);
    }

    /** `rule(address)`, with the draw that `fire` makes if the cell is firing. */
    method Rule(a: Address, d: seq<Address>) returns (r: int)
      requires Valid() && cells.topology.InRange(a) && Draw(d)
      modifies this
      ensures r == ChainRule(cells.View(), a) && generation == old(generation)
      ensures cells.View() == old(cells.View())
      ensures particles == old(particles) + if Fires(cells.View(), a) then Shifted(a, d) else []
    {
      var state := cells.Get(a);
      if state == Firing {
        Fire(a, d);
        r := Fired;
      } else {
        r := state;
      }
    }

    /** `AsynchronousAutomaton.update`: every cell in raster order goes through `rule` and
        is written back in place, then the generation advances. `draw` gives the outcome of
        `fire`'s random draws for each cell. The chain automaton has no agents. */
    method Update(draw: Address -> seq<Address>)
      requires Valid() && forall a :: Draw(draw(a))
      modifies this, cells.buffer
      ensures Valid() && generation == old(generation) + 1
      ensures cells.View() == Burnt(old(cells.View()))
      ensures Some(cells.View()) == Sweep(ChainRule, old(cells.View()), RasterOrder(cells.topology.width, cells.topology.height))
      ensures particles == old(particles) + Sparks(old(cells.View()), RasterOrder(cells.topology.width, cells.topology.height), draw)
    {
      ghost var m0, ps0 := cells.View(), particles;
      var w, h := cells.topology.width, cells.topology.height;
      for x := 0 to w
        invariant Valid() && Swept(m0, cells.View(), x, 0) && generation == old(generation)
        invariant particles == ps0 + Sparks(m0, RasterOrder(x, h), draw)
      {
        UpdateColumn(x, draw, m0, ps0);
      }
      generation := generation + 1;
      SweptAll(m0, cells.View());
      ChainSweep(m0);
    }

    /** The inner loop of the update: column `x`, y from 0 up. */
    method UpdateColumn(x: int, draw: Address -> seq<Address>, ghost m0: PlanarMap, ghost ps0: seq<Address>)
      requires Valid() && m0.topology == cells.topology && 0 <= x < cells.topology.width
      requires forall a :: Draw(draw(a))
      requires Swept(m0, cells.View(), x, 0) && particles == ps0 + Sparks(m0, RasterOrder(x, cells.topology.height), draw)
      modifies this, cells.buffer
      ensures Valid() && generation == old(generation)
      ensures Swept(m0, cells.View(), x + 1, 0)
      ensures particles == ps0 + Sparks(m0, RasterOrder(x + 1, cells.topology.height), draw)
    {
      var h := cells.topology.height;
      ghost var before := RasterOrder(x, h);
      assert before + Column(x, h)[..0] == before;
      for y := 0 to h
        invariant Valid() && Swept(m0, cells.View(), x, y) && generation == old(generation)
        invariant particles == ps0 + Sparks(m0, before + Column(x, h)[..y], draw)
      {
        ghost var p, ps := cells.View(), particles;
        Visit((x, y), draw((x, y)));
        SweptNext(m0, p, cells.View(), x, y);
        SparksStep(m0, p, x, y, before, ps0, ps, particles, draw);
      }
      assert Column(x, h)[..h] == Column(x, h);
      SweptColumn(m0, cells.View(), x);
    }

    /** One visit of the update: `newCell = rule(address)`, then `set(address, newCell)`. */
    method Visit(a: Address, d: seq<Address>)
      requires Valid() && cells.topology.InRange(a) && Draw(d)
      modifies this, cells.buffer
      ensures Valid() && generation == old(generation)
      ensures cells.View() == old(cells.View()).With(a, Burn(old(cells.View()).buffer[a.0][a.1]))
      ensures particles == old(particles) + if Fires(old(cells.View()), a) then Shifted(a, d) else []
    {
      var newCell := Rule(a, d);
      cells.Set(a, newCell);
    }

    /** `between`: every queued particle lands, then the queue is emptied in place. */
    method Between()
      requires Valid() && Ignite(cells.View(), particles).Some?
      modifies this, cells.buffer
      ensures Valid() && particles == [] && generation == old(generation)
      ensures Some(cells.View()) == Ignite(old(cells.View()), old(particles))
    {
      ghost var m0 := cells.View();
      var i := 0;
      while i < |particles|
        invariant Valid() && i <= |particles| && particles == old(particles) && generation == old(generation)
        invariant Ignite(m0, particles[..i]) == Some(cells.View())
      {
        IgnitePrefix(m0, particles, i + 1);
        assert particles[..i + 1][..i] == particles[..i];
        var address := cells.topology.Normalize(particles[i]).value;
        var state := cells.Get(address);
        if state == Charged {
          cells.Set(address, Firing);
        }
        i := i + 1;
      }
      assert particles[..i] == particles;
      particles := [];
    }
  }

  // ---------------------------------------------------------------------------
  // Properties

  /** A pass over one more address throws that address's particles last. */
  lemma SparksSnoc(m: PlanarMap, done: seq<Address>, a: Address, draw: Address -> seq<Address>)
    requires m.Valid()
    ensures Sparks(m, done + [a], draw) == Sparks(m, done, draw) + if Fires(m, a) then Shifted(a, draw(a)) else []
  {
    assert (done + [a])[..|done|] == done;
  }

  lemma ColumnSnoc(before: seq<Address>, x: int, h: nat, y: nat)
    requires y < h
    ensures before + Column(x, h)[..y + 1] == (before + Column(x, h)[..y]) + [(x, y)]
  {
    assert Column(x, h)[..y + 1] == Column(x, h)[..y] + [(x, y)];
  }

  /** A finished column is the start of the next one. */
  lemma SweptColumn(m0: PlanarMap, p: PlanarMap, x: int)
    requires Swept(m0, p, x, m0.topology.height)
    ensures Swept(m0, p, x + 1, 0)
  {
  }

  /** The particles of visiting `(x, y)`: the cell still holds its value from before the
      pass, so it fires as it would have there. */
  lemma SparksStep(m0: PlanarMap, p: PlanarMap, x: int, y: int, before: seq<Address>,
                   ps0: seq<Address>, ps: seq<Address>, ps': seq<Address>, draw: Address -> seq<Address>)
    requires m0.Valid() && p.Valid() && m0.topology.InRange((x, y)) && Fires(p, (x, y)) == Fires(m0, (x, y))
    requires ps == ps0 + Sparks(m0, before + Column(x, m0.topology.height)[..y], draw)
    requires ps' == ps + if Fires(p, (x, y)) then Shifted((x, y), draw((x, y))) else []
    ensures ps' == ps0 + Sparks(m0, before + Column(x, m0.topology.height)[..y + 1], draw)
  {
    var h := m0.topology.height;
    ColumnSnoc(before, x, h, y);
    SparksSnoc(m0, before + Column(x, h)[..y], (x, y), draw);
  }

  /** Visiting `(x, y)` advances the sweep by one cell: the cell still holds its value
      from before the pass, so it is burnt from that value. */
  lemma SweptNext(m0: PlanarMap, p: PlanarMap, q: PlanarMap, x: int, y: int)
    requires Swept(m0, p, x, y) && m0.topology.InRange((x, y))
    requires q == p.With((x, y), Burn(p.buffer[x][y]))
    ensures Swept(m0, q, x, y + 1) && Fires(p, (x, y)) == Fires(m0, (x, y))
  {
    assert p.buffer[x][y] == m0.buffer[x][y];
  }

  /** A prefix of the particles lands without failing when all of them do. */
  lemma {:induction false} IgnitePrefix(m: PlanarMap, ps: seq<Address>, k: nat)
    requires m.Valid() && m.topology.ToroidTopology? && Ignite(m, ps).Some? && k <= |ps|
    ensures Ignite(m, ps[..k]).Some?
    decreases |ps|
  {
    if k < |ps| {
      var init := ps[..|ps| - 1];
      assert init[..k] == ps[..k];
      IgnitePrefix(m, init, k);
    } else {
      assert ps[..k] == ps;
    }
  }

  /** After `between`, a cell is firing exactly when it was charged and some particle landed
      on it; every other cell, firing and fired ones included, is as before. So a particle
      that lands twice, or on a cell already spent, does nothing more. */
  lemma IgniteEffect(m: PlanarMap, ps: seq<Address>, r: PlanarMap)
    requires m.Valid() && m.topology.ToroidTopology? && Ignite(m, ps) == Some(r)
    ensures forall x, y :: 0 <= x < m.topology.width && 0 <= y < m.topology.height ==>
              r.buffer[x][y] == if m.buffer[x][y] == Charged && Hit(m.topology, ps, (x, y)) then Firing else m.buffer[x][y]
  {
    forall x, y | 0 <= x < m.topology.width && 0 <= y < m.topology.height
      ensures r.buffer[x][y] == if m.buffer[x][y] == Charged && Hit(m.topology, ps, (x, y)) then Firing else m.buffer[x][y]
    {
      IgniteAt(m, ps, (x, y));
    }
  }

  /** `IgniteEffect` at one cell, by induction on the queue. */
  lemma {:induction false} IgniteAt(m: PlanarMap, ps: seq<Address>, c: Address)
    requires m.Valid() && m.topology.ToroidTopology? && Ignite(m, ps).Some? && m.topology.InRange(c)
    ensures Ignite(m, ps).value.buffer[c.0][c.1] ==
            if m.buffer[c.0][c.1] == Charged && Hit(m.topology, ps, c) then Firing else m.buffer[c.0][c.1]
    decreases |ps|
  {
    if |ps| > 0 {
      var n := |ps| - 1;
      var init := ps[..n];
      var p := Ignite(m, init).value;
      IgniteAt(m, init, c);
      HitSnoc(m.topology, ps, c);
      var b := m.topology.Normalize(ps[n]).value;
      if c == b {
        assert p.Get(b) == p.buffer[c.0][c.1];
      }
    }
  }

  lemma HitSnoc(t: PlanarTopology, ps: seq<Address>, c: Address)
    requires |ps| > 0
    ensures Hit(t, ps, c) <==> Hit(t, ps[..|ps| - 1], c) || t.Normalize(ps[|ps| - 1]) == Some(c)
  {
    var n := |ps| - 1;
    if Hit(t, ps, c) && t.Normalize(ps[n]) != Some(c) {
      var i :| 0 <= i < |ps| && t.Normalize(ps[i]) == Some(c);
      assert ps[..n][i] == ps[i];
    }
    if Hit(t, ps[..n], c) {
      var i :| 0 <= i < n && t.Normalize(ps[..n][i]) == Some(c);
      assert ps[i] == ps[..n][i];
    }
  }

  /** Only the cells the particles land on matter, not their order nor how often each is
      hit: two queues that name the same addresses (each landing without failing) leave the
      same map. */
  lemma IgniteTargetsOnly(m: PlanarMap, ps: seq<Address>, qs: seq<Address>)
    requires m.Valid() && m.topology.ToroidTopology? && Ignite(m, ps).Some? && Ignite(m, qs).Some?
    requires forall a :: a in ps <==> a in qs
    ensures Ignite(m, ps) == Ignite(m, qs)
  {
    var r, s := Ignite(m, ps).value, Ignite(m, qs).value;
    forall x | 0 <= x < m.topology.width
      ensures r.buffer[x] == s.buffer[x]
    {
      forall y | 0 <= y < m.topology.height
        ensures r.buffer[x][y] == s.buffer[x][y]
      {
        SameCell(m, ps, qs, (x, y));
      }
    }
    assert r.buffer == s.buffer;
  }

  lemma SameCell(m: PlanarMap, ps: seq<Address>, qs: seq<Address>, c: Address)
    requires m.Valid() && m.topology.ToroidTopology? && Ignite(m, ps).Some? && Ignite(m, qs).Some?
    requires forall a :: a in ps <==> a in qs
    requires m.topology.InRange(c)
    ensures Ignite(m, ps).value.buffer[c.0][c.1] == Ignite(m, qs).value.buffer[c.0][c.1]
  {
    IgniteAt(m, ps, c);
    IgniteAt(m, qs, c);
    SameHits(m.topology, ps, qs, c);
  }

  lemma SameHits(t: PlanarTopology, ps: seq<Address>, qs: seq<Address>, c: Address)
    requires forall a :: a in ps <==> a in qs
    ensures Hit(t, ps, c) <==> Hit(t, qs, c)
  {
    if Hit(t, ps, c) {
      var i :| 0 <= i < |ps| && t.Normalize(ps[i]) == Some(c);
      assert ps[i] in qs;
      var j :| 0 <= j < |qs| && qs[j] == ps[i];
    }
    if Hit(t, qs, c) {
      var j :| 0 <= j < |qs| && t.Normalize(qs[j]) == Some(c);
      assert qs[j] in ps;
      var i :| 0 <= i < |ps| && ps[i] == qs[j];
    }
  }

  /** Particles that `normalize` folds into range always land: `between` cannot fail. */
  lemma {:induction false} IgniteDefined(m: PlanarMap, ps: seq<Address>)
    requires m.Valid() && m.topology.ToroidTopology?
    requires forall i :: 0 <= i < |ps| ==> InWindow(m.topology, ps[i])
    ensures Ignite(m, ps).Some?
    decreases |ps|
  {
    if |ps| > 0 {
      var init := ps[..|ps| - 1];
      assert forall i :: 0 <= i < |init| ==> init[i] == ps[i];
      IgniteDefined(m, init);
    }
  }

  /** Each draw throws none or `Particles` particles, each one near the firing cell. */
  lemma DrawNear(a: Address, d: seq<Address>)
    requires Draw(d)
    ensures |Shifted(a, d)| == 0 || |Shifted(a, d)| == Particles
    ensures forall i :: 0 <= i < |d| ==> Near(a, Shifted(a, d)[i])
  {
  }

  /** `p` lies near a cell of `order` that is firing in `m`. */
  predicate FromFiring(m: PlanarMap, order: seq<Address>, p: Address)
    requires m.Valid()
  {
    exists a :: a in order && Fires(m, a) && Near(a, p)
  }

  /** Every particle an update throws comes from a cell that was firing, and lands near
      it. */
  lemma {:induction false} SparksNear(m: PlanarMap, order: seq<Address>, draw: Address -> seq<Address>)
    requires m.Valid() && forall a :: Draw(draw(a))
    ensures forall k :: 0 <= k < |Sparks(m, order, draw)| ==> FromFiring(m, order, Sparks(m, order, draw)[k])
    decreases |order|
  {
    if |order| > 0 {
      var n := |order| - 1;
      var init, a := order[..n], order[n];
      SparksNear(m, init, draw);
      var s0 := Sparks(m, init, draw);
      var s := Sparks(m, order, draw);
      assert s == s0 + (if Fires(m, a) then Shifted(a, draw(a)) else []);
      forall k | 0 <= k < |s|
        ensures FromFiring(m, order, s[k])
      {
        if k < |s0| {
          assert FromFiring(m, init, s0[k]);
          var c :| c in init && Fires(m, c) && Near(c, s0[k]);
          assert s[k] == s0[k];
          assert c in order;
        } else {
          DrawNear(a, draw(a));
          assert s[k] == Shifted(a, draw(a))[k - |s0|];
          assert a in order;
        }
      }
    }
  }

  /** On a toroid of at least `Radius` by `Radius`, particles thrown from in-range cells
      fold into range; so `between` after an update cannot fail when the queue was empty
      or already foldable. */
  lemma UpdateThenBetween(m: PlanarMap, ps: seq<Address>, draw: Address -> seq<Address>)
    requires m.Valid() && m.topology.ToroidTopology? && m.topology.width >= Radius && m.topology.height >= Radius
    requires forall a :: Draw(draw(a))
    requires forall i :: 0 <= i < |ps| ==> InWindow(m.topology, ps[i])
    ensures Ignite(Burnt(m), ps + Sparks(m, RasterOrder(m.topology.width, m.topology.height), draw)).Some?
  {
    var order := RasterOrder(m.topology.width, m.topology.height);
    var s := Sparks(m, order, draw);
    SparksNear(m, order, draw);
    AllInWindow(m, order, ps, s);
    IgniteDefined(Burnt(m), ps + s);
  }

  lemma AllInWindow(m: PlanarMap, order: seq<Address>, ps: seq<Address>, s: seq<Address>)
    requires m.Valid() && m.topology.width >= Radius && m.topology.height >= Radius
    requires forall i :: 0 <= i < |ps| ==> InWindow(m.topology, ps[i])
    requires forall k :: 0 <= k < |s| ==> FromFiring(m, order, s[k])
    ensures forall i :: 0 <= i < |ps + s| ==> InWindow(m.topology, (ps + s)[i])
  {
    forall i | 0 <= i < |ps + s|
      ensures InWindow(m.topology, (ps + s)[i])
    {
      if i >= |ps| {
        NearInWindow(m, order, s[i - |ps|]);
      }
    }
  }

  lemma NearInWindow(m: PlanarMap, order: seq<Address>, p: Address)
    requires m.Valid() && m.topology.width >= Radius && m.topology.height >= Radius
    requires FromFiring(m, order, p)
    ensures InWindow(m.topology, p)
  {
    var c :| c in order && Fires(m, c) && Near(c, p);
  }

  /** The chain rule on a sweep over an order that visits no cell twice: each visited cell
      is read before anything writes it, so it ends burnt, and the others are untouched. */
  lemma {:induction false} SweepBurns(m: PlanarMap, order: seq<Address>)
    requires m.Valid() && Registry.Distinct(order)
    requires forall k :: 0 <= k < |order| ==> m.topology.InRange(order[k])
    ensures Sweep(ChainRule, m, order).Some?
    ensures forall c :: m.topology.InRange(c) ==>
              Sweep(ChainRule, m, order).value.buffer[c.0][c.1] ==
              if c in order then Burn(m.buffer[c.0][c.1]) else m.buffer[c.0][c.1]
    decreases |order|
  {
    if |order| > 0 {
      var n := |order| - 1;
      var init, a := order[..n], order[n];
      DistinctInit(order);
      SweepBurns(m, init);
      var p := Sweep(ChainRule, m, init).value;
      assert order == init + [a];
      SweepBurnsNext(m, init, a, p);
    }
  }

  /** The step of `SweepBurns`: the next address, unvisited so far, is burnt from its
      original value. */
  lemma SweepBurnsNext(m: PlanarMap, init: seq<Address>, a: Address, p: PlanarMap)
    requires m.Valid() && m.topology.InRange(a) && a !in init
    requires Sweep(ChainRule, m, init) == Some(p) && p.Valid() && p.topology == m.topology
    requires forall c :: m.topology.InRange(c) ==>
               p.buffer[c.0][c.1] == if c in init then Burn(m.buffer[c.0][c.1]) else m.buffer[c.0][c.1]
    ensures Sweep(ChainRule, m, init + [a]).Some?
    ensures forall c :: m.topology.InRange(c) ==>
              Sweep(ChainRule, m, init + [a]).value.buffer[c.0][c.1] ==
              if c in init + [a] then Burn(m.buffer[c.0][c.1]) else m.buffer[c.0][c.1]
  {
    assert (init + [a])[..|init|] == init;
    var r := SweepLast(m, init + [a], p);
    forall c | m.topology.InRange(c)
      ensures r.buffer[c.0][c.1] == if c in init + [a] then Burn(m.buffer[c.0][c.1]) else m.buffer[c.0][c.1]
    {
      BurnsCell(m, init, a, p, r, c);
    }
  }

  /** Unfolding the sweep at its last address, where the chain rule reads the cell as the
      earlier visits left it. */
  lemma SweepLast(m: PlanarMap, order: seq<Address>, p: PlanarMap) returns (r: PlanarMap)
    requires m.Valid() && |order| > 0 && m.topology.InRange(order[|order| - 1])
    requires Sweep(ChainRule, m, order[..|order| - 1]) == Some(p)
    ensures r == p.With(order[|order| - 1], Burn(p.buffer[order[|order| - 1].0][order[|order| - 1].1]))
    ensures Sweep(ChainRule, m, order) == Some(r)
  {
    var a := order[|order| - 1];
    assert p.Get(a) == p.buffer[a.0][a.1];
    r := p.With(a, ChainRule(p, a));
  }

  /** One cell of `SweepBurnsNext`. */
  lemma BurnsCell(m: PlanarMap, init: seq<Address>, a: Address, p: PlanarMap, r: PlanarMap, c: Address)
    requires m.Valid() && p.Valid() && p.topology == m.topology && m.topology.InRange(a) && m.topology.InRange(c)
    requires a !in init
    requires p.buffer[a.0][a.1] == m.buffer[a.0][a.1]
    requires p.buffer[c.0][c.1] == if c in init then Burn(m.buffer[c.0][c.1]) else m.buffer[c.0][c.1]
    requires r == p.With(a, Burn(p.buffer[a.0][a.1]))
    ensures r.buffer[c.0][c.1] == if c in init + [a] then Burn(m.buffer[c.0][c.1]) else m.buffer[c.0][c.1]
  {
    assert c in init + [a] <==> c in init || c == a;
  }

  /** Dropping the last element of a duplicate-free sequence leaves one, without it. */
  lemma DistinctInit<T>(s: seq<T>)
    requires Registry.Distinct(s) && |s| > 0
    ensures Registry.Distinct(s[..|s| - 1]) && s[|s| - 1] !in s[..|s| - 1]
  {
    var n := |s| - 1;
    Registry.DistinctIffPairwise(s);
    Registry.DistinctIffPairwise(s[..n]);
  }

  /** No address comes twice in the raster order. */
  lemma {:induction false} RasterOrderDistinct(w: nat, h: nat)
    ensures Registry.Distinct(RasterOrder(w, h))
  {
    if w > 0 {
      RasterOrderDistinct(w - 1, h);
      RasterOrderContents(w - 1, h);
      var o1, o2 := RasterOrder(w - 1, h), Column(w - 1, h);
      var o := o1 + o2;
      assert RasterOrder(w, h) == o;
      Registry.DistinctIffPairwise(o1);
      forall p, q | 0 <= p < q < |o|
        ensures o[p] != o[q]
      {
        if q >= |o1| && p < |o1| {
          assert o[p] in o1;
        }
      }
      Registry.DistinctIffPairwise(o);
    } else {
      Registry.DistinctIffPairwise(RasterOrder(w, h));
    }
  }

  /** One asynchronous pass of the engine with the chain rule turns every firing cell into a
      fired one and changes nothing else: it is the pointwise `Burnt`. */
  lemma ChainSweep(m: PlanarMap)
    requires m.Valid()
    ensures Sweep(ChainRule, m, RasterOrder(m.topology.width, m.topology.height)) == Some(Burnt(m))
  {
    var w, h := m.topology.width, m.topology.height;
    var order := RasterOrder(w, h);
    RasterOrderDistinct(w, h);
    RasterOrderContents(w, h);
    SweepBurns(m, order);
    var r, b := Sweep(ChainRule, m, order).value, Burnt(m);
    forall x | 0 <= x < w
      ensures r.buffer[x] == b.buffer[x]
    {
      forall y | 0 <= y < h
        ensures r.buffer[x][y] == b.buffer[x][y]
      {
        assert m.topology.InRange((x, y)) && (x, y) in order;
      }
    }
    assert r.buffer == b.buffer;
  }

  /** After a pass no cell is still firing. */
  lemma BurntHasNoFiring(m: PlanarMap)
    requires m.Valid()
    ensures forall a :: !Fires(Burnt(m), a)
  {
  }

  /** A finished pass is the whole map burnt. */
  lemma SweptAll(m0: PlanarMap, p: PlanarMap)
    requires Swept(m0, p, m0.topology.width, 0)
    ensures p == Burnt(m0)
  {
    var b := Burnt(m0);
    forall x | 0 <= x < m0.topology.width
      ensures p.buffer[x] == b.buffer[x]
    {
    }
  }
}
