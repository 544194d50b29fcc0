/** What one update of a cellular automaton computes, on values: which rule each
    automaton of the repository applies, the synchronous step (every cell from the
    unchanged map), and the asynchronous sweep (every cell from the map as updated so
    far, in the order cage/cage.py visits them). */
module Schedule {
  import opened Base
  import opened Bits
  import opened Topology
  import opened Neighborhood
  import opened Aggregate
  import opened Maps
  import Rules
  import Brain
  import Cyclic
  import Sugar
  import Packard
  import Rug
  import LinearTotal

  /** The two-dimensional rules: the two generic rule classes and the five automata whose
      `rule` method is written out. */
  datatype PlanarRule =
    | ReductionRule(f: (int, int) -> int)
    | TotalisticRule(table: seq<seq<int>>)
    | BrainAutomaton
    | CyclicAutomaton
    | SugarAutomaton
    | PackardAutomaton
    | RugAutomaton

  /** The rule can be evaluated at `a` without the source raising: every neighbor can be
      read, the unseeded reduces have something to reduce, table indexes are in range and
      Brian's Brain sees one of its three states. */
  predicate Applicable(rule: PlanarRule, m: PlanarMap, a: Address)
    requires m.Valid()
  {
    m.ReadableAround(a) &&
    match rule
    case ReductionRule(_) => m.neighborhood.Size() > 0
    case TotalisticRule(table) =>
      m.neighborhood.Size() > 0 && -|table| <= m.Get(a) < |table| &&
      -|PyIndex(table, m.Get(a))| <= m.NeighborSum(a) < |PyIndex(table, m.Get(a))|
    case BrainAutomaton => 0 <= m.Get(a) < Brain.States
    case CyclicAutomaton => true
    case SugarAutomaton => m.neighborhood.Size() > 0
    case PackardAutomaton => m.neighborhood.Size() > 0
    case RugAutomaton => m.neighborhood.Size() > 0
  }

  /** `rule(address)`. */
  function Apply(rule: PlanarRule, m: PlanarMap, a: Address): int
    requires m.Valid() && Applicable(rule, m, a)
  {
    match rule
    case ReductionRule(f) => Rules.ReductionRule(f, m, a)
    case TotalisticRule(table) => Rules.TotalisticRule(table, m, a)
    case BrainAutomaton => Brain.BrainRule(m, a)
    case CyclicAutomaton => Cyclic.CyclicRule(m, a)
    case SugarAutomaton => Sugar.SugarRule(m, a)
    case PackardAutomaton => Packard.PackardRule(m, a)
    case RugAutomaton => Rug.RugRule(m, a)
  }

  /** A rule as the automata hold it: a function of the map and an address, defined
      where evaluating it does not raise. */
  type CellRule = (PlanarMap, Address) --> int

  /** `self.rule`, bound to the automaton whose rule it is. */
  function RuleFn(rule: PlanarRule): (f: CellRule)
    ensures forall m: PlanarMap, a: Address :: m.Valid() && Applicable(rule, m, a) ==> f.requires(m, a)
    ensures forall m: PlanarMap, a: Address :: m.Valid() && Applicable(rule, m, a) ==> f(m, a) == Apply(rule, m, a)
  {
    (m: PlanarMap, a: Address) requires m.Valid() && Applicable(rule, m, a) => Apply(rule, m, a)
  }

  ghost predicate AllApplicable(f: CellRule, m: PlanarMap) {
    forall a: Address :: m.topology.InRange(a) ==> f.requires(m, a)
  }

  /** The synchronous step: every cell's new state is the rule evaluated on the old map. */
  function SyncStep(f: CellRule, m: PlanarMap): (r: PlanarMap)
    requires m.Valid() && AllApplicable(f, m)
    ensures r.Valid() && r.topology == m.topology && r.neighborhood == m.neighborhood
    ensures forall x, y :: 0 <= x < m.topology.width && 0 <= y < m.topology.height ==>
              r.buffer[x][y] == f(m, (x, y))
  {
    PlanarMap(m.topology, m.neighborhood, SyncColumns(f, m, m.topology.width))
  }

  /** The first `n` columns of the synchronous step. */
  function SyncColumns(f: CellRule, m: PlanarMap, n: nat): (cols: seq<seq<int>>)
    requires m.Valid() && AllApplicable(f, m) && n <= m.topology.width
    ensures |cols| == n && forall x :: 0 <= x < n ==> |cols[x]| == m.topology.height
    ensures forall x, y :: 0 <= x < n && 0 <= y < m.topology.height ==> cols[x][y] == f(m, (x, y))
  {
    if n == 0 then [] else SyncColumns(f, m, n - 1) + [SyncColumn(f, m, n - 1, m.topology.height)]
  }

  /** The first `n` cells of column `x` of the synchronous step. */
  function SyncColumn(f: CellRule, m: PlanarMap, x: nat, n: nat): (col: seq<int>)
    requires m.Valid() && AllApplicable(f, m) && x < m.topology.width && n <= m.topology.height
    ensures |col| == n && forall y :: 0 <= y < n ==> col[y] == f(m, (x, y))
  {
    if n == 0 then [] else SyncColumn(f, m, x, n - 1) + [f(m, (x, n - 1))]
  }

  /** The addresses of column `x`, in the order the inner loop of cage/cage.py visits
      them: y from 0 up. */
  function Column(x: int, h: nat): (r: seq<Address>)
    ensures |r| == h && forall y :: 0 <= y < h ==> r[y] == (x, y)
  {
    seq(h, y requires 0 <= y < h => (x, y))
  }

  /** The columns `lo` up to `hi` (exclusive), one after another. */
  function Columns(lo: nat, hi: nat, h: nat): seq<Address>
    decreases hi
  {
    if hi <= lo then [] else Columns(lo, hi - 1, h) + Column(hi - 1, h)
  }

  /** The order cage/cage.py visits cells in: x outer, y inner. */
  function RasterOrder(w: nat, h: nat): seq<Address> {
    Columns(0, w, h)
  }

  /** Writing `vals[k]` at `order[k]` into `dst`, one address after another. */
  function Written(dst: PlanarMap, order: seq<Address>, vals: seq<int>): (r: PlanarMap)
    requires dst.Valid() && |vals| == |order|
    requires forall k :: 0 <= k < |order| ==> dst.topology.InRange(order[k])
    ensures r.Valid() && r.topology == dst.topology && r.neighborhood == dst.neighborhood
    decreases |order|
  {
    if |order| == 0 then dst
    else
      var n := |order| - 1;
      Written(dst, order[..n], vals[..n]).With(order[n], vals[n])
  }

  /** The values the synchronous update writes into its work map for the addresses of
      `order`: the rule evaluated on the unchanged map `src`. */
  function RuleValues(f: CellRule, src: PlanarMap, order: seq<Address>): (vals: seq<int>)
    requires src.Valid() && AllApplicable(f, src)
    requires forall k :: 0 <= k < |order| ==> src.topology.InRange(order[k])
    ensures |vals| == |order|
    ensures forall k :: 0 <= k < |order| ==> vals[k] == f(src, order[k])
  {
    seq(|order|, k requires 0 <= k < |order| => f(src, order[k]))
  }

  /** The asynchronous update: each address of `order` in turn gets the rule's value
      computed on the map as already updated. None where the source would raise. */
  ghost function Sweep(f: CellRule, m: PlanarMap, order: seq<Address>): (r: Option<PlanarMap>)
    requires m.Valid()
    ensures r.Some? ==> r.value.Valid() && r.value.topology == m.topology && r.value.neighborhood == m.neighborhood
    decreases |order|
  {
    if |order| == 0 then Some(m)
    else
      match Sweep(f, m, order[..|order| - 1])
      case None => None
      case Some(p) =>
        var a := order[|order| - 1];
        if p.topology.InRange(a) && f.requires(p, a) then Some(p.With(a, f(p, a))) else None
  }

  /** The one-dimensional rules: the coded elementary rule, the linear totalistic rule of
      cage/1dtotal.py, and a reduction over the radial neighbors. */
  datatype LinearRule =
    | LinearCodedRule(cube: seq<seq<seq<int>>>)
    | LinearTotalisticRule(sums: seq<int>)
    | LinearReductionRule(g: (int, int) -> int)

  predicate LinearApplicable(rule: LinearRule, m: LinearMap, x: int)
    requires m.Valid()
  {
    m.ReadableAround(x) &&
    match rule
    case LinearCodedRule(cube) =>
      Rules.Cube(cube) && m.radius == 1 && forall i :: 0 <= i < 3 ==> -2 <= m.InclusiveStates(x)[i] < 2
    case LinearTotalisticRule(sums) => m.radius > 0 && -|sums| <= m.InclusiveSum(x) < |sums|
    case LinearReductionRule(_) => m.radius > 0
  }

  function LinearApply(rule: LinearRule, m: LinearMap, x: int): int
    requires m.Valid() && LinearApplicable(rule, m, x)
  {
    match rule
    case LinearCodedRule(cube) => Rules.LinearCodedRule(cube, m, x)
    case LinearTotalisticRule(sums) => LinearTotal.LinearTotalisticRule(sums, m, x)
    case LinearReductionRule(g) => Rules.LinearReductionRule(g, m, x)
  }

  ghost predicate LinearAllApplicable(rule: LinearRule, m: LinearMap)
    requires m.Valid()
  {
    forall x :: m.topology.InRange(x) ==> LinearApplicable(rule, m, x)
  }

  /** The synchronous step on a line. */
  function LinearSyncStep(rule: LinearRule, m: LinearMap): (r: LinearMap)
    requires m.Valid() && LinearAllApplicable(rule, m)
    ensures r.Valid() && r.topology == m.topology && r.radius == m.radius
    ensures forall x :: 0 <= x < m.topology.length ==> r.buffer[x] == LinearApply(rule, m, x)
  {
    var n := m.topology.length;
    LinearMap(m.topology, m.radius, seq(n, x requires 0 <= x < n => LinearApply(rule, m, x)))
  }

  // ---------------------------------------------------------------------------
  // Properties

  /** The raster order lists exactly the addresses of the grid, column after column. */
  lemma {:induction false} RasterOrderContents(w: nat, h: nat)
    ensures |RasterOrder(w, h)| == w * h
    ensures forall a :: a in RasterOrder(w, h) <==> 0 <= a.0 < w && 0 <= a.1 < h
  {
    if w > 0 {
      RasterOrderContents(w - 1, h);
      assert (w - 1) * h + h == w * h;
      forall a ensures a in Column(w - 1, h) <==> a.0 == w - 1 && 0 <= a.1 < h {
        if a.0 == w - 1 && 0 <= a.1 < h {
          assert Column(w - 1, h)[a.1] == a;
        }
      }
    }
  }

  /** The first `x` columns are the start of the raster order of any wider grid. */
  lemma {:induction false} RasterOrderPrefix(w: nat, h: nat, x: nat)
    requires x <= w
    ensures RasterOrder(w, h) == RasterOrder(x, h) + Columns(x, w, h)
    decreases w
  {
    if x < w {
      RasterOrderPrefix(w - 1, h, x);
    }
  }

  /** The value a cell ends with after `Written`: `v` if the cell was visited and every
      visit wrote `v`, however many there were, and its old value otherwise. */
  lemma {:induction false} WrittenAt(dst: PlanarMap, order: seq<Address>, vals: seq<int>, b: Address, v: int)
    requires dst.Valid() && |vals| == |order|
    requires forall k :: 0 <= k < |order| ==> dst.topology.InRange(order[k])
    requires dst.topology.InRange(b)
    requires forall k :: 0 <= k < |order| && order[k] == b ==> vals[k] == v
    ensures Written(dst, order, vals).buffer[b.0][b.1] == if b in order then v else dst.buffer[b.0][b.1]
    decreases |order|
  {
    if |order| > 0 {
      var n := |order| - 1;
      var init := order[..n];
      WrittenAt(dst, init, vals[..n], b, v);
      assert order == init + [order[n]];
      assert b in order <==> b in init || b == order[n];
    }
  }

  /** The synchronous step does not depend on the visiting order: writing every cell of the
      grid, in any order and with any repetitions, into any work map of the same shape gives
      the synchronous step. */
  lemma SyncOrderFree(f: CellRule, src: PlanarMap, dst: PlanarMap, order: seq<Address>)
    requires src.Valid() && dst.Valid() && dst.topology == src.topology && dst.neighborhood == src.neighborhood
    requires AllApplicable(f, src)
    requires forall k :: 0 <= k < |order| ==> src.topology.InRange(order[k])
    requires forall x, y :: 0 <= x < src.topology.width && 0 <= y < src.topology.height ==> (x, y) in order
    ensures Written(dst, order, RuleValues(f, src, order)) == SyncStep(f, src)
  {
    var vals := RuleValues(f, src, order);
    var r, s := Written(dst, order, vals), SyncStep(f, src);
    forall x | 0 <= x < src.topology.width
      ensures r.buffer[x] == s.buffer[x]
    {
      forall y | 0 <= y < src.topology.height
        ensures r.buffer[x][y] == s.buffer[x][y]
      {
        WrittenAt(dst, order, vals, (x, y), f(src, (x, y)));
      }
    }
  }

  /** In particular in the source's raster order. */
  lemma RasterOrderCovers(f: CellRule, src: PlanarMap, dst: PlanarMap)
    requires src.Valid() && dst.Valid() && dst.topology == src.topology && dst.neighborhood == src.neighborhood
    requires AllApplicable(f, src)
    ensures var order := RasterOrder(src.topology.width, src.topology.height);
            (forall k :: 0 <= k < |order| ==> src.topology.InRange(order[k])) &&
            Written(dst, order, RuleValues(f, src, order)) == SyncStep(f, src)
  {
    var w, h := src.topology.width, src.topology.height;
    var order := RasterOrder(w, h);
    RasterOrderContents(w, h);
    assert forall k :: 0 <= k < |order| ==> order[k] in order;
    SyncOrderFree(f, src, dst, order);
  }

  /** A sweep that succeeds on a whole order succeeds on each of its prefixes. */
  lemma {:induction false} SweepPrefix(f: CellRule, m: PlanarMap, order: seq<Address>, k: nat)
    requires m.Valid() && Sweep(f, m, order).Some? && k <= |order|
    ensures Sweep(f, m, order[..k]).Some?
    decreases |order|
  {
    if k < |order| {
      var init := order[..|order| - 1];
      assert init[..k] == order[..k];
      SweepPrefix(f, m, init, k);
    } else {
      assert order[..k] == order;
    }
  }

  /** How a sweep grows by one address: the cell at `order[k]` gets the rule's value on the
      map as the first `k` writes left it. */
  lemma SweepStep(f: CellRule, m: PlanarMap, order: seq<Address>, k: nat, p: PlanarMap)
    requires m.Valid() && Sweep(f, m, order).Some? && k < |order|
    requires Sweep(f, m, order[..k]) == Some(p)
    ensures p.Valid() && p.topology.InRange(order[k]) && f.requires(p, order[k])
    ensures Sweep(f, m, order[..k + 1]) == Some(p.With(order[k], f(p, order[k])))
  {
    SweepPrefix(f, m, order, k + 1);
    assert order[..k + 1][..k] == order[..k];
  }

  /** A sweep over two orders one after the other continues from where the first left
      the map. */
  lemma {:induction false} SweepAppend(f: CellRule, m: PlanarMap, o1: seq<Address>, o2: seq<Address>)
    requires m.Valid()
    ensures Sweep(f, m, o1 + o2) ==
            match Sweep(f, m, o1)
            case None => None
            case Some(p) => Sweep(f, p, o2)
    decreases |o2|
  {
    if |o2| == 0 {
      assert o1 + o2 == o1;
    } else {
      var n := |o2| - 1;
      SweepAppend(f, m, o1, o2[..n]);
      assert (o1 + o2)[..|o1 + o2| - 1] == o1 + o2[..n];
    }
  }

  /** The sweep of the first `x + 1` columns is that of the first `x`, then column `x`; it
      succeeds when the sweep of a wider grid does. */
  lemma RasterOrderNext(f: CellRule, m: PlanarMap, w: nat, h: nat, x: nat, p: PlanarMap)
    requires m.Valid() && x < w && Sweep(f, m, RasterOrder(w, h)).Some?
    requires Sweep(f, m, RasterOrder(x, h)) == Some(p)
    ensures Sweep(f, m, RasterOrder(x + 1, h)) == Sweep(f, p, Column(x, h)) && Sweep(f, p, Column(x, h)).Some?
  {
    SweepAppend(f, m, RasterOrder(x, h), Column(x, h));
    RasterOrderPrefix(w, h, x + 1);
    SweepAppend(f, m, RasterOrder(x + 1, h), Columns(x + 1, w, h));
  }

  /** The asynchronous update does depend on the order. On a bounded 2 x 1 grid holding
      1 and 2, with the von Neumann sum as the rule, the raster order gives [2, 2], the
      reverse order [1, 1], and the synchronous step [2, 1]. */
  lemma SweepOrderMatters()
    ensures var m := Pair(1, 2);
            Sweep(RuleFn(ReductionRule(Add)), m, [(0, 0), (1, 0)]) == Some(Pair(2, 2)) &&
            Sweep(RuleFn(ReductionRule(Add)), m, [(1, 0), (0, 0)]) == Some(Pair(1, 1)) &&
            AllApplicable(RuleFn(ReductionRule(Add)), m) &&
            SyncStep(RuleFn(ReductionRule(Add)), m) == Pair(2, 1)
  {
    SweepForward();
    SweepBackward();
    SyncPair();
  }

  lemma SweepForward()
    ensures Sweep(RuleFn(ReductionRule(Add)), Pair(1, 2), [(0, 0), (1, 0)]) == Some(Pair(2, 2))
  {
    SweepOne(1, 2, (0, 0));
    SweepOne(2, 2, (1, 0));
    SweepThen(RuleFn(ReductionRule(Add)), Pair(1, 2), (0, 0), (1, 0));
  }

  lemma SweepBackward()
    ensures Sweep(RuleFn(ReductionRule(Add)), Pair(1, 2), [(1, 0), (0, 0)]) == Some(Pair(1, 1))
  {
    SweepOne(1, 2, (1, 0));
    SweepOne(1, 1, (0, 0));
    SweepThen(RuleFn(ReductionRule(Add)), Pair(1, 2), (1, 0), (0, 0));
  }

  lemma SyncPair()
    ensures Pair(1, 2).Valid() && AllApplicable(RuleFn(ReductionRule(Add)), Pair(1, 2))
    ensures SyncStep(RuleFn(ReductionRule(Add)), Pair(1, 2)) == Pair(2, 1)
  {
    var m, f := Pair(1, 2), RuleFn(ReductionRule(Add));
    var v0, v1 := PairApplicable(1, 2);
    var s := SyncStep(f, m);
    assert s.buffer[0][0] == v0 && s.buffer[1][0] == v1;
    assert s.buffer[0] == [2] && s.buffer[1] == [1];
  }

  /** The sum rule applies everywhere on the pair; each cell's value is the other's state. */
  lemma PairApplicable(left: int, right: int) returns (v0: int, v1: int)
    ensures Pair(left, right).Valid() && AllApplicable(RuleFn(ReductionRule(Add)), Pair(left, right))
    ensures v0 == right && v1 == left
    ensures RuleFn(ReductionRule(Add))(Pair(left, right), (0, 0)) == v0
    ensures RuleFn(ReductionRule(Add))(Pair(left, right), (1, 0)) == v1
  {
    var m, f := Pair(left, right), RuleFn(ReductionRule(Add));
    VonNeumannSum(m, left, right);
    assert Applicable(ReductionRule(Add), m, (0, 0)) && Applicable(ReductionRule(Add), m, (1, 0));
    forall a: Address | m.topology.InRange(a)
      ensures f.requires(m, a)
    {
      assert a == (0, 0) || a == (1, 0);
    }
    v0, v1 := right, left;
  }

  /** The 2 x 1 bounded von Neumann grid holding `left` and `right`. */
  function Pair(left: int, right: int): PlanarMap {
    PlanarMap(GridTopology(2, 1), VonNeumannNeighborhood, [[left], [right]])
  }

  /** One asynchronous visit on the pair writes the other cell's state. */
  lemma SweepOne(left: int, right: int, a: Address)
    requires a == (0, 0) || a == (1, 0)
    ensures Pair(left, right).Valid()
    ensures Sweep(RuleFn(ReductionRule(Add)), Pair(left, right), [a]) ==
            Some(if a == (0, 0) then Pair(right, right) else Pair(left, left))
  {
    var m := Pair(left, right);
    VonNeumannSum(m, left, right);
    assert [a][..0] == [];
    assert Applicable(ReductionRule(Add), m, a);
    if a == (0, 0) {
      assert [left][0 := right] == [right];
      assert m.buffer[0 := [right]] == [[right], [right]];
    } else {
      assert [right][0 := left] == [left];
      assert m.buffer[1 := [left]] == [[left], [left]];
    }
  }

  /** A sweep over two addresses continues from the sweep over the first. */
  lemma SweepThen(f: CellRule, m: PlanarMap, a: Address, b: Address)
    requires m.Valid()
    ensures Sweep(f, m, [a, b]) ==
            match Sweep(f, m, [a])
            case None => None
            case Some(p) => Sweep(f, p, [b])
  {
    assert [a, b][..1] == [a] && [b][..0] == [];
  }

  /** On a bounded 2 x 1 grid each cell's only neighbor on the grid is the other cell, so
      the von Neumann sum of one cell is the other's state. */
  lemma VonNeumannSum(m: PlanarMap, left: int, right: int)
    requires m == PlanarMap(GridTopology(2, 1), VonNeumannNeighborhood, [[left], [right]])
    ensures m.Valid() && m.ReadableAround((0, 0)) && m.ReadableAround((1, 0))
    ensures Rules.ReductionRule(Add, m, (0, 0)) == right
    ensures Rules.ReductionRule(Add, m, (1, 0)) == left
  {
    assert m.States((0, 0)) == [right, 0, 0, 0];
    assert m.States((1, 0)) == [0, 0, left, 0];
    FoldZeros(right);
    FoldZeros(0);
    assert Fold(Add, 0, [0, left, 0]) == Fold(Add, left, [0]) by {
      assert [0, left, 0][1..] == [left, 0];
      assert [left, 0][1..] == [0];
    }
    assert [0] == [0, 0, 0][2..];
  }

  /** Folding a run of zeros into `acc` by addition leaves `acc`. */
  lemma FoldZeros(acc: int)
    ensures Fold(Add, acc, [0, 0, 0]) == acc && Fold(Add, acc, [0]) == acc
  {
    assert [0, 0, 0][1..] == [0, 0] && [0, 0][1..] == [0] && [0][1..] == [];
  }
}
