/** Maps: a topology joined with a neighborhood and a cell buffer (the Map classes of
    cage/cage.py). `LinearMap` and `PlanarMap` are snapshots of the cells as values, which
    the rules read; `LinearCells` and `PlanarCells` hold the mutable buffer that `set`
    writes and that a synchronous automaton swaps. */
module Maps {
  import opened Base
  import opened Topology
  import opened Neighborhood
  import opened Aggregate
  import opened Bits

  /** A one-dimensional map: LineMap (bounded) or RadialMap (wrapping), both with a
      radial neighborhood. */
  datatype LinearMap = LinearMap(topology: LinearTopology, radius: nat, buffer: seq<int>) {

    predicate Valid() {
      |buffer| == topology.length
    }

    /** `get`: the border 0 wherever a bounded line refuses the address, otherwise the
        buffer at the normalized address, read as a Python index. */
    function Get(x: int): (r: int)
      requires Valid() && topology.Readable(x)
      ensures topology.InRange(x) ==> r == buffer[x]
      ensures topology.LineTopology? && !topology.InRange(x) ==> r == 0
    {
      match topology.Normalize(x)
      case None => 0
      case Some(y) => PyIndex(buffer, y)
    }

    predicate ReadableAround(x: int) {
      topology.Readable(x) && forall y :: y in RadialNeighbors(radius, x) ==> topology.Readable(y)
    }

    /** `states`: the neighbor cells in `neighbors` order. */
    function States(x: int): (r: seq<int>)
      requires Valid() && ReadableAround(x)
      ensures |r| == 2 * radius
    {
      var ns := RadialNeighbors(radius, x);
      seq(|ns|, i requires 0 <= i < |ns| => Get(ns[i]))
    }

    /** `inclusiveStates`: the neighbor cells with the cell itself last. */
    function InclusiveStates(x: int): (r: seq<int>)
      requires Valid() && ReadableAround(x)
      ensures |r| == 2 * radius + 1 && r[2 * radius] == Get(x)
    {
      States(x) + [Get(x)]
    }

    /** `inclusiveSum`: `reduce(operator.add, states) + get(address)`; the unseeded
        reduce needs a positive radius. */
    function InclusiveSum(x: int): (r: int)
      requires Valid() && ReadableAround(x) && radius > 0
      ensures r == Total(InclusiveStates(x))
    {
      SumIsTotal(States(x));
      TotalAppend(States(x), [Get(x)]);
      Sum(States(x)) + Get(x)
    }

    /** `set`, on values: the buffer with one cell replaced. */
    function With(x: int, v: int): (m: LinearMap)
      requires Valid() && topology.InRange(x)
      ensures m.Valid() && m.topology == topology && m.radius == radius
      ensures m.buffer[x] == v && forall y :: 0 <= y < |buffer| && y != x ==> m.buffer[y] == buffer[y]
    {
      LinearMap(topology, radius, buffer[x := v])
    }

    /** Every cell holds a value in `[0, k)`. */
    predicate CellsBelow(k: int) {
      forall x :: 0 <= x < |buffer| ==> 0 <= buffer[x] < k
    }
  }

  /** A two-dimensional map: a grid or toroid with one of the planar neighborhoods. The
      buffer is indexed `buffer[x][y]`. */
  datatype PlanarMap = PlanarMap(topology: PlanarTopology, neighborhood: PlanarNeighborhood, buffer: seq<seq<int>>) {

    predicate Valid() {
      |buffer| == topology.width && forall x :: 0 <= x < |buffer| ==> |buffer[x]| == topology.height
    }

    function Get(a: Address): (r: int)
      requires Valid() && topology.Readable(a)
      ensures topology.InRange(a) ==> r == buffer[a.0][a.1]
      ensures topology.GridTopology? && !topology.InRange(a) ==> r == 0
    {
      match topology.Normalize(a)
      case None => 0
      case Some(b) => PyIndex(PyIndex(buffer, b.0), b.1)
    }

    predicate ReadableAround(a: Address) {
      topology.Readable(a) && forall b :: b in neighborhood.Neighbors(a) ==> topology.Readable(b)
    }

    function States(a: Address): (r: seq<int>)
      requires Valid() && ReadableAround(a)
      ensures |r| == neighborhood.Size()
    {
      var ns := neighborhood.Neighbors(a);
      seq(|ns|, i requires 0 <= i < |ns| => Get(ns[i]))
    }

    function InclusiveStates(a: Address): (r: seq<int>)
      requires Valid() && ReadableAround(a)
      ensures |r| == neighborhood.Size() + 1 && r[neighborhood.Size()] == Get(a)
    {
      States(a) + [Get(a)]
    }

    /** `sum`: the unseeded reduce, so the null neighborhood is excluded. */
    function NeighborSum(a: Address): (r: int)
      requires Valid() && ReadableAround(a) && neighborhood.Size() > 0
      ensures r == Total(States(a))
    {
      SumIsTotal(States(a));
      Sum(States(a))
    }

    /** `inclusiveSum`: the neighbor sum plus the cell itself. */
    function InclusiveSum(a: Address): (r: int)
      requires Valid() && ReadableAround(a) && neighborhood.Size() > 0
      ensures r == Total(InclusiveStates(a))
    {
      SumIsTotal(States(a));
      TotalAppend(States(a), [Get(a)]);
      Sum(States(a)) + Get(a)
    }

    /** `average`: Python 2 integer division by the neighbor count, which floors: the
        largest value whose multiple by the count does not exceed the sum. */
    function Average(a: Address): (r: int)
      requires Valid() && ReadableAround(a) && neighborhood.Size() > 0
      ensures neighborhood.Size() * r <= NeighborSum(a) < neighborhood.Size() * (r + 1)
    {
      NeighborSum(a) / neighborhood.Size()
    }

    /** `inclusiveAverage`: the inclusive sum floored over the neighbors and the cell. */
    function InclusiveAverage(a: Address): (r: int)
      requires Valid() && ReadableAround(a) && neighborhood.Size() > 0
      ensures (neighborhood.Size() + 1) * r <= InclusiveSum(a) < (neighborhood.Size() + 1) * (r + 1)
    {
      InclusiveSum(a) / (neighborhood.Size() + 1)
    }

    function With(a: Address, v: int): (m: PlanarMap)
      requires Valid() && topology.InRange(a)
      ensures m.Valid() && m.topology == topology && m.neighborhood == neighborhood
      ensures m.buffer[a.0][a.1] == v
      ensures forall x, y :: 0 <= x < |buffer| && 0 <= y < |buffer[x]| && (x, y) != a ==>
                m.buffer[x][y] == buffer[x][y]
    {
      PlanarMap(topology, neighborhood, buffer[a.0 := buffer[a.0][a.1 := v]])
    }

    /** Every cell holds a value in `[0, k)`. */
    predicate CellsBelow(k: int) {
      forall x, y :: 0 <= x < |buffer| && 0 <= y < |buffer[x]| ==> 0 <= buffer[x][y] < k
    }
  }

  /** A freshly built map: every cell holds the background 0. */
  function BlankLinear(t: LinearTopology, radius: nat): (m: LinearMap)
    ensures m.Valid() && m.topology == t && m.radius == radius
    ensures forall x :: 0 <= x < t.length ==> m.buffer[x] == 0
  {
    LinearMap(t, radius, seq(t.length, _ => 0))
  }

  function BlankPlanar(t: PlanarTopology, n: PlanarNeighborhood): (m: PlanarMap)
    ensures m.Valid() && m.topology == t && m.neighborhood == n
    ensures forall x, y :: 0 <= x < t.width && 0 <= y < t.height ==> m.buffer[x][y] == 0
  {
    PlanarMap(t, n, seq(t.width, _ => seq(t.height, _ => 0)))
  }

  // ---------------------------------------------------------------------------
  // Properties of reading

  lemma ModShift(v: int, e: int)
    requires e > 0
    ensures (v + e) % e == v % e && (v - e) % e == v % e
  {
    var q, r := v / e, v % e;
    assert v + e == e * (q + 1) + r;
    assert v - e == e * (q - 1) + r;
    ModUnique(v + e, e, q + 1, r);
    ModUnique(v - e, e, q - 1, r);
  }

  lemma WrapCongruent(v: int, e: int)
    requires e > 0
    ensures Wrap(v, e) % e == v % e
  {
    ModShift(v, e);
  }

  /** A toroid reads every coordinate in `[-2 * extent, 2 * extent)` modulo the extent: one
      fold by `normalize`, and Python's negative indexing covers the rest. */
  lemma ToroidGetIsModular(m: PlanarMap, a: Address)
    requires m.Valid() && m.topology.ToroidTopology?
    requires m.topology.width > 0 && m.topology.height > 0
    requires -2 * m.topology.width <= a.0 < 2 * m.topology.width
    requires -2 * m.topology.height <= a.1 < 2 * m.topology.height
    ensures m.topology.Readable(a)
    ensures m.Get(a) == m.buffer[a.0 % m.topology.width][a.1 % m.topology.height]
  {
    WrapCongruent(a.0, m.topology.width);
    WrapCongruent(a.1, m.topology.height);
  }

  /** A circle reads every coordinate in `[-2 * length, 2 * length)` modulo the length. */
  lemma CircleGetIsModular(m: LinearMap, x: int)
    requires m.Valid() && m.topology.CircleTopology? && m.topology.length > 0
    requires -2 * m.topology.length <= x < 2 * m.topology.length
    ensures m.topology.Readable(x)
    ensures m.Get(x) == m.buffer[x % m.topology.length]
  {
    WrapCongruent(x, m.topology.length);
  }

  /** On a toroid at least as wide and high as the neighborhood reaches (and never empty),
      every in-range cell can be read together with all its neighbors. */
  lemma ReadableAroundInRange(m: PlanarMap, a: Address)
    requires m.topology.InRange(a)
    requires m.topology.width >= m.neighborhood.Reach() && m.topology.height >= m.neighborhood.Reach()
    ensures m.ReadableAround(a)
  {
    forall b | b in m.neighborhood.Neighbors(a)
      ensures m.topology.Readable(b)
    {
      var ns := m.neighborhood.Neighbors(a);
      var i :| 0 <= i < |ns| && ns[i] == b;
      assert Abs(b.0 - a.0) <= m.neighborhood.Reach() && Abs(b.1 - a.1) <= m.neighborhood.Reach();
    }
  }

  /** The same for a line or circle at least as long as the radius. */
  lemma LinearReadableAroundInRange(m: LinearMap, x: int)
    requires m.topology.InRange(x) && m.topology.length >= m.radius
    ensures m.ReadableAround(x)
  {
    forall y | y in RadialNeighbors(m.radius, x)
      ensures m.topology.Readable(y)
    {
      RadialNeighborsWithinRadius(m.radius, x, y);
    }
  }

  /** Off a bounded line or grid everything reads as the border 0. */
  lemma BoundedBorderIsZero(m: PlanarMap, a: Address)
    requires m.Valid() && m.topology.GridTopology? && !m.topology.InRange(a)
    ensures m.topology.Normalize(a) == None && m.Get(a) == 0
  {
  }

  /** The radial states run outward, alternating right and left. */
  lemma LinearStatesOrder(m: LinearMap, x: int, i: nat)
    requires m.Valid() && m.ReadableAround(x) && i < m.radius
    ensures m.topology.Readable(x + i + 1) && m.topology.Readable(x - i - 1)
    ensures m.States(x)[2 * i] == m.Get(x + i + 1)
    ensures m.States(x)[2 * i + 1] == m.Get(x - i - 1)
  {
    var ns := RadialNeighbors(m.radius, x);
    assert ns[2 * i] in ns && ns[2 * i + 1] in ns;
  }

  /** With every cell in `[0, k)` and `k > 0`, every neighbor state is in `[0, k)` too: in-range
      cells by assumption, the border because it is 0. */
  lemma StatesBelow(m: PlanarMap, a: Address, k: int)
    requires m.Valid() && m.ReadableAround(a) && m.CellsBelow(k) && k > 0
    ensures 0 <= m.Get(a) < k
    ensures forall i :: 0 <= i < |m.States(a)| ==> 0 <= m.States(a)[i] < k
  {
    forall b | m.topology.Readable(b)
      ensures 0 <= m.Get(b) < k
    {
      GetBelow(m, b, k);
    }
    var ns := m.neighborhood.Neighbors(a);
    forall i | 0 <= i < |m.States(a)|
      ensures 0 <= m.States(a)[i] < k
    {
      assert ns[i] in ns;
      GetBelow(m, ns[i], k);
    }
  }

  lemma GetBelow(m: PlanarMap, b: Address, k: int)
    requires m.Valid() && m.topology.Readable(b) && m.CellsBelow(k) && k > 0
    ensures 0 <= m.Get(b) < k
  {
    match m.topology.Normalize(b)
    case None =>
    case Some(c) =>
      var x := if c.0 >= 0 then c.0 else |m.buffer| + c.0;
      assert PyIndex(m.buffer, c.0) == m.buffer[x];
      var row := m.buffer[x];
      var y := if c.1 >= 0 then c.1 else |row| + c.1;
      assert PyIndex(row, c.1) == row[y];
  }

  lemma LinearGetBelow(m: LinearMap, x: int, k: int)
    requires m.Valid() && m.topology.Readable(x) && m.CellsBelow(k) && k > 0
    ensures 0 <= m.Get(x) < k
  {
    match m.topology.Normalize(x)
    case None =>
    case Some(y) =>
      var i := if y >= 0 then y else |m.buffer| + y;
      assert PyIndex(m.buffer, y) == m.buffer[i];
  }

  /** The one-dimensional counterpart of `StatesBelow`. */
  lemma LinearStatesBelow(m: LinearMap, x: int, k: int)
    requires m.Valid() && m.ReadableAround(x) && m.CellsBelow(k) && k > 0
    ensures 0 <= m.Get(x) < k
    ensures forall i :: 0 <= i < |m.States(x)| ==> 0 <= m.States(x)[i] < k
  {
    LinearGetBelow(m, x, k);
    var ns := RadialNeighbors(m.radius, x);
    forall i | 0 <= i < |m.States(x)|
      ensures 0 <= m.States(x)[i] < k
    {
      assert ns[i] in ns;
      LinearGetBelow(m, ns[i], k);
    }
  }

  /** Writing one cell changes what `get` returns there and nowhere else (among in-range
      addresses). */
  lemma WithThenGet(m: PlanarMap, a: Address, v: int, b: Address)
    requires m.Valid() && m.topology.InRange(a) && m.topology.InRange(b)
    ensures m.With(a, v).Get(b) == if b == a then v else m.Get(b)
  {
  }

  // ---------------------------------------------------------------------------
  // Mutable cell buffers

  /** The contents of a row-major two-dimensional array as nested sequences `[x][y]`. */
  function Snapshot(a: array2<int>): (s: seq<seq<int>>)
    reads a
    ensures |s| == a.Length0
    ensures forall x :: 0 <= x < a.Length0 ==> |s[x]| == a.Length1
    ensures forall x, y :: 0 <= x < a.Length0 && 0 <= y < a.Length1 ==> s[x][y] == a[x, y]
  {
    seq(a.Length0, x reads a requires 0 <= x < a.Length0 =>
      seq(a.Length1, y reads a requires 0 <= y < a.Length1 => a[x, y]))
  }

  /** The mutable state of a two-dimensional map: its shape is fixed, its buffer is an
      array the automaton may swap for another of the same shape. */
  class PlanarCells {
    const topology: PlanarTopology
    const neighborhood: PlanarNeighborhood
    var buffer: array2<int>

    predicate Valid()
      reads this
    {
      buffer.Length0 == topology.width && buffer.Length1 == topology.height
    }

    function View(): (m: PlanarMap)
      reads this, buffer
      ensures m.topology == topology && m.neighborhood == neighborhood
      ensures Valid() ==> m.Valid()
    {
      PlanarMap(topology, neighborhood, Snapshot(buffer))
    }

    /** A map whose cells all hold the background 0. */
    constructor (t: PlanarTopology, n: PlanarNeighborhood)
      ensures Valid() && topology == t && neighborhood == n && fresh(buffer)
      ensures View() == BlankPlanar(t, n)
    {
      topology, neighborhood := t, n;
      buffer := new int[t.width, t.height]((x, y) => 0);
      new;
      assert forall x :: 0 <= x < t.width ==> Snapshot(buffer)[x] == BlankPlanar(t, n).buffer[x];
    }

    /** `clone`: a map of the same shape and neighborhood with a blank buffer. */
    method Clone() returns (c: PlanarCells)
      ensures fresh(c) && fresh(c.buffer) && c.Valid()
      ensures c.topology == topology && c.neighborhood == neighborhood
      ensures c.View() == BlankPlanar(topology, neighborhood)
    {
      c := new PlanarCells(topology, neighborhood);
    }

    /** `get`, reading the array directly. */
    method Get(a: Address) returns (r: int)
      requires Valid() && topology.Readable(a)
      ensures r == View().Get(a)
    {
      var n := topology.Normalize(a);
      if n.None? {
        r := 0;
      } else {
        var b := n.value;
        var x := if b.0 < 0 then b.0 + buffer.Length0 else b.0;
        var y := if b.1 < 0 then b.1 + buffer.Length1 else b.1;
        r := buffer[x, y];
      }
    }

    /** `set`: asserts the address is in range (wrapping maps do not normalize here) and
        writes one cell. */
    method Set(a: Address, v: int)
      requires Valid() && topology.InRange(a)
      modifies buffer
      ensures Valid() && buffer == old(buffer)
      ensures View() == old(View()).With(a, v)
      ensures buffer[a.0, a.1] == v
      ensures forall x, y :: 0 <= x < buffer.Length0 && 0 <= y < buffer.Length1 && (x, y) != a ==>
                buffer[x, y] == old(buffer[x, y])
    {
      buffer[a.0, a.1] := v;
      ghost var m := old(View()).With(a, v);
      assert forall x :: 0 <= x < buffer.Length0 ==> Snapshot(buffer)[x] == m.buffer[x];
    }
  }

  function LineSnapshot(a: array<int>): (s: seq<int>)
    reads a
    ensures s == a[..]
  {
    a[..]
  }

  /** The mutable state of a one-dimensional map. */
  class LinearCells {
    const topology: LinearTopology
    const radius: nat
    var buffer: array<int>

    predicate Valid()
      reads this
    {
      buffer.Length == topology.length
    }

    function View(): (m: LinearMap)
      reads this, buffer
      ensures m.topology == topology && m.radius == radius && m.buffer == buffer[..]
      ensures Valid() ==> m.Valid()
    {
      LinearMap(topology, radius, buffer[..])
    }

    constructor (t: LinearTopology, r: nat)
      ensures Valid() && topology == t && radius == r && fresh(buffer)
      ensures View() == BlankLinear(t, r)
    {
      topology, radius := t, r;
      buffer := new int[t.length](_ => 0);
    }

    method Clone() returns (c: LinearCells)
      ensures fresh(c) && fresh(c.buffer) && c.Valid()
      ensures c.topology == topology && c.radius == radius
      ensures c.View() == BlankLinear(topology, radius)
    {
      c := new LinearCells(topology, radius);
    }

    method Set(x: int, v: int)
      requires Valid() && topology.InRange(x)
      modifies buffer
      ensures Valid() && buffer == old(buffer)
      ensures View() == old(View()).With(x, v)
    {
      buffer[x] := v;
    }
  }
}
