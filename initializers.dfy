/** The deterministic initializers of cage/cage.py, which set up a map before the first
    update: PointInitializer sets one cell, PatternInitializer grafts a pattern of rows
    onto the middle of a two-dimensional map. */
module Initializers {
  import opened Base
  import opened Topology
  import opened Maps

  /** `PointInitializer(address = None, state = 1)`. */
  datatype PointInitializer = PointInitializer(address: Option<Address>, state: int)

  /** The same for a one-dimensional map, whose addresses are `(x,)`. */
  datatype LinearPointInitializer = LinearPointInitializer(address: Option<int>, state: int)

  /** The cell a point initializer sets: its own address, or else the map's `center`. */
  function PointTarget(t: PlanarTopology, address: Option<Address>): Address {
    if address.Some? then address.value else t.Center()
  }

  function LinearPointTarget(t: LinearTopology, address: Option<int>): int {
    if address.Some? then address.value else t.Center()
  }

  /** `PointInitializer.initialize`: `set` of one cell, which must be in range. */
  method InitializePoint(init: PointInitializer, cells: PlanarCells)
    requires cells.Valid() && cells.topology.InRange(PointTarget(cells.topology, init.address))
    modifies cells.buffer
    ensures cells.Valid()
    ensures cells.View() == old(cells.View()).With(PointTarget(cells.topology, init.address), init.state)
  {
    var address := init.address;
    var a: Address;
    if address.None? {
      a := cells.topology.Center();
    } else {
      a := address.value;
    }
    cells.Set(a, init.state);
  }

  method InitializeLinearPoint(init: LinearPointInitializer, cells: LinearCells)
    requires cells.Valid() && cells.topology.InRange(LinearPointTarget(cells.topology, init.address))
    modifies cells.buffer
    ensures cells.Valid()
    ensures cells.View() == old(cells.View()).With(LinearPointTarget(cells.topology, init.address), init.state)
  {
    var address := init.address;
    var x: int;
    if address.None? {
      x := cells.topology.Center();
    } else {
      x := address.value;
    }
    cells.Set(x, init.state);
  }

  /** `center` lies in the middle of every axis of a non-empty map: as many cells before it
      as after it, or one more before. */
  lemma CenterBalanced(t: PlanarTopology)
    requires t.width > 0 && t.height > 0
    ensures t.InRange(t.Center())
    ensures var c := t.Center();
            0 <= c.0 - (t.width - 1 - c.0) <= 1 && 0 <= c.1 - (t.height - 1 - c.1) <= 1
  {
  }

  /** Without an address, a point initializer on a non-empty map never fails and sets the
      center cell to its state, leaving every other cell as it was. */
  lemma PointSetsCenter(init: PointInitializer, m: PlanarMap)
    requires m.Valid() && m.topology.width > 0 && m.topology.height > 0 && init.address.None?
    ensures m.topology.InRange(PointTarget(m.topology, init.address))
    ensures var r := m.With(PointTarget(m.topology, init.address), init.state);
            r.Get(m.topology.Center()) == init.state &&
            forall b :: m.topology.InRange(b) && b != m.topology.Center() ==> r.Get(b) == m.Get(b)
  {
  }

  // ---------------------------------------------------------------------------
  // PatternInitializer

  /** Cell `(px, py)` of the pattern exists: row `py` is long enough. */
  predicate InPattern(pattern: seq<seq<int>>, px: int, py: int) {
    0 <= py < |pattern| && 0 <= px < |pattern[py]|
  }

  /** The map with the pattern's cells written at offset `(left, bottom)`. */
  function Grafted(m: PlanarMap, pattern: seq<seq<int>>, left: int, bottom: int): (r: PlanarMap)
    requires m.Valid()
    ensures r.Valid() && r.topology == m.topology && r.neighborhood == m.neighborhood
    ensures forall i, j :: 0 <= i < m.topology.width && 0 <= j < m.topology.height ==>
              r.buffer[i][j] == if InPattern(pattern, i - left, j - bottom) then pattern[j - bottom][i - left] else m.buffer[i][j]
  {
    var w, h := m.topology.width, m.topology.height;
    PlanarMap(m.topology, m.neighborhood,
      seq(w, i requires 0 <= i < w =>
        seq(h, j requires 0 <= j < h =>
          if InPattern(pattern, i - left, j - bottom) then pattern[j - bottom][i - left] else m.buffer[i][j])))
  }

  /** The first `y` rows of the pattern, and the first `x` cells of row `y`, written. */
  ghost predicate Painted(m0: PlanarMap, p: PlanarMap, pattern: seq<seq<int>>, left: int, bottom: int, y: int, x: int) {
    m0.Valid() && p.Valid() && p.topology == m0.topology && p.neighborhood == m0.neighborhood &&
    forall i, j :: 0 <= i < m0.topology.width && 0 <= j < m0.topology.height ==>
      p.buffer[i][j] ==
        if InPattern(pattern, i - left, j - bottom) && (j - bottom < y || (j - bottom == y && i - left < x))
        then pattern[j - bottom][i - left] else m0.buffer[i][j]
  }

  /** A pattern initializer: the rows of the pattern, its width (the longest row) and its
      height (the number of rows). */
  class PatternInitializer {
    const pattern: seq<seq<int>>
    const width: nat
    const height: nat

    predicate Valid() {
      height == |pattern| && (forall y :: 0 <= y < |pattern| ==> |pattern[y]| <= width) &&
      (width == 0 || exists y :: 0 <= y < |pattern| && |pattern[y]| == width)
    }

    /** `PatternInitializer(pattern)`. */
    constructor (pattern: seq<seq<int>>)
      ensures Valid() && this.pattern == pattern
    {
      this.pattern := pattern;
      height := |pattern|;
      var w := Widest(pattern);
      width := w;
    }

    /** The offset that centers the pattern: `divmod(map.width - width, 2)[0]` and the same
        for the height. */
    function Offset(t: PlanarTopology): (o: Address)
      requires width <= t.width && height <= t.height
      ensures 0 <= o.0 && o.0 + width <= t.width && 0 <= o.1 && o.1 + height <= t.height
      ensures 0 <= (t.width - (o.0 + width)) - o.0 <= 1 && 0 <= (t.height - (o.1 + height)) - o.1 <= 1
    {
      ((t.width - width) / 2, (t.height - height) / 2)
    }

    /** `initialize`: the pattern must fit the map; row by row, each cell of the pattern is
        `set` at the offset that centers it. */
    method Initialize(cells: PlanarCells)
      requires Valid() && cells.Valid() && width <= cells.topology.width && height <= cells.topology.height
      modifies cells.buffer
      ensures cells.Valid()
      ensures var o := Offset(cells.topology);
              cells.View() == Grafted(old(cells.View()), pattern, o.0, o.1)
    {
      ghost var m0 := cells.View();
      var left := (cells.topology.width - width) / 2;
      var bottom := (cells.topology.height - height) / 2;
      for y := 0 to height
        invariant cells.Valid() && Painted(m0, cells.View(), pattern, left, bottom, y, 0)
      {
        for x := 0 to |pattern[y]|
          invariant cells.Valid() && Painted(m0, cells.View(), pattern, left, bottom, y, x)
        {
          ghost var p := cells.View();
          cells.Set((left + x, bottom + y), pattern[y][x]);
          PaintNext(m0, p, cells.View(), pattern, left, bottom, y, x);
        }
        PaintRow(m0, cells.View(), pattern, left, bottom, y);
      }
      PaintAll(m0, cells.View(), pattern, left, bottom);
    }
  }

  /** `PatternInitializer.__init__`'s loop: the length of the longest row, 0 when there are
      no rows. */
  method Widest(pattern: seq<seq<int>>) returns (w: nat)
    ensures forall y :: 0 <= y < |pattern| ==> |pattern[y]| <= w
    ensures w == 0 || exists y :: 0 <= y < |pattern| && |pattern[y]| == w
  {
    w := 0;
    for y := 0 to |pattern|
      invariant forall k :: 0 <= k < y ==> |pattern[k]| <= w
      invariant w == 0 || exists k :: 0 <= k < y && |pattern[k]| == w
    {
      if |pattern[y]| > w {
        w := |pattern[y]|;
      }
    }
  }

  // ---------------------------------------------------------------------------
  // Properties

  /** Writing pattern cell `(x, y)` advances the painting by one cell. */
  lemma PaintNext(m0: PlanarMap, p: PlanarMap, q: PlanarMap, pattern: seq<seq<int>>, left: int, bottom: int, y: int, x: int)
    requires Painted(m0, p, pattern, left, bottom, y, x) && InPattern(pattern, x, y)
    requires m0.topology.InRange((left + x, bottom + y))
    requires q == p.With((left + x, bottom + y), pattern[y][x])
    ensures Painted(m0, q, pattern, left, bottom, y, x + 1)
  {
  }

  /** A finished row is the start of the next one. */
  lemma PaintRow(m0: PlanarMap, p: PlanarMap, pattern: seq<seq<int>>, left: int, bottom: int, y: int)
    requires 0 <= y < |pattern| && Painted(m0, p, pattern, left, bottom, y, |pattern[y]|)
    ensures Painted(m0, p, pattern, left, bottom, y + 1, 0)
  {
  }

  /** All rows painted is the whole pattern grafted. */
  lemma PaintAll(m0: PlanarMap, p: PlanarMap, pattern: seq<seq<int>>, left: int, bottom: int)
    requires Painted(m0, p, pattern, left, bottom, |pattern|, 0)
    ensures p == Grafted(m0, pattern, left, bottom)
  {
    var g := Grafted(m0, pattern, left, bottom);
    forall i | 0 <= i < m0.topology.width
      ensures p.buffer[i] == g.buffer[i]
    {
    }
    assert p.buffer == g.buffer;
  }

  /** After `initialize`, `get` at `(left + x, bottom + y)` reads cell `x` of row `y` of the
      pattern, and every cell the pattern does not cover reads as before. */
  lemma GraftedReads(m: PlanarMap, pattern: seq<seq<int>>, left: int, bottom: int, width: nat)
    requires m.Valid() && |pattern| <= m.topology.height && width <= m.topology.width
    requires forall y :: 0 <= y < |pattern| ==> |pattern[y]| <= width
    requires 0 <= left && left + width <= m.topology.width && 0 <= bottom && bottom + |pattern| <= m.topology.height
    ensures forall x, y :: InPattern(pattern, x, y) ==>
              m.topology.InRange((left + x, bottom + y)) &&
              Grafted(m, pattern, left, bottom).Get((left + x, bottom + y)) == pattern[y][x]
    ensures forall b :: m.topology.InRange(b) && !InPattern(pattern, b.0 - left, b.1 - bottom) ==>
              Grafted(m, pattern, left, bottom).Get(b) == m.Get(b)
  {
    var g := Grafted(m, pattern, left, bottom);
    forall x, y | InPattern(pattern, x, y)
      ensures m.topology.InRange((left + x, bottom + y)) && g.Get((left + x, bottom + y)) == pattern[y][x]
    {
      assert (left + x) - left == x && (bottom + y) - bottom == y;
    }
  }
}
