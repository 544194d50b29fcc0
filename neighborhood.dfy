/** Adjacency (the Neighborhood classes of cage/cage.py): each neighborhood is a fixed,
    ordered list of offsets from the cell; the cell itself is never included. */
module Neighborhood {
  import opened Topology

  function Abs(v: int): nat {
    if v < 0 then -v else v
  }

  /** The offsets of HexagonalNeighborhood.neighbors exactly as cage/cage.py lists them.
      The last one, `(x + 1, y - 1)`, repeats the last Moore offset; see
      `HexagonalAsWrittenAsymmetric`. The model's `Offsets()` uses the corrected list. */
  function HexagonalOffsetsAsWritten(): seq<Address> {
    [(1, 0), (1, 1), (0, 1), (-1, -1), (0, -1), (1, -1)]
  }

  /** The two-dimensional neighborhoods. */
  datatype PlanarNeighborhood =
    | NullNeighborhood
    | VonNeumannNeighborhood
    | MooreNeighborhood
    | HexagonalNeighborhood
    | KnightsNeighborhood
  {
    /** `neighborhood()`: the neighbor count, the same for every address. */
    function Size(): nat {
      match this
      case NullNeighborhood => 0
      case VonNeumannNeighborhood => 4
      case MooreNeighborhood => 8
      case HexagonalNeighborhood => 6
      case KnightsNeighborhood => 8
    }

    /** The offsets, in the order `neighbors` returns them. The hexagonal list has the
        last offset corrected to `(x - 1, y)`. */
    function Offsets(): seq<Address> {
      match this
      case NullNeighborhood => []
      case VonNeumannNeighborhood => [(1, 0), (0, 1), (-1, 0), (0, -1)]
      case MooreNeighborhood =>
        [(1, 0), (1, 1), (0, 1), (-1, 1), (-1, 0), (-1, -1), (0, -1), (1, -1)]
      case HexagonalNeighborhood => [(1, 0), (1, 1), (0, 1), (-1, -1), (0, -1), (-1, 0)]
      case KnightsNeighborhood =>
        [(1, 2), (2, 1), (2, -1), (1, -2), (-1, -2), (-2, -1), (-2, 1), (-1, 2)]
    }

    /** The largest coordinate distance of any offset. */
    function Reach(): nat {
      match this
      case NullNeighborhood => 0
      case KnightsNeighborhood => 2
      case _ => 1
    }

    /** `neighbors(address)`: as many addresses as `neighborhood()` says, all different,
        none of them the address itself, none further than `Reach()` on either axis. */
    function Neighbors(a: Address): (r: seq<Address>)
      ensures |r| == Size()
      ensures forall i :: 0 <= i < |r| ==> r[i] != a
      ensures forall i, j :: 0 <= i < j < |r| ==> r[i] != r[j]
      ensures forall i :: 0 <= i < |r| ==> Abs(r[i].0 - a.0) <= Reach() && Abs(r[i].1 - a.1) <= Reach()
    {
      OffsetsGood();
      var d := Offsets();
      seq(|d|, i requires 0 <= i < |d| => (a.0 + d[i].0, a.1 + d[i].1))
    }

    /** Every neighborhood's offsets are `Size()` different non-zero offsets within `Reach()`. */
    lemma OffsetsGood()
      ensures |Offsets()| == Size() && GoodOffsets(Offsets(), Reach())
    {
      match this
      case NullNeighborhood =>
      case VonNeumannNeighborhood => VonNeumannGood();
      case MooreNeighborhood => MooreGood();
      case HexagonalNeighborhood => HexagonalGood();
      case KnightsNeighborhood => KnightsGood();
    }
  }

  lemma VonNeumannGood()
    ensures GoodOffsets(VonNeumannNeighborhood.Offsets(), 1)
  {
    GoodByPairs(VonNeumannNeighborhood.Offsets(), 1);
  }

  lemma HexagonalGood()
    ensures GoodOffsets(HexagonalNeighborhood.Offsets(), 1)
  {
    GoodByPairs(HexagonalNeighborhood.Offsets(), 1);
  }

  lemma MooreGood()
    ensures GoodOffsets(MooreNeighborhood.Offsets(), 1)
  {
    GoodByPairs(MooreNeighborhood.Offsets(), 1);
  }

  lemma KnightsGood()
    ensures GoodOffsets(KnightsNeighborhood.Offsets(), 2)
  {
    GoodByPairs(KnightsNeighborhood.Offsets(), 2);
  }

  /** Non-zero, within `reach` on each axis, and no offset twice. */
  predicate GoodOffsets(d: seq<Address>, reach: nat) {
    (forall i :: 0 <= i < |d| ==> d[i] != (0, 0) && Abs(d[i].0) <= reach && Abs(d[i].1) <= reach) &&
    forall i, j :: 0 <= i < j < |d| ==> d[i] != d[j]
  }

  /** A list of offsets is good when its first one is and is absent from the rest, and
      the rest is good. */
  lemma {:induction false} GoodByPairs(d: seq<Address>, reach: nat)
    requires forall i :: 0 <= i < |d| ==> d[i] != (0, 0) && Abs(d[i].0) <= reach && Abs(d[i].1) <= reach
    requires forall i :: 0 <= i < |d| ==> d[i] !in d[i + 1..]
    ensures GoodOffsets(d, reach)
  {
    forall i, j | 0 <= i < j < |d|
      ensures d[i] != d[j]
    {
      assert d[j] == d[i + 1..][j - i - 1];
    }
  }

  /** RadialNeighborhood.neighbors: `x + 1, x - 1, x + 2, x - 2, ...` out to the radius. */
  function RadialNeighbors(radius: nat, x: int): (r: seq<int>)
    ensures |r| == 2 * radius
    ensures forall i :: 0 <= i < radius ==> r[2 * i] == x + i + 1 && r[2 * i + 1] == x - i - 1
  {
    if radius == 0 then [] else RadialNeighbors(radius - 1, x) + [x + radius, x - radius]
  }

  // ---------------------------------------------------------------------------
  // Reference definitions

  /** The radial neighbors are exactly the cells within the radius, other than x. */
  lemma {:induction false} RadialNeighborsWithinRadius(radius: nat, x: int, y: int)
    ensures y in RadialNeighbors(radius, x) <==> 1 <= Abs(y - x) <= radius
  {
    var r := RadialNeighbors(radius, x);
    if 1 <= Abs(y - x) <= radius {
      var i := Abs(y - x) - 1;
      if y > x {
        assert r[2 * i] == y;
      } else {
        assert r[2 * i + 1] == y;
      }
    }
    if y in r {
      var k :| 0 <= k < |r| && r[k] == y;
      var i := k / 2;
      assert k == 2 * i || k == 2 * i + 1;
    }
  }

  /** The von Neumann neighbors are the cells at Manhattan distance 1. */
  lemma VonNeumannIsManhattanOne(a: Address, b: Address)
    ensures b in VonNeumannNeighborhood.Neighbors(a) <==> Abs(b.0 - a.0) + Abs(b.1 - a.1) == 1
  {
    var r := VonNeumannNeighborhood.Neighbors(a);
    if Abs(b.0 - a.0) + Abs(b.1 - a.1) == 1 {
      if b.0 == a.0 + 1 { assert b == r[0]; }
      else if b.0 == a.0 - 1 { assert b == r[2]; }
      else if b.1 == a.1 + 1 { assert b == r[1]; }
      else { assert b == r[3]; }
    }
  }

  /** The Moore neighbors are the cells at Chebyshev distance 1. */
  lemma MooreIsChebyshevOne(a: Address, b: Address)
    ensures b in MooreNeighborhood.Neighbors(a) <==>
            b != a && Abs(b.0 - a.0) <= 1 && Abs(b.1 - a.1) <= 1
  {
    var r := MooreNeighborhood.Neighbors(a);
    if b != a && Abs(b.0 - a.0) <= 1 && Abs(b.1 - a.1) <= 1 {
      var dx, dy := b.0 - a.0, b.1 - a.1;
      if dx == 1 && dy == 0 { assert b == r[0]; }
      else if dx == 1 && dy == 1 { assert b == r[1]; }
      else if dx == 0 && dy == 1 { assert b == r[2]; }
      else if dx == -1 && dy == 1 { assert b == r[3]; }
      else if dx == -1 && dy == 0 { assert b == r[4]; }
      else if dx == -1 && dy == -1 { assert b == r[5]; }
      else if dx == 0 && dy == -1 { assert b == r[6]; }
      else { assert b == r[7]; }
    }
  }

  /** The knight's neighbors are the cells one knight's move away. */
  lemma KnightsIsKnightMove(a: Address, b: Address)
    ensures b in KnightsNeighborhood.Neighbors(a) <==>
            (Abs(b.0 - a.0) == 1 && Abs(b.1 - a.1) == 2) || (Abs(b.0 - a.0) == 2 && Abs(b.1 - a.1) == 1)
  {
    var r := KnightsNeighborhood.Neighbors(a);
    var dx, dy := b.0 - a.0, b.1 - a.1;
    if (Abs(dx) == 1 && Abs(dy) == 2) || (Abs(dx) == 2 && Abs(dy) == 1) {
      if dx == 1 && dy == 2 { assert b == r[0]; }
      else if dx == 2 && dy == 1 { assert b == r[1]; }
      else if dx == 2 && dy == -1 { assert b == r[2]; }
      else if dx == 1 && dy == -2 { assert b == r[3]; }
      else if dx == -1 && dy == -2 { assert b == r[4]; }
      else if dx == -2 && dy == -1 { assert b == r[5]; }
      else if dx == -2 && dy == 1 { assert b == r[6]; }
      else { assert b == r[7]; }
    }
  }

  /** Adjacency is symmetric for every neighborhood: b neighbors a iff a neighbors b. */
  lemma NeighborhoodSymmetric(n: PlanarNeighborhood, a: Address, b: Address)
    ensures b in n.Neighbors(a) <==> a in n.Neighbors(b)
  {
    if b in n.Neighbors(a) {
      NeighborReversed(n, a, b);
    }
    if a in n.Neighbors(b) {
      NeighborReversed(n, b, a);
    }
  }

  lemma NeighborReversed(n: PlanarNeighborhood, a: Address, b: Address)
    requires b in n.Neighbors(a)
    ensures a in n.Neighbors(b)
  {
    var d := n.Offsets();
    var r := n.Neighbors(a);
    var i :| 0 <= i < |r| && r[i] == b;
    NeighborAt(n, a, i);
    var o := d[i];
    SymmetricOffsets(n, o);
    var j :| 0 <= j < |d| && d[j] == (-o.0, -o.1);
    NeighborAt(n, b, j);
  }

  /** Neighbor `i` is the address shifted by offset `i`. */
  lemma NeighborAt(n: PlanarNeighborhood, a: Address, i: nat)
    requires i < |n.Offsets()|
    ensures i < |n.Neighbors(a)| && n.Neighbors(a)[i] == (a.0 + n.Offsets()[i].0, a.1 + n.Offsets()[i].1)
  {
  }

  /** Every offset list is closed under negation. */
  lemma SymmetricOffsets(n: PlanarNeighborhood, o: Address)
    requires o in n.Offsets()
    ensures (-o.0, -o.1) in n.Offsets()
  {
  }

  /** The as-written offsets are good too: six different non-zero offsets within one step. */
  lemma HexagonalAsWrittenGood()
    ensures |HexagonalOffsetsAsWritten()| == HexagonalNeighborhood.Size()
    ensures GoodOffsets(HexagonalOffsetsAsWritten(), 1)
  {
    GoodByPairs(HexagonalOffsetsAsWritten(), 1);
  }

  /** HexagonalNeighborhood.neighbors as cage/cage.py writes it: six different addresses,
      none of them the address itself, none further than one step on either axis. */
  function HexagonalNeighborsAsWritten(a: Address): (r: seq<Address>)
    ensures |r| == HexagonalNeighborhood.Size()
    ensures forall i :: 0 <= i < |r| ==> r[i] != a
    ensures forall i, j :: 0 <= i < j < |r| ==> r[i] != r[j]
    ensures forall i :: 0 <= i < |r| ==> Abs(r[i].0 - a.0) <= 1 && Abs(r[i].1 - a.1) <= 1
  {
    HexagonalAsWrittenGood();
    var d := HexagonalOffsetsAsWritten();
    seq(|d|, i requires 0 <= i < |d| => (a.0 + d[i].0, a.1 + d[i].1))
  }

  /** The correction changes the sixth hexagonal neighbor and nothing else. */
  lemma HexagonalCorrectionOnlySixth(a: Address)
    ensures HexagonalNeighborsAsWritten(a)[..5] == HexagonalNeighborhood.Neighbors(a)[..5]
    ensures HexagonalNeighborsAsWritten(a)[5] == (a.0 + 1, a.1 - 1)
    ensures HexagonalNeighborhood.Neighbors(a)[5] == (a.0 - 1, a.1)
  {
  }

  /** As written, the hexagonal neighborhood is not symmetric: (1, -1) is a neighbor of
      the origin, but the origin is not a neighbor of (1, -1). */
  lemma HexagonalAsWrittenAsymmetric()
    ensures (1, -1) in HexagonalNeighborsAsWritten((0, 0))
    ensures (0, 0) !in HexagonalNeighborsAsWritten((1, -1))
  {
    var r := HexagonalNeighborsAsWritten((0, 0));
    assert r[5] == (1, -1);
    var q := HexagonalNeighborsAsWritten((1, -1));
    assert q == [(2, -1), (2, 0), (1, 0), (0, -2), (1, -2), (2, -2)];
  }
}
