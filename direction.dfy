/** Facing on a two-dimensional map (the Direction classes of cage/cage.py): a facing
    index into a fixed list of offsets, turned by integer increments. */
module Direction {
  import opened Base
  import opened Topology
  import opened Bits

  /** CardinalDirection, OrdinalDirection and HexagonalDirection, told apart by their
      offset lists. */
  datatype Compass = Cardinal | Ordinal | Hexagonal {
    /** `OFFSETS`, indexed by facing. */
    function Offsets(): seq<Address> {
      match this
      case Cardinal => [(1, 0), (0, -1), (-1, 0), (0, 1)]
      case Ordinal => [(1, 0), (1, -1), (0, -1), (-1, -1), (-1, 0), (-1, 1), (0, 1), (1, 1)]
      case Hexagonal => [(1, 0), (1, 1), (0, 1), (-1, 0), (-1, -1), (0, -1)]
    }

    /** `DIRECTIONS == len(OFFSETS)`. */
    function Count(): (n: nat)
      ensures n == |Offsets()| && n > 0
    {
      match this
      case Cardinal => 4
      case Ordinal => 8
      case Hexagonal => 6
    }
  }

  /** `turn` on values: add the increment and, if that leaves `[0, n)`, reduce modulo `n`
      (Python's `%` by a positive modulus, like Dafny's, is never negative). */
  function Turned(facing: int, increment: int, n: nat): (r: int)
    requires n > 0
    ensures 0 <= r < n
    ensures r == (facing + increment) % n
  {
    var f := facing + increment;
    if f < 0 || f >= n then f % n else f
  }

  /** `advance` on values: one step along the offset for the facing, which is read as a
      Python index. */
  function Advanced(c: Compass, facing: int, location: Address): Address
    requires 0 <= facing + c.Count() && facing < c.Count()
  {
    var offset := PyIndex(c.Offsets(), facing);
    (location.0 + offset.0, location.1 + offset.1)
  }

  /** Where an agent stands and which way it faces. */
  datatype Pose = Pose(location: Address, facing: int)

  class Direction {
    const compass: Compass
    var facing: int

    /** `Direction(facing)`: any integer is accepted; only `turn` keeps it in range. */
    constructor (c: Compass, f: int)
      ensures compass == c && facing == f
    {
      compass, facing := c, f;
    }

    method Turn(increment: int)
      modifies this
      ensures facing == Turned(old(facing), increment, compass.Count())
    {
      facing := facing + increment;
      if facing < 0 || facing >= compass.Count() {
        facing := facing % compass.Count();
      }
    }

    /** `turnLeft`: one step counter-clockwise in the offset list. */
    method TurnLeft()
      modifies this
      ensures facing == Turned(old(facing), 1, compass.Count())
    {
      Turn(1);
    }

    method TurnRight()
      modifies this
      ensures facing == Turned(old(facing), -1, compass.Count())
    {
      Turn(-1);
    }

    function Offset(): Address
      reads this
      requires 0 <= facing + compass.Count() && facing < compass.Count()
    {
      PyIndex(compass.Offsets(), facing)
    }

    function Advance(location: Address): (r: Address)
      reads this
      requires 0 <= facing + compass.Count() && facing < compass.Count()
      ensures r == Advanced(compass, facing, location)
    {
      (location.0 + Offset().0, location.1 + Offset().1)
    }
  }

  // ---------------------------------------------------------------------------
  // Properties

  /** Turning left then right (or right then left) restores an in-range facing. */
  lemma TurnsCancel(facing: int, n: nat)
    requires 0 <= facing < n
    ensures Turned(Turned(facing, 1, n), -1, n) == facing
    ensures Turned(Turned(facing, -1, n), 1, n) == facing
  {
    TurnsCompose(facing, 1, -1, n);
    TurnsCompose(facing, -1, 1, n);
  }

  /** Turning by `k` and then by `j` is turning by `k + j`. */
  lemma TurnsCompose(facing: int, k: int, j: int, n: nat)
    requires n > 0
    ensures Turned(Turned(facing, k, n), j, n) == Turned(facing, k + j, n)
  {
    var a := facing + k;
    var q, r := a / n, a % n;
    assert facing + k + j == n * q + (r + j);
    var q2, r2 := (r + j) / n, (r + j) % n;
    assert facing + k + j == n * (q + q2) + r2;
    ModUnique(facing + k + j, n, q + q2, r2);
  }

  /** A full turn of `n` steps brings an in-range facing back. */
  lemma FullTurn(facing: int, n: nat)
    requires 0 <= facing < n
    ensures Turned(facing, n, n) == facing && Turned(facing, 0 - n, n) == facing
  {
    ModUnique(facing + n, n, 1, facing);
    ModUnique(facing - n, n, -1, facing);
  }

  /** Facing half a turn away points the opposite way, so advancing, turning round and
      advancing again comes back to the start. */
  lemma HalfTurnReverses(c: Compass, facing: int, location: Address)
    requires 0 <= facing < c.Count()
    ensures var back := Turned(facing, c.Count() / 2, c.Count());
            Advanced(c, back, Advanced(c, facing, location)) == location
  {
    var n := c.Count();
    var back := Turned(facing, n / 2, n);
    if facing + n / 2 < n {
      assert back == facing + n / 2;
    } else {
      ModUnique(facing + n / 2, n, 1, facing + n / 2 - n);
    }
  }

  /** Cardinal offsets are the four unit steps and ordinal offsets the eight king's moves,
      each listed once. */
  lemma CompassOffsetsDistinct(c: Compass)
    ensures forall i, j :: 0 <= i < j < c.Count() ==> c.Offsets()[i] != c.Offsets()[j]
    ensures forall i :: 0 <= i < c.Count() ==> c.Offsets()[i] != (0, 0)
  {
  }
}
