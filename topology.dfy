/** Grid shape and address normalization (the Topology classes of cage/cage.py).
    One-dimensional addresses are plain integers; two-dimensional ones are `(x, y)`. */
module Topology {
  import opened Base
  import Bits

  type Address = (int, int)

  /** The wrap-around step shared by CircleTopology and ToroidTopology: add or subtract
      the extent ONCE. It is a true reduction modulo the extent only for coordinates in
      `[-extent, 2 * extent)`; further out it leaves the coordinate out of range. */
  function Wrap(v: int, extent: nat): (r: int)
    ensures 0 <= v < extent ==> r == v
    ensures 0 <= v + extent && v < 2 * extent ==> 0 <= r < extent && r % extent == v % extent
    ensures r == v || r == v + extent || r == v - extent
  {
    if v < 0 then
      (if 0 <= v + extent then Bits.ModUnique(v, extent, -1, v + extent); Bits.ModUnique(v + extent, extent, 0, v + extent); v + extent else v + extent)
    else if v >= extent then
      (if v < 2 * extent then Bits.ModUnique(v, extent, 1, v - extent); Bits.ModUnique(v - extent, extent, 0, v - extent); v - extent else v - extent)
    else v
  }

  /** The one-dimensional topologies: LineTopology is bounded, CircleTopology wraps. */
  datatype LinearTopology = LineTopology(length: nat) | CircleTopology(length: nat) {

    predicate InRange(x: int) {
      0 <= x < length
    }

    /** `normalize`: a bounded line refuses out-of-range addresses with `None`;
        a circle always answers, folding the address once. */
    function Normalize(x: int): (r: Option<int>)
      ensures LineTopology? ==> (r.Some? <==> InRange(x))
      ensures CircleTopology? ==> r.Some?
      ensures InRange(x) ==> r == Some(x)
      ensures CircleTopology? && 0 <= x + length && x < 2 * length ==>
                InRange(r.value) && r.value % length == x % length
    {
      match this
      case LineTopology(_) => if x < 0 || x >= length then None else Some(x)
      case CircleTopology(_) => Some(Wrap(x, length))
    }

    /** `isNormalized`: normalizing leaves the address as it is. */
    predicate IsNormalized(x: int) {
      Normalize(x) == Some(x)
    }

    /** `center`: each extent floor-divided by two. */
    function Center(): (c: int)
      ensures length > 0 ==> InRange(c)
    {
      length / 2
    }

    /** Where `get` does not raise: everywhere on a bounded line (outside it yields the
        border), and on a circle wherever the folded address is a valid Python index. */
    predicate Readable(x: int) {
      LineTopology? || (0 <= Wrap(x, length) + length && Wrap(x, length) < length)
    }
  }

  /** The two-dimensional topologies: GridTopology is bounded, ToroidTopology wraps
      on both axes independently. The buffer is indexed `buffer[x][y]`. */
  datatype PlanarTopology = GridTopology(width: nat, height: nat) | ToroidTopology(width: nat, height: nat) {

    predicate InRange(a: Address) {
      0 <= a.0 < width && 0 <= a.1 < height
    }

    function Normalize(a: Address): (r: Option<Address>)
      ensures GridTopology? ==> (r.Some? <==> InRange(a))
      ensures ToroidTopology? ==> r.Some?
      ensures InRange(a) ==> r == Some(a)
      ensures ToroidTopology? && 0 <= a.0 + width && a.0 < 2 * width && 0 <= a.1 + height && a.1 < 2 * height ==>
                InRange(r.value) && r.value.0 % width == a.0 % width && r.value.1 % height == a.1 % height
    {
      match this
      case GridTopology(_, _) =>
        if a.0 < 0 || a.0 >= width || a.1 < 0 || a.1 >= height then None else Some(a)
      case ToroidTopology(_, _) => Some((Wrap(a.0, width), Wrap(a.1, height)))
    }

    predicate IsNormalized(a: Address) {
      Normalize(a) == Some(a)
    }

    function Center(): (c: Address)
      ensures width > 0 && height > 0 ==> InRange(c)
    {
      (width / 2, height / 2)
    }

    predicate Readable(a: Address) {
      GridTopology? ||
      (0 <= Wrap(a.0, width) + width && Wrap(a.0, width) < width &&
       0 <= Wrap(a.1, height) + height && Wrap(a.1, height) < height)
    }
  }

  // ---------------------------------------------------------------------------
  // Properties of normalization

  /** On every topology an address is normalized exactly when it is in range (for the
      wrapping kinds this needs a non-zero extent: on an empty circle every address folds
      onto itself). */
  lemma LinearNormalizedIff(t: LinearTopology, x: int)
    requires t.length > 0
    ensures t.IsNormalized(x) <==> t.InRange(x)
  {
  }

  lemma PlanarNormalizedIff(t: PlanarTopology, a: Address)
    requires t.width > 0 && t.height > 0
    ensures t.IsNormalized(a) <==> t.InRange(a)
  {
  }

  /** Normalization is idempotent wherever its result is in range. */
  lemma PlanarNormalizeIdempotent(t: PlanarTopology, a: Address)
    requires t.Normalize(a).Some? && t.InRange(t.Normalize(a).value)
    ensures t.Normalize(t.Normalize(a).value) == t.Normalize(a)
  {
  }

  /** Folding happens once per axis: a toroid of width 3 sends x = 15 to 12, which is still
      out of range, so `normalize((x + k * width, y)) == normalize((x, y))` fails for large
      k. The periodicity holds only inside `[-width, 2 * width)`. */
  lemma ToroidFoldsOnce()
    ensures ToroidTopology(3, 3).Normalize((15, 0)) == Some((12, 0))
    ensures ToroidTopology(3, 3).Normalize((15, 0)) != ToroidTopology(3, 3).Normalize((0, 0))
  {
  }

  /** Within one period on each side, shifting by the extent does not change the
      normalized address. */
  lemma {:induction false} ToroidPeriodic(t: PlanarTopology, a: Address, k: int)
    requires t.ToroidTopology? && t.InRange(a) && (k == -1 || k == 1)
    ensures t.Normalize((a.0 + k * t.width, a.1)) == t.Normalize(a)
    ensures t.Normalize((a.0, a.1 + k * t.height)) == t.Normalize(a)
  {
    if k == 1 {
      assert (a.0 + k * t.width, a.1) == (a.0 + t.width, a.1);
      assert (a.0, a.1 + k * t.height) == (a.0, a.1 + t.height);
    } else {
      assert (a.0 + k * t.width, a.1) == (a.0 - t.width, a.1);
      assert (a.0, a.1 + k * t.height) == (a.0, a.1 - t.height);
    }
  }
}
