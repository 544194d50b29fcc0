/** The one-dimensional totalistic rule explorer (cage/1dtotal.py): a bounded line of
    radius `r`, a table of `2r + 2` entries taken from the bits of the rule code, and a
    run that lasts half the line's length. */
module LinearTotal {
  import opened Base
  import opened Bits
  import opened Aggregate
  import opened Maps

  /** `populate`: one entry per possible inclusive sum of a two-state cell and its `2r`
      neighbors (`(2r + 1) + 1` sums), entry `i` being 1 when `code & (1 << i)` is set. */
  method Populate(code: int, radius: nat) returns (table: seq<int>)
    ensures |table| == 2 * radius + 2 && Binary(table)
    ensures forall i :: 0 <= i < |table| ==> table[i] == Bit(code, i)
    ensures table == BitsOf(code, 2 * radius + 2)
  {
    var sums := (2 * radius + 1) + 1;
    table := [];
    for i := 0 to sums
      invariant table == BitsOf(code, i)
    {
      if Bit(code, i) != 0 {
        table := table + [1];
      } else {
        table := table + [0];
      }
    }
  }

  /** Reading the table back as a binary number gives the code modulo `2^(2r + 2)`: the
      rule keeps exactly the low `2r + 2` bits of its code. */
  lemma TableKeepsLowBits(code: int, radius: nat)
    ensures Weighted(BitsOf(code, 2 * radius + 2)) == code % Pow2(2 * radius + 2)
  {
    BitsOfIsMod(code, 2 * radius + 2);
  }

  /** `rule`: `table[inclusiveSum(address)]`, a Python index. */
  function LinearTotalisticRule(table: seq<int>, m: LinearMap, x: int): int
    requires m.Valid() && m.ReadableAround(x) && m.radius > 0
    requires -|table| <= m.InclusiveSum(x) < |table|
  {
    PyIndex(table, m.InclusiveSum(x))
  }

  /** With two-state cells the inclusive sum is at most `2r + 1`, so it always indexes the
      table, and the new state is that bit of the code. */
  lemma TwoStateRule(code: int, m: LinearMap, x: int)
    requires m.Valid() && m.ReadableAround(x) && m.radius > 0 && m.CellsBelow(2)
    ensures 0 <= m.InclusiveSum(x) <= 2 * m.radius + 1
    ensures LinearTotalisticRule(BitsOf(code, 2 * m.radius + 2), m, x) == Bit(code, m.InclusiveSum(x))
  {
    LinearStatesBelow(m, x, 2);
    SumIsTotal(m.States(x));
    TotalBounds(m.States(x), 0, 1);
  }

  /** `running`: `generation < divmod(length, 2)[0]`. */
  predicate Running(generation: nat, length: nat) {
    generation < length / 2
  }

  /** The explorer runs while two more generations than already done still fit in the
      line: exactly `length div 2` generations in all. */
  lemma RunningIff(generation: nat, length: nat)
    ensures Running(generation, length) <==> 2 * (generation + 1) <= length
  {
  }
}
