# cage — a verified model of the cellular-automaton engine

`cage` is a small Python engine for cellular automata. A **map** is a topology (a bounded
line or grid, or a wrapping circle or toroid) combined with a neighborhood (null, radial,
von Neumann, Moore, hexagonal, knight's move). The map holds a buffer of integer cell
states; the grid buffer is indexed `buffer[x][y]`.

An **automaton** owns a map, a generation counter and a list of **agents**. Its update
comes in two kinds:

- synchronous: read the map, write every cell into a scratch map, then swap the two
  buffers;
- asynchronous: write every cell in place in x-outer, y-inner order.

After either update the generation goes up by one and every agent updates in list order.

The engine is used by a set of programs that supply a rule or an agent:

- rules: Brian's Brain, the cyclic automaton, the sugar (Belousov–Zhabotinsky) automaton,
  Packard's averaging rule, the rug rule, the one-dimensional totalistic rule, and the
  chain reaction;
- agents: the genome ant and Langton's vant.

This project models that engine and those programs in Dafny and proves their properties.
The modules follow the source:

| module | models |
|---|---|
| `Base` | Option / Result, and Python negative indexing (`PyIndex`) |
| `Bits` | powers of two, `n & (n-1)`, bit extraction, weighted bit lists |
| `Topology` | the four topologies, `normalize`, `isNormalized`, `center` |
| `Neighborhood` | the neighborhood offset lists and `neighbors` |
| `Aggregate` | the aggregate queries over a list of neighbor states |
| `Maps` | maps as values (`LinearMap`, `PlanarMap`) and as objects with a mutable buffer (`LinearCells` on an `array`, `PlanarCells` on an `array2`) |
| `Rules` | `ReductionRule`, `CodedTotalisticRule`, `LinearCodedRule` |
| `Brain`, `Cyclic`, `Sugar`, `Packard`, `Rug`, `LinearTotal` | the rule programs |
| `Direction` | compass directions, `turn` and `advance` |
| `Ant`, `Vant`, `Agents` | the two agent kinds, and one `Agent` class dispatching on its kind |
| `Schedule` | what one update computes, on values: the synchronous step and the asynchronous sweep |
| `Registry` | the agent list: `add`, `remove`, and running all agents in order |
| `Automaton` | the automaton classes with their buffers, `update`, `swap`, `add`, `remove` |
| `Chain` | the chain-reaction automaton of cage/chain.py |
| `Initializers` | `PointInitializer` and `PatternInitializer` |

Every imperative method is proved against a specification function on values:

- `SynchronousUpdate` leaves the map equal to `SyncStep(rule, old map)`.
- `AsynchronousUpdate` leaves it equal to the raster-order `Sweep`.
- `Between` leaves it equal to `Ignite`.
- The properties the source promises are then proved about those functions.

Where the code and its documentation differ, the model follows the code:

- `Neighborhood.countNonZero` is documented as "Count the number of neighbors with state
  zero" but counts the nonzero ones; the model counts nonzero ones.
- The named constants of `CardinalDirection` do not match its offsets, so facings are
  modelled by index only.

The one place where the model departs from the code is the sixth hexagonal neighbor,
which it corrects; the list as written is modelled beside it (see "## Findings").

## Model

| member | source | states |
|---|---|---|
| Base.PyIndex | cage/cage.py:552 | a Python index `s[i]` with `-len(s) <= i < len(s)` reads element `i mod len(s)` |
| Topology.Wrap | cage/cage.py:136-142 | one fold: an in-range value is unchanged; a value in `[-extent, 2·extent)` lands in `[0, extent)` congruent to it; the result is always the value, or the value plus or minus the extent |
| Topology.LinearTopology.Normalize | cage/cage.py:106-110 | a line answers exactly for in-range addresses; a circle always answers; an in-range address is returned unchanged; on a circle an address in `[-length, 2·length)` is folded into range, congruent to the input |
| Topology.LinearTopology.Center | cage/cage.py:74-77 | the center of a non-empty line is in range |
| Topology.PlanarTopology.Normalize | cage/cage.py:164-169 | a grid answers exactly for in-range addresses; a toroid always answers; an in-range address is returned unchanged; on a toroid each coordinate in `[-extent, 2·extent)` is folded into range, congruent to the input |
| Topology.PlanarTopology.Center | cage/cage.py:74-77 | the center of a non-empty grid or toroid is in range |
| Topology.LinearNormalizedIff | cage/cage.py:53-55 | on a non-empty line or circle, `isNormalized` holds exactly for in-range addresses |
| Topology.PlanarNormalizedIff | cage/cage.py:53-55 | on a non-empty grid or toroid, `isNormalized` holds exactly for in-range addresses |
| Topology.PlanarNormalizeIdempotent | cage/cage.py:197-207 | normalizing a normalized in-range address changes nothing |
| Topology.ToroidFoldsOnce | cage/cage.py:197-207 | the toroid folds only once: on a 3×3 toroid `(15, 0)` normalizes to `(12, 0)`, not to `(0, 0)` |
| Topology.ToroidPeriodic | cage/cage.py:197-207 | shifting an in-range address by one extent on either axis, in either direction, normalizes back to it |
| Neighborhood.PlanarNeighborhood.Neighbors | cage/cage.py:350-453 | `neighbors(a)` has exactly `neighborhood()` entries, all different, none equal to `a`, none further than the neighborhood's reach on either axis; the hexagonal list is the corrected one |
| Neighborhood.PlanarNeighborhood.OffsetsGood | cage/cage.py:383-453 | each offset list has the declared length, holds no zero offset and no duplicate, and stays within the reach; the hexagonal list is the corrected one |
| Neighborhood.GoodByPairs | cage/cage.py:383-453 | an offset list with each entry absent from the entries after it has no duplicate |
| Neighborhood.RadialNeighbors | cage/cage.py:364-372 | the radial list has `2·radius` entries in the order x+1, x−1, x+2, x−2, … |
| Neighborhood.RadialNeighborsWithinRadius | cage/cage.py:366-372 | `y` is a radial neighbor of `x` exactly when `1 <= abs(y−x) <= radius` |
| Neighborhood.VonNeumannIsManhattanOne | cage/cage.py:385-390 | `b` is a von Neumann neighbor of `a` exactly when their Manhattan distance is 1 |
| Neighborhood.MooreIsChebyshevOne | cage/cage.py:404-413 | `b` is a Moore neighbor of `a` exactly when `b != a` and their Chebyshev distance is 1 |
| Neighborhood.KnightsIsKnightMove | cage/cage.py:444-453 | `b` is a knight's neighbor of `a` exactly when it is one chess knight move away |
| Neighborhood.NeighborhoodSymmetric | cage/cage.py:383-453 | with the hexagonal list corrected, every neighborhood is symmetric: `b` is a neighbor of `a` exactly when `a` is a neighbor of `b` |
| Neighborhood.HexagonalAsWrittenGood | cage/cage.py:424-431 | the six hexagonal offsets as written are all different, none is zero, and none is more than one step away |
| Neighborhood.HexagonalNeighborsAsWritten | cage/cage.py:424-431 | hexagonal `neighbors(a)` as written has six entries, all different, none equal to `a`, none more than one step from `a` on either axis |
| Neighborhood.HexagonalCorrectionOnlySixth | cage/cage.py:424-431 | the corrected hexagonal neighbors agree with the written ones in their first five entries; the sixth is `(x − 1, y)` instead of `(x + 1, y − 1)` |
| Neighborhood.HexagonalAsWrittenAsymmetric | cage/cage.py:424-431 | with the hexagonal neighbors as written, `(1, −1)` is a neighbor of `(0, 0)`, but `(0, 0)` is not a neighbor of `(1, −1)` |
| Aggregate.FoldAddIsTotal | cage/cage.py:252-259 | folding `+` from an accumulator adds the list's total to it |
| Aggregate.Reduce | cage/cage.py:659-660 | Python's `reduce` without a seed: the first state starts a left fold; `Aggregate.FoldSnoc` states that each further state is one more application at the end |
| Aggregate.Sum | cage/cage.py:252-254 | `sum` is an unseeded `reduce(operator.add)`; `Aggregate.SumIsTotal` states that it is the total of the states |
| Aggregate.Total | cage/cage.py:252-259 | the arithmetic total that `sum` is compared with; `Aggregate.TotalAppend`, `Aggregate.TotalBounds` and `Aggregate.TotalConstant` state its properties |
| Aggregate.SumIsTotal | cage/cage.py:252-254 | `sum` (an unseeded reduce by `+`) is the total of the list |
| Aggregate.TotalAppend | cage/cage.py:256-259 | the total of a concatenation is the sum of the totals |
| Aggregate.TotalBounds | cage/cage.py:252-267 | if every state lies in `[lo, hi]`, the total lies in `[n·lo, n·hi]` |
| Aggregate.CountWith | cage/cage.py:306-312 | `countWith` never exceeds the number of neighbors |
| Aggregate.CountNonZero | cage/cage.py:291-297 | `countNonZero` never exceeds the number of neighbors |
| Aggregate.CountZeroNonZero | cage/cage.py:276-297 | `countZero + countNonZero` is the number of neighbors |
| Aggregate.HasWithIff | cage/cage.py:299-312 | `hasWith(s)` holds exactly when `s` occurs, exactly when `countWith(s) > 0` |
| Aggregate.HasNonZeroIff | cage/cage.py:284-297 | `hasNonZero` holds exactly when `countNonZero > 0`, exactly when some state is nonzero |
| Aggregate.FindFirstWith | cage/cage.py:314-321 | `findFirstWith` returns the least index holding the state, and `None` exactly when no neighbor holds it |
| Aggregate.FindAllWith | cage/cage.py:323-330 | `findAllWith` is strictly ascending and holds exactly the indexes whose state matches |
| Aggregate.FindAllCount | cage/cage.py:306-330 | `findAllWith` has exactly `countWith` entries |
| Aggregate.FindFirstIsHeadOfFindAll | cage/cage.py:314-330 | `findFirstWith` is `None` exactly when `findAllWith` is empty, and otherwise is its first entry |
| Maps.LinearMap.Get | cage/cage.py:112-117 | `get` reads the buffer at an in-range address and the border 0 outside a bounded line |
| Maps.LinearMap.States | cage/cage.py:243-245 | `states` has one entry per radial neighbor |
| Maps.LinearMap.InclusiveStates | cage/cage.py:247-250 | `inclusiveStates` is `states` followed by the cell's own state |
| Maps.LinearMap.InclusiveSum | cage/cage.py:256-259 | `inclusiveSum` is the total of `inclusiveStates`: the radial neighbors' states plus the cell's own |
| Maps.LinearMap.With | cage/cage.py:119-122 | `set` of an in-range address changes that cell to the state and no other cell |
| Maps.PlanarMap.Get | cage/cage.py:171-176 | `get` reads `buffer[x][y]` at an in-range address and the border 0 outside a bounded grid |
| Maps.PlanarMap.States | cage/cage.py:243-245 | `states` has one entry per neighbor |
| Maps.PlanarMap.InclusiveStates | cage/cage.py:247-250 | `inclusiveStates` has one more entry than `states`, and that last entry is the cell's own state |
| Maps.PlanarMap.NeighborSum | cage/cage.py:252-254 | `sum` is the total of the neighbor states |
| Maps.PlanarMap.InclusiveSum | cage/cage.py:256-259 | `inclusiveSum` is the total of `inclusiveStates`: the neighbor states plus the cell's own |
| Maps.PlanarMap.Average | cage/cage.py:261-263 | `average` is `sum` floored over the neighbor count `n`: `n·r <= sum < n·(r+1)` |
| Maps.PlanarMap.InclusiveAverage | cage/cage.py:265-267 | `inclusiveAverage` is `inclusiveSum` floored over `n + 1`: `(n+1)·r <= inclusiveSum < (n+1)·(r+1)` |
| Maps.PlanarMap.With | cage/cage.py:178-182 | `set` of an in-range address changes that cell to the state and no other cell |
| Maps.BlankLinear | cage/cage.py:101-104 | a fresh line holds the background 0 in every cell |
| Maps.BlankPlanar | cage/cage.py:157-162 | a fresh grid has `width` columns of `height` cells, each 0 |
| Maps.ToroidGetIsModular | cage/cage.py:209-211 | on a toroid, `get` of an address within two extents either way reads the buffer at the address modulo the extents |
| Maps.CircleGetIsModular | cage/cage.py:144-146 | on a circle, `get` of an address within two lengths either way reads the buffer at the address modulo the length |
| Maps.ReadableAroundInRange | cage/cage.py:171-176 | every neighbor of an in-range cell can be read when the map is at least as wide and as high as the neighborhood's reach |
| Maps.LinearReadableAroundInRange | cage/cage.py:112-117 | every radial neighbor of an in-range cell can be read when the line is at least as long as the radius |
| Maps.BoundedBorderIsZero | cage/cage.py:164-176 | on a grid, an out-of-range address does not normalize, and `get` of it yields 0 |
| Maps.LinearStatesOrder | cage/cage.py:243-245 | entry `2i` of `states` is the cell at `x+i+1`, and entry `2i+1` is the cell at `x−i−1` |
| Maps.StatesBelow | cage/cage.py:243-245 | if every cell is in `[0, k)`, then so are the cell and all its neighbor states |
| Maps.WithThenGet | cage/cage.py:171-182 | after `set(a, v)`, `get(a)` yields `v` and every other in-range `get` is unchanged |
| Maps.PlanarCells.constructor | cage/cage.py:157-162 | a new grid buffer is all zeros |
| Maps.PlanarCells.Clone | cage/cage.py:484-516 | `clone` gives a fresh map of the same topology and neighborhood, with a new all-zero buffer |
| Maps.PlanarCells.Get | cage/cage.py:171-176 | reading the array agrees with `get` on the map's value |
| Maps.PlanarCells.Set | cage/cage.py:178-182 | `set` of an in-range address writes that array cell in place and no other, keeping the same buffer |
| Maps.LinearCells.Clone | cage/cage.py:468-482 | `clone` gives a fresh line of the same topology and radius, all zero |
| Maps.LinearCells.Set | cage/cage.py:119-122 | `set` of an in-range address writes that cell in place and no other |
| Bits.PowerCheckIff | cage/ant.py:95-96 | `n & (n−1) == 0` holds exactly for 0 and the powers of two |
| Bits.PowerCheckPositive | cage/ant.py:95-96 | for `n >= 1`, `n & (n−1) == 0` holds exactly when `n` is a power of two |
| Bits.AndMaskIsMod | cage/ant.py:119-132 | `n & (2^k − 1)` is `n mod 2^k` |
| Bits.BitsOfIsMod | cage/1dtotal.py:28-34 | the low `n` bits of a code, weighted, give back the code modulo `2^n` |
| Bits.WeightedBound | cage/cage.py:728-740 | a list of `n` binary digits weighs less than `2^n` |
| Bits.WeightedUnique | cage/cage.py:728-740 | two binary lists of equal length and equal weight are equal |
| Bits.BitsOfWeighted | cage/cage.py:728-740 | decoding a binary list's weight back to bits gives the list |
| Rules.ReductionByAddIsTotal | cage/cage.py:651-660 | `ReductionRule(operator.add)` is the neighbor total, which is `sum` |
| Rules.ReductionRule | cage/cage.py:651-660 | `reduce(function, states(a))`; `Rules.ReductionByAddIsTotal` states that with `+` it is the neighbor total |
| Rules.Split | cage/cage.py:681 | `split` gives at least one part, and no part contains the separator |
| Rules.JoinSplit | cage/cage.py:681 | joining the parts of a split with the separator gives back the string |
| Rules.SplitCount | cage/cage.py:681 | a split has one more part than there are separators |
| Rules.StripPrefix | cage/cage.py:682-688 | the optional `B`/`S` prefix is dropped or the part is kept unchanged |
| Rules.ParseTotals | cage/cage.py:684-691 | the loop maps each character to its digit value, as `Totals` does |
| Rules.ParseRule | cage/cage.py:678-692 | the method returns what `RuleCode` defines: unpacking fails unless there is exactly one `/`, and an empty part fails at `[0]` |
| Rules.RuleCodeSlashCount | cage/cage.py:681 | parsing fails on the unpacking exactly when the string does not hold exactly one `/` |
| Rules.FormatThenParse | cage/cage.py:678-692 | parsing the standard `born/stay` notation of any digit lists gives back those lists |
| Rules.ConwayCode | cage/cage.py:909-914 | `"3/23"` parses to `([3], [2, 3])`, the code `ConwayAutomaton` hard-codes |
| Rules.HighLifeCode | cage/cage.py:909-914 | `"B36/S23"` parses to `([3, 6], [2, 3])`, the HighLife code |
| Rules.MalformedRules | cage/cage.py:678-692 | `"323"` and `"3/2/3"` fail on the unpacking, and `"/23"` fails on the empty part |
| Rules.MarkSpec | cage/cage.py:706-709 | marking a row succeeds exactly when every total is a valid Python index, and then an entry is 1 exactly when some total indexes it; otherwise it is left unchanged |
| Rules.TotalisticTableSpec | cage/cage.py:694-709 | `populate` succeeds exactly when all totals index a row of `neighborhood()+1` entries; `table[0][n]` is 1 exactly when `n` is a born total, `table[1][n]` exactly when it is a stay total, and every other entry is 0 |
| Rules.TotalisticTable | cage/cage.py:694-709 | the table that `clear` and `populate` build; `Rules.TotalisticTableSpec` states when it exists and what each entry holds |
| Rules.MarkRow | cage/cage.py:706-709 | the marking loop computes `Mark` |
| Rules.PopulateTotalistic | cage/cage.py:694-709 | the `clear`-then-mark loops compute `TotalisticTable` |
| Rules.TwoStateSum | cage/cage.py:711-712 | on a two-state map, the cell is 0 or 1 and the neighbor sum lies in `[0, neighborhood()]` |
| Rules.TotalisticRule | cage/cage.py:711-712 | `table[get(a)][sum(a)]`, both Python indexes; `Rules.TotalisticRuleIsBornStay` states that on a two-state map it is the born/stay rule |
| Rules.TotalisticRuleIsBornStay | cage/cage.py:711-712 | on a two-state map, `rule(a) = table[get(a)][sum(a)]` is in range, and is 1 exactly when a dead cell's sum is a born total or a live cell's sum is a stay total |
| Rules.LifeRule | cage/cage.py:905-914 | Conway's automaton: a dead cell with 3 live neighbors is born, a live cell with 2 or 3 survives, and every other cell dies |
| Rules.LinearTable | cage/cage.py:728-740 | `table[l][c][r]` is bit `4r + 2c + l` of the code |
| Rules.PopulateLinearCoded | cage/cage.py:728-740 | the triple loop builds exactly `LinearTable(code)` |
| Rules.FlattenLinearTable | cage/cage.py:728-740 | the table, read in loop order, is the low 8 bits of the code |
| Rules.EncodeLinearTable | cage/cage.py:728-740 | re-encoding the table gives `code mod 256` |
| Rules.LinearTableOfEncode | cage/cage.py:728-740 | every 2×2×2 binary table is the table of its own code |
| Rules.FlattenInjective | cage/cage.py:728-740 | two tables read the same in loop order only if they are equal |
| Rules.LinearCodedReads | cage/cage.py:742-744 | the unpacking of `inclusiveStates` into `left, right, this` indexes `table[s(x+1)][s(x)][s(x−1)]` |
| Rules.LinearCodedRule | cage/cage.py:742-744 | `table[left][this][right]` over the unpacked `inclusiveStates`; `Rules.LinearCodedReads` and `Rules.LinearCodedIsElementary` state which bit of the code it reads |
| Rules.LinearCodedIsElementary | cage/cage.py:728-744 | the new state of cell `x` is bit `4·s(x−1) + 2·s(x) + s(x+1)` of the code |
| Brain.BrainRule | cage/brain.py:24-36 | the output is in `[0, 3)`; a quiescent cell fires exactly when two neighbors fire and otherwise stays quiescent; firing becomes refractory; refractory becomes quiescent |
| Brain.FiringThenRests | cage/brain.py:31-34 | a firing cell is refractory one step later and quiescent two steps later |
| Cyclic.Successor | cage/cyclic.py:27-30 | the successor state is `(state+1) mod 7` and stays in `[0, 7)` |
| Cyclic.CyclicRule | cage/cyclic.py:26-34 | the cell advances to its successor exactly when some neighbor holds the successor |
| Cyclic.CyclicStep | cage/cyclic.py:26-34 | each step a cell stays or advances by exactly one modulo 7, advancing exactly when the successor is among its neighbor states; outputs stay in `[0, 7)` |
| Sugar.SugarRule | build/lib/cage/sugar.py:25-38 | a sick cell becomes healthy, and an ill result never exceeds `SICK` |
| Sugar.SugarBounds | build/lib/cage/sugar.py:25-38 | on a Moore map every output is in `[0, 100)`; healthy cells give at most 6, and ill cells at least 15 |
| Sugar.HealthyCell | build/lib/cage/sugar.py:28-30 | a healthy cell becomes `countNonZero div 2 + countWith(SICK) div 3`, which is at most 6 |
| Sugar.IllAtLeast | build/lib/cage/sugar.py:33-35 | the ill-cell quotient is non-negative, because its divisor is at least 1 |
| Packard.PackardIsInclusiveAverage | build/lib/cage/packard.py:24-25 | on a Moore map the rule `inclusiveSum div 9` is `inclusiveAverage` |
| Packard.PackardRule | build/lib/cage/packard.py:24-25 | `divmod(inclusiveSum, 9)[0]`; `Packard.PackardIsInclusiveAverage`, `Packard.PackardBounds` and `Packard.PackardUniform` state its properties |
| Packard.PackardBounds | build/lib/cage/packard.py:19-25 | if all cells are in `[0, 256)`, so is the output |
| Packard.PackardUniform | build/lib/cage/packard.py:25 | a cell whose whole 3×3 block holds `v` keeps `v` |
| Rug.RugRule | build/lib/cage/rug.py:24-25 | the output `(average+1) mod 26` is always in `[0, 26)` |
| Rug.RugUniform | build/lib/cage/rug.py:24-25 | if all eight neighbors hold `v`, the result is `(v+1) mod 26`; an all-zero neighborhood gives 1 |
| LinearTotal.Populate | cage/1dtotal.py:28-34 | the table has exactly `2r+2` entries, and entry `i` is bit `i` of the code, 0 or 1 |
| LinearTotal.TableKeepsLowBits | cage/1dtotal.py:28-34 | the table, weighted, is the code modulo `2^(2r+2)` |
| LinearTotal.LinearTotalisticRule | cage/1dtotal.py:36-37 | `table[inclusiveSum(x)]`; `LinearTotal.TwoStateRule` states that on 0/1 cells it is bit `inclusiveSum` of the code |
| LinearTotal.TwoStateRule | cage/1dtotal.py:36-37 | with 0/1 cells, `inclusiveSum` lies in `[0, 2r+1]`, so the table index is in range, and the new state is bit `inclusiveSum` of the code |
| LinearTotal.RunningIff | cage/1dtotal.py:25-26 | `generation < length div 2` holds exactly when `2·(generation+1) <= length` |
| Direction.Compass.Count | cage/cage.py:566-591 | `DIRECTIONS` is the length of `OFFSETS` and is positive |
| Direction.Turned | cage/cage.py:541-545 | the new facing is `(facing + increment) mod DIRECTIONS` and lies in `[0, DIRECTIONS)` |
| Direction.Direction.Turn | cage/cage.py:541-545 | `turn` sets the facing field to the turned facing |
| Direction.Direction.TurnLeft | cage/cage.py:547 | `turnLeft` turns by +1 |
| Direction.Direction.TurnRight | cage/cage.py:548 | `turnRight` turns by −1 |
| Direction.Direction.Advance | cage/cage.py:554-559 | `advance` adds the offset of the current facing to the location |
| Direction.TurnsCancel | cage/cage.py:547-548 | a left turn and a right turn cancel, in either order |
| Direction.TurnsCompose | cage/cage.py:541-545 | two turns compose into one turn by the sum of the increments |
| Direction.FullTurn | cage/cage.py:541-545 | turning by `DIRECTIONS` either way restores the facing |
| Direction.HalfTurnReverses | cage/cage.py:554-591 | advancing, turning half way round, and advancing again returns to the start, for every compass |
| Direction.CompassOffsetsDistinct | cage/cage.py:566-590 | each compass's offsets are different, and none is zero |
| Ant.Gene.constructor | cage/ant.py:63-68 | a fresh gene is `colors × states` and all zeros |
| Ant.Gene.Set | cage/ant.py:75-78 | `set` at an in-range color and state replaces exactly that entry |
| Ant.Gene.Randomize | cage/ant.py:80-83 | after `randomize(values)`, every entry is in `[0, values)` |
| Ant.Genome.constructor | cage/ant.py:94-101 | a genome needs counts that pass `n & (n−1) == 0`, and starts with three all-zero genes |
| Ant.Genome.Tables | cage/ant.py:94-101 | the genome's three genes, as values, have the genome's dimensions |
| Ant.Genome.Randomize | cage/ant.py:103-106 | after `randomize`, color entries are below `colors`, state entries below `states`, and actions below 4 |
| Ant.ColorIsMasked | cage/ant.py:119-132 | for a power-of-two color count, `cell & colorMask` is `cell mod colors` |
| Ant.MaskedCellBits | cage/ant.py:138-140 | the written cell keeps the bits above the mask, and its low bits equal the new color |
| Ant.MaskedCell | cage/ant.py:139-140 | the new cell: the bits of `cell` above `colorMask`, with `newColor` in the low bits; `Ant.MaskedCellBits` states that it keeps the high bits and puts the new color in the low bits |
| Ant.Act | cage/ant.py:145-154 | only the four known action codes succeed, only ADVANCE moves the ant, and ADVANCE keeps its facing; `Ant.ActEffect` gives each action's effect |
| Ant.AntStep | cage/ant.py:128-154 | a successful update keeps the map's shape and leaves the ant in a valid state; `Ant.AntStepEffect` states what it changed |
| Ant.AntStepEffect | cage/ant.py:128-154 | only the pre-move cell changes, keeping its high bits, with its low bits set to the color gene; the new state is the state gene and is in `[0, states)`; the pose is the action's effect |
| Ant.ActEffect | cage/ant.py:145-154 | NONE changes nothing; LEFT gives `(facing+1) mod 8`; RIGHT gives `(facing−1) mod 8`; ADVANCE adds the ordinal offset and re-normalizes on the toroid, staying in range; any other code fails |
| Ant.AntStepKeepsWellPlaced | cage/ant.py:128-154 | an ant on a toroid, with a randomized genome and a state in range, never fails a step and stays so |
| Vant.Flipped | cage/vant.py:40 | `not state` is 1 exactly when the state is 0, and 0 otherwise |
| Vant.VantStep | cage/vant.py:33-41 | a successful update keeps the map's shape; `Vant.VantStepEffect` states what it changed |
| Vant.VantStepEffect | cage/vant.py:33-41 | the facing becomes `(facing−1) mod 4` on a nonzero cell and `(facing+1) mod 4` otherwise; the pre-move cell is flipped and no other cell changes; the vant moves one cardinal offset, normalized |
| Vant.VantTurns | cage/vant.py:36-39 | the vant's turn keeps its facing in `[0, 4)` |
| Vant.VantStaysOnTorus | cage/vant.py:29-31 | on a toroid a vant in range always steps, and stays in range |
| Vant.VantKeepsTwoStates | cage/vant.py:40 | a two-state map stays two-state after a vant step |
| Agents.AgentStep | cage/cage.py:615 | an agent's `update` keeps its kind and the map's shape; a vant's internal state is unchanged |
| Agents.Agent.NewAnt | cage/ant.py:113-119 | an ant starts with its genome, location, ordinal facing and state |
| Agents.Agent.NewVant | cage/vant.py:22-24 | a vant starts at its location, or at `(0, 0)` when none is given, with a cardinal facing |
| Agents.Agent.Update | cage/cage.py:615 | `update` changes the agent and the map to what `AgentStep` gives |
| Agents.Agent.Advance | cage/ant.py:121-126 | `advance` moves the location to the normalized next location and keeps facing and state |
| Agents.Agent.UpdateAnt | cage/ant.py:128-154 | an ant's `update` writes the cell, its state, its facing and its location as `AntStep` gives |
| Agents.Agent.UpdateVant | cage/vant.py:33-41 | a vant's `update` writes the cell, its facing and its location as `VantStep` gives |
| Registry.IndexOf | cage/cage.py:789-792 | the first index holding the agent |
| Registry.RemoveFirst | cage/cage.py:789-792 | `list.remove` deletes one entry |
| Registry.RemoveFirstSplices | cage/cage.py:789-792 | `list.remove` deletes the first occurrence and keeps the rest in order |
| Registry.DistinctIffPairwise | cage/cage.py:784-792 | a list is duplicate-free exactly when no two positions hold the same agent |
| Registry.AppendKeepsDistinct | cage/cage.py:784-787 | appending an absent agent keeps the list duplicate-free, with the old list as its prefix |
| Registry.RemoveKeepsDistinct | cage/cage.py:789-792 | removing a present agent keeps the list duplicate-free and in order, removes that agent, keeps every other one, and removes exactly one copy |
| Registry.AddThenRemove | cage/cage.py:784-792 | removing an agent just added restores the list |
| Registry.AgentsRun | cage/cage.py:773-777 | running the agents in order keeps their number, their kinds and the map's shape |
| Registry.AgentsRunPrefix | cage/cage.py:776-777 | if the whole run succeeds, every prefix does, with the same agent results |
| Registry.RunStep | cage/cage.py:776-777 | a run of `i+1` agents is the run of the first `i` followed by agent `i` on the map they left |
| Registry.VantsOnTorusRun | cage/vant.py:53-58 | vants on a toroid always run, and all stay in range |
| Schedule.RuleFn | cage/cage.py:646-647 | the bound rule is defined wherever the rule applies, and equals it there |
| Schedule.Apply | cage/cage.py:646-647 | `rule(a)` of the automaton's rule kind; `Schedule.RuleFn` states that the bound rule equals it wherever it applies |
| Schedule.SyncStep | cage/cage.py:853-865 | every cell of the new map is the rule evaluated on the old map |
| Schedule.LinearSyncStep | cage/cage.py:855-859 | on a line, every new cell is the rule evaluated on the old line |
| Schedule.RasterOrderContents | cage/cage.py:832-833 | the x-outer, y-inner order has `w·h` entries and holds exactly the in-range addresses |
| Schedule.SyncOrderFree | cage/cage.py:853-865 | writing the rule values of the old map in any order that covers every cell gives the synchronous step: the result does not depend on visit order |
| Schedule.RasterOrderCovers | cage/cage.py:861-865 | the source's x-outer, y-inner order is one such order |
| Schedule.Sweep | cage/cage.py:831-836 | the asynchronous sweep keeps the map's shape |
| Schedule.SweepPrefix | cage/cage.py:831-836 | a sweep that succeeds succeeds on every prefix of its order |
| Schedule.SweepStep | cage/cage.py:834-836 | each cell of the sweep is computed from the map as updated so far |
| Schedule.SweepAppend | cage/cage.py:831-836 | sweeping two orders one after another is sweeping their concatenation |
| Schedule.SweepOrderMatters | cage/cage.py:813-836 | the asynchronous result depends on visit order, and differs from the synchronous step: with the reduction by `+` on a two-cell grid, `[1, 2]` sweeps to `[2, 2]` or `[1, 1]`, while the synchronous step gives `[2, 1]` |
| Schedule.VonNeumannSum | cage/cage.py:385-390 | on a 2×1 grid, each cell's von Neumann total is the other cell |
| Automaton.UpdateAgents | cage/cage.py:776-777 | the agents update in list order, ending at what `AgentsRun` gives |
| Automaton.UpdateAgent | cage/cage.py:777 | updating agent `i` changes that agent and the map, and no other agent |
| Automaton.ComputeInto | cage/cage.py:860-865 | writing every rule value into the scratch map gives the synchronous step and leaves the map unchanged |
| Automaton.ComputeColumn | cage/cage.py:861-865 | one column of the scratch map is written, and the others are untouched |
| Automaton.SweepInPlace | cage/cage.py:831-836 | the in-place x-outer, y-inner loop leaves the map equal to the raster-order sweep |
| Automaton.SweepColumn | cage/cage.py:833-836 | the inner loop sweeps one column |
| Automaton.SweepCell | cage/cage.py:834-836 | one cell is computed from the map as updated so far |
| Automaton.PlanarAutomaton.constructor | cage/cage.py:762-767 | a new automaton starts at generation 0 with no agents; a synchronous one also gets its own scratch map (`clone`, cage/cage.py:851) |
| Automaton.PlanarAutomaton.Add | cage/cage.py:784-787 | `add` needs the agent to be absent and appends it; the list stays duplicate-free |
| Automaton.PlanarAutomaton.Remove | cage/cage.py:789-792 | `remove` needs the agent to be present and deletes it; every other agent stays |
| Automaton.PlanarAutomaton.AdvanceGeneration | cage/cage.py:773-777 | `Automaton.update` adds 1 to the generation and runs the agents in order |
| Automaton.PlanarAutomaton.Compute | cage/cage.py:853-865 | the loops write the synchronous step into the scratch map, leaving the map, agents and generation alone |
| Automaton.PlanarAutomaton.Swap | cage/cage.py:871-873 | `swap` exchanges the two buffer references, with no copy |
| Automaton.PlanarAutomaton.SynchronousUpdate | cage/cage.py:853-873 | the synchronous update makes the map the synchronous step of the old map, swaps the buffers and adds 1 to the generation; the scratch map is left holding the previous generation, and then the agents run |
| Automaton.PlanarAutomaton.SweepCells | cage/cage.py:831-836 | the in-place loops make the map the raster-order sweep |
| Automaton.PlanarAutomaton.AsynchronousUpdate | cage/cage.py:824-839 | the asynchronous update makes the map the raster-order sweep, adds 1 to the generation, and then the agents run |
| Automaton.SnapshotIs | cage/cage.py:871-873 | a buffer that agrees with a map cell by cell snapshots to that map's buffer |
| Automaton.LinearComputeInto | cage/cage.py:855-859 | on a line, the loop writes the synchronous step into the scratch line |
| Automaton.LinearComputeCell | cage/cage.py:857-859 | one cell of the scratch line is written, and the others are untouched |
| Automaton.LinearAutomaton.constructor | cage/cage.py:849-851 | a new line automaton starts at generation 0 with its own scratch line |
| Automaton.LinearAutomaton.Coded | cage/cage.py:917-924 | `LinearCodedAutomaton(size, code)` is a bounded radius-1 line, all zero, with the table of the code |
| Automaton.LinearAutomaton.Totalistic | cage/1dtotal.py:19-23 | `LinearTotalisticAutomaton(size, k, r, code)` is a bounded radius-`r` line, all zero, with the `2r+2`-bit table of the code |
| Automaton.LinearAutomaton.Running | cage/1dtotal.py:25-26 | a totalistic line runs exactly while `2·(generation+1) <= length`; every other automaton always runs (cage/cage.py:769-771) |
| Automaton.LinearAutomaton.Update | cage/cage.py:853-873 | the line's synchronous update makes the line the synchronous step, swaps the buffers and adds 1 to the generation |
| Chain.ChainRule | cage/chain.py:39-44 | the result is never FIRING; it differs from the cell only when a FIRING cell becomes FIRED; states stay in `[0, 3)` |
| Chain.Shifted | cage/chain.py:54-57 | particle `i` is the address plus offset `i` |
| Chain.Draw | cage/chain.py:46-57 | one outcome of `fire`'s draws; `Chain.DrawNear` states that it throws none or `PARTICLES` particles near the cell |
| Chain.Fires | cage/chain.py:39-42 | `rule` fires at a cell exactly when it holds FIRING; `Chain.SparksNear` states that every particle comes from such a cell |
| Chain.Sparks | cage/chain.py:39-57 | the particles one pass throws, in visit order; `Chain.SparksSnoc` and `Chain.SparksNear` state their order and origin |
| Chain.Burnt | cage/chain.py:39-44 | every FIRING cell becomes FIRED, and every other cell is unchanged |
| Chain.Ignite | cage/chain.py:59-63 | `between` keeps the map's shape |
| Chain.ChainAutomaton.constructor | cage/chain.py:35-37 | a chain automaton starts on an all-zero toroid with no neighborhood, no particles, and generation 0 |
| Chain.ChainAutomaton.Fire | cage/chain.py:46-57 | `fire` appends the address shifted by each drawn offset |
| Chain.ChainAutomaton.Rule | cage/chain.py:39-44 | `rule` returns `ChainRule`, leaves the map alone, and fires particles exactly when the cell is FIRING |
| Chain.ChainAutomaton.Visit | cage/cage.py:834-836 | one asynchronous cell visit burns that cell and fires its particles when it was FIRING |
| Chain.ChainAutomaton.UpdateColumn | cage/cage.py:833-836 | one column of the asynchronous pass burns its cells and collects their particles |
| Chain.ChainAutomaton.Update | cage/cage.py:824-839 | one asynchronous pass burns every FIRING cell, equals the raster-order sweep of `rule`, appends the particles of every FIRING cell in visit order, and adds 1 to the generation |
| Chain.ChainAutomaton.Between | cage/chain.py:59-64 | `between` ignites the queued particles in order, as `Ignite` does, then empties the list |
| Chain.IgnitePrefix | cage/chain.py:60-63 | if igniting a list succeeds, igniting any prefix of it succeeds |
| Chain.IgniteEffect | cage/chain.py:59-63 | after `between`, a cell is FIRING exactly when it was CHARGED and some particle normalizes to it; every other cell is unchanged |
| Chain.HitSnoc | cage/chain.py:60-61 | a cell is hit by a list exactly when it is hit by the list without its last particle, or by that last one |
| Chain.IgniteTargetsOnly | cage/chain.py:59-63 | igniting two lists with the same particles gives the same map, so duplicates and order are harmless |
| Chain.SameHits | cage/chain.py:60-61 | lists with the same particles hit the same cells |
| Chain.IgniteDefined | cage/chain.py:60-63 | particles within one extent of the toroid never make `between` fail |
| Chain.DrawNear | cage/chain.py:46-57 | `fire` appends 0 or `PARTICLES` addresses, each within `RADIUS` of the firing cell on both axes and never the cell itself |
| Chain.SparksNear | cage/chain.py:39-57 | every particle of a pass comes from `fire` at a FIRING cell of the pass, and is near that cell |
| Chain.UpdateThenBetween | cage/chain.py:59-64 | on a toroid of at least `RADIUS × RADIUS`, `between` after an update never fails, given in-window queued particles |
| Chain.AllInWindow | cage/chain.py:46-61 | queued particles and new sparks all lie where one fold normalizes them |
| Chain.NearInWindow | cage/chain.py:46-61 | a spark near an in-range cell lies where one fold normalizes it |
| Chain.SweepBurns | cage/cage.py:831-836 | sweeping `rule` over duplicate-free in-range addresses burns exactly the visited cells |
| Chain.SweepBurnsNext | cage/cage.py:834-836 | visiting one more unvisited cell burns it too |
| Chain.SweepLast | cage/cage.py:834-836 | the last cell of a sweep is burnt from the map as updated so far |
| Chain.BurnsCell | cage/cage.py:834-836 | burning one cell leaves every other cell as it was |
| Chain.RasterOrderDistinct | cage/cage.py:832-833 | the x-outer, y-inner order visits no cell twice |
| Chain.ChainSweep | cage/cage.py:824-836 | one asynchronous pass of `rule` turns every FIRING cell into FIRED and changes nothing else, as `rule` writes only its own cell |
| Chain.BurntHasNoFiring | cage/chain.py:39-44 | after a pass no cell is FIRING |
| Chain.SweptAll | cage/cage.py:832-836 | when both loops finish, the map is burnt |
| Initializers.InitializePoint | cage/cage.py:955-960 | a point initializer sets its address, or else the map's center, to its state; every other cell stays |
| Initializers.InitializeLinearPoint | cage/cage.py:955-960 | the same on a line |
| Initializers.CenterBalanced | cage/cage.py:74-77 | `center` of a non-empty grid is in range, with as many cells before it as after it, or one more before |
| Initializers.PointSetsCenter | cage/cage.py:950-960 | with no address, a point initializer on a non-empty map sets the center cell and no other |
| Initializers.Grafted | cage/cage.py:1033-1043 | what the grafted map looks like: cells under the pattern read the pattern, and the rest read the old map |
| Initializers.PatternInitializer.constructor | cage/cage.py:1024-1031 | the initializer's height is the number of rows, and its width is the longest row |
| Initializers.PatternInitializer.Offset | cage/cage.py:1033-1037 | the offset places the pattern inside the map, with margins on each axis equal or one larger after |
| Initializers.PatternInitializer.Initialize | cage/cage.py:1033-1043 | the pattern must fit; every pattern cell is `set` at the centering offset, and no other cell changes |
| Initializers.Widest | cage/cage.py:1026-1030 | the length of the longest row, or 0 when there are no rows |
| Initializers.GraftedReads | cage/cage.py:1038-1043 | after `initialize`, `get(left+x, bottom+y)` reads cell `x` of row `y`, and every cell outside the pattern reads as before |

## Left out

- Players: `TextPlayer`, `LinePlayer`, `CursesPlayer` and `ImagePlayer` (cage/cage.py:1067-1281). They are terminal and image I/O.
- Randomness:
  - `Topology.random` and `Neighborhood.randomState`, which are random draws.
  - `RandomInitializer` and `SeedInitializer`, which use random draws with floating-point frequencies.
  - cage/stepping.py, whose rule is a random draw.
- `Ant.Gene.Randomize`, `Ant.Genome.Randomize`: `random.randrange` becomes a nondeterministic choice, stated only as "every entry is below `values`".
- `Chain.ChainAutomaton.Fire`:
  - The random draw becomes the offset list `d`, from a `draw` parameter that every update receives.
  - `Draw` states the bounds the source guarantees: 0 or `PARTICLES` offsets, each within `RADIUS`, none zero.
  - `FIRE_PROBABILITY` (a float) is not modelled; it only decides whether the list is empty.
- `StringInitializer` (cage/cage.py:1046-1064) is not part of this model. It parses a picture string into a pattern; `PatternInitializer` is modelled.
- `Topology.reset` is not modelled. It is `set` of the background state 0.
- The `NotImplementedError` guards and the mixin class hierarchy become closed datatypes: topology kind, neighborhood, rule kind, agent kind and automaton discipline.
- The demo `main` programs and setup.py only wire pieces together or call `curses`. cage/1d.py's `running` is the same predicate as cage/1dtotal.py:25-26.
- The asynchronous update and agents on one-dimensional maps are not modelled. The repository has no one-dimensional asynchronous automaton and no one-dimensional agents.
- `Automaton.between` and `Agent.between` are left out, because both agent kinds inherit the empty `between`. The chain automaton's `between` is modelled.
- `vant.Map.clone` fails on purpose and is not modelled. `PlanarAutomaton` clones the map only for the `Synchronous` discipline, so agent-only and asynchronous automata have no scratch map (`workCells == null`).
- The wiring constructors `TwoStateAutomaton`, `TwoStateReductionAutomaton`, `TwoStateTotalisticAutomaton` and `ConwayAutomaton` are not modelled as separate classes. Their rule codes are covered by `Rules.ConwayCode`, `Rules.HighLifeCode` and `Rules.LifeRule`.
- Rules become function values
  - The rule is passed to the automaton as a `CellRule` function value, defined where evaluating it does not raise.
  - The preconditions of an update ask that the rule is defined at every cell. For example, Brian's Brain must see one of its three states, and every table index must be in range.
  - These are the cases where the source raises `AssertionError` or `IndexError`.
- Agents hold state by value:
  - An agent's genes are held by value (`Ant.Genes`), not as shared `Gene` objects.
  - The agent's `Direction` object is folded into its `facing` field.
- Failures become `None`. An ant whose genome tables are malformed or whose action code is unknown gives `None` where the source raises.
- `Ant.AntStep`: an advance off a bounded grid gives `None` for that whole step. The source first writes the cell and the state, stores the location `None`, and fails at the next update's `get`. So that last step's cell write and state change are not modelled, and, since `Registry.AgentsRun` then gives `None`, neither are the steps of the agents after it in that generation nor the generation's increment.
- `Vant.VantStep`: the same holds for a vant, whose last cell flip is not modelled. Both agent maps in the repository are toroids (cage/ant.py:157, cage/vant.py:44), where `Ant.AntStepKeepsWellPlaced` and `Vant.VantStaysOnTorus` show that no step fails.
- `Neighborhood.PlanarNeighborhood.Offsets`: the hexagonal list has the corrected sixth offset `(-1, 0)` in place of the source's `(1, -1)` (see "## Findings"). `Neighbors`, `States`, the sums, counts and finds, and every rule on a hexagonal map follow the corrected list. No map in the repository uses the hexagonal neighborhood. The list as written is `Neighborhood.HexagonalNeighborsAsWritten`.
- `Neighborhood.PlanarNeighborhood.Neighbors`, `Neighborhood.PlanarNeighborhood.OffsetsGood`: their hexagonal case is proved of the corrected list. `Neighborhood.HexagonalAsWrittenGood` and `Neighborhood.HexagonalNeighborsAsWritten` prove the same properties of the list as written.
- `Chain.Ignite`: `between` folds each particle once. The model then gives `None` in the two cases where the source raises:
  - the folded address cannot be read (an `IndexError`);
  - it can be read through a negative Python index and holds CHARGED, but `set` refuses it because it is out of range (an `AssertionError`).
  A folded cell that can be read and is not CHARGED is left alone, in both. `Chain.UpdateThenBetween` shows that on a toroid at least `RADIUS` wide and high, particles from `fire` never reach either failing case.
- Python 2 `/` on integers floors. With a positive divisor, Dafny's Euclidean `/` is the same floor for every dividend, negative ones included, and every division in the model has a positive divisor.
- In rule strings, the digit mapping `ord(c) − ord('0')` is modelled for every character. Only strings of digits are treated as well-formed in the round-trip lemma.
- The `states` attribute and the curses icons are display data and are not modelled.
- The named constants of `CardinalDirection` (cage/cage.py:570) are not used; facings are indexes.

## Findings

| source | as written | input that shows it | evidently intended | confidence | as-written member | corrected member |
|---|---|---|---|---|---|---|
| cage/cage.py:431 | the sixth hexagonal neighbor is `(x + 1, y - 1)`, so the list contains `(1, -1)` but not `(-1, 1)`; `b` can be a neighbor of `a` while `a` is not a neighbor of `b` | `a = (0, 0)`, `b = (1, -1)`: `b` is a neighbor of `a`, but `(0, 0) - (1, -1) = (-1, 1)` is not an offset, so `a` is not a neighbor of `b` | `(x - 1, y)`, the offset `HexagonalDirection` lists (cage/cage.py:590) and the partner of `(x + 1, y)`, giving a symmetric six-cell neighborhood | not executed | Neighborhood.HexagonalAsWrittenAsymmetric | Neighborhood.NeighborhoodSymmetric |
