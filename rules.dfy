/** The generic rules of cage/cage.py: ReductionRule, CodedTotalisticRule (the
    "born/stay" totalistic rule with its lookup table) and LinearCodedRule (the
    elementary one-dimensional rule decoded from an 8-bit code). */
module Rules {
  import opened Base
  import opened Bits
  import opened Topology
  import opened Neighborhood
  import opened Aggregate
  import opened Maps

  // ---------------------------------------------------------------------------
  // ReductionRule

  /** `reduce(self.function, self.map.states(address))`, without a seed. */
  function ReductionRule(f: (int, int) -> int, m: PlanarMap, a: Address): int
    requires m.Valid() && m.ReadableAround(a) && m.neighborhood.Size() > 0
  {
    Reduce(f, m.States(a))
  }

  function LinearReductionRule(f: (int, int) -> int, m: LinearMap, x: int): int
    requires m.Valid() && m.ReadableAround(x) && m.radius > 0
  {
    Reduce(f, m.States(x))
  }

  /** Reducing by addition totals the neighbor states. */
  lemma ReductionByAddIsTotal(m: PlanarMap, a: Address)
    requires m.Valid() && m.ReadableAround(a) && m.neighborhood.Size() > 0
    ensures ReductionRule(Add, m, a) == Total(m.States(a)) == m.NeighborSum(a)
  {
    SumIsTotal(m.States(a));
  }

  // ---------------------------------------------------------------------------
  // Rule strings

  datatype RuleError =
    | SlashCount   // `split('/')` did not give exactly two parts: unpacking raises ValueError
    | EmptyPart    // `bornString[0]` or `stayString[0]` on an empty part raises IndexError

  /** Python's `s.split(c)`: the pieces between separators, never an empty list. */
  function Split(s: string, c: char): (r: seq<string>)
    ensures |r| >= 1
    ensures forall i :: 0 <= i < |r| ==> c !in r[i]
    decreases |s|
  {
    if |s| == 0 then [""]
    else
      var rest := Split(s[1..], c);
      if s[0] == c then [""] + rest
      else [[s[0]] + rest[0]] + rest[1..]
  }

  /** `c.join(parts)`, the inverse of `Split`. */
  function Join(parts: seq<string>, c: char): string
    requires |parts| >= 1
    decreases |parts|
  {
    if |parts| == 1 then parts[0] else parts[0] + [c] + Join(parts[1..], c)
  }

  /** `ord(ch) - ord('0')` for every character: the digit values of a well-formed part. */
  function Totals(s: string): seq<int>
  {
    seq(|s|, i requires 0 <= i < |s| => s[i] as int - '0' as int)
  }

  /** Drops one leading letter from `letters` (the "B" or "S" of "B3/S23"). */
  function StripPrefix(part: string, letters: string): (r: string)
    requires |part| > 0
    ensures r == part || r == part[1..]
  {
    if part[0] in letters then part[1..] else part
  }

  /** `parseRule`: exactly one `/`, both parts non-empty, an optional B/b and S/s prefix,
      and every remaining character read as `ord(c) - ord('0')`. */
  function RuleCode(s: string): Result<(seq<int>, seq<int>), RuleError>
  {
    var parts := Split(s, '/');
    if |parts| != 2 then Err(SlashCount)
    else if |parts[0]| == 0 || |parts[1]| == 0 then Err(EmptyPart)
    else Ok((Totals(StripPrefix(parts[0], "Bb")), Totals(StripPrefix(parts[1], "Ss"))))
  }

  /** The character loop of `parseRule`, appending one total per character. */
  method ParseTotals(part: string) returns (sums: seq<int>)
    ensures sums == Totals(part)
  {
    sums := [];
    for i := 0 to |part|
      invariant sums == Totals(part[..i])
    {
      assert part[..i + 1] == part[..i] + [part[i]];
      sums := sums + [part[i] as int - '0' as int];
    }
    assert part[..|part|] == part;
  }

  method ParseRule(s: string) returns (r: Result<(seq<int>, seq<int>), RuleError>)
    ensures r == RuleCode(s)
  {
    var parts := Split(s, '/');
    if |parts| != 2 {
      return Err(SlashCount);
    }
    var bornString, stayString := parts[0], parts[1];
    if |bornString| == 0 {
      return Err(EmptyPart);
    }
    if bornString[0] in "Bb" {
      bornString := bornString[1..];
    }
    var bornSums := ParseTotals(bornString);
    if |stayString| == 0 {
      return Err(EmptyPart);
    }
    if stayString[0] in "Ss" {
      stayString := stayString[1..];
    }
    var staySums := ParseTotals(stayString);
    return Ok((bornSums, staySums));
  }

  // Properties of parsing

  lemma {:induction false} JoinCons(ch: char, parts: seq<string>, c: char)
    requires |parts| >= 1
    ensures Join([[ch] + parts[0]] + parts[1..], c) == [ch] + Join(parts, c)
  {
    var q := [[ch] + parts[0]] + parts[1..];
    assert q[1..] == parts[1..];
  }

  /** Splitting and joining again gives back the string. */
  lemma {:induction false} JoinSplit(s: string, c: char)
    ensures Join(Split(s, c), c) == s
    decreases |s|
  {
    if |s| > 0 {
      var rest := Split(s[1..], c);
      JoinSplit(s[1..], c);
      if s[0] == c {
        assert ([""] + rest)[1..] == rest;
      } else {
        JoinCons(s[0], rest, c);
      }
      assert s == [s[0]] + s[1..];
    }
  }

  /** There is one more part than there are separators. */
  lemma {:induction false} SplitCount(s: string, c: char)
    ensures |Split(s, c)| == multiset(s)[c] + 1
    decreases |s|
  {
    if |s| > 0 {
      SplitCount(s[1..], c);
      assert s == [s[0]] + s[1..];
      assert multiset(s) == multiset{s[0]} + multiset(s[1..]);
    }
  }

  /** The rule string is refused for its slash count exactly when it does not hold
      exactly one `/`. */
  lemma RuleCodeSlashCount(s: string)
    ensures RuleCode(s) == Err(SlashCount) <==> multiset(s)['/'] != 1
  {
    SplitCount(s, '/');
  }

  lemma {:induction false} SplitWithout(s: string, c: char)
    requires c !in s
    ensures Split(s, c) == [s]
    decreases |s|
  {
    if |s| > 0 {
      SplitWithout(s[1..], c);
      assert s == [s[0]] + s[1..];
    }
  }

  lemma {:induction false} SplitAround(s: string, c: char, t: string)
    requires c !in s
    ensures Split(s + [c] + t, c) == [s] + Split(t, c)
    decreases |s|
  {
    if |s| == 0 {
      assert s + [c] + t == [c] + t;
      assert ([c] + t)[1..] == t;
    } else {
      var w := s + [c] + t;
      assert w[0] == s[0] && w[1..] == s[1..] + [c] + t;
      SplitAround(s[1..], c, t);
      assert [s[0]] + s[1..] == s;
    }
  }

  /** The digit characters of a list of totals in `[0, 9]`. */
  function Digits(totals: seq<int>): (s: string)
    requires forall i :: 0 <= i < |totals| ==> 0 <= totals[i] <= 9
    ensures |s| == |totals| && '/' !in s
  {
    seq(|totals|, i requires 0 <= i < |totals| => (totals[i] + '0' as int) as char)
  }

  /** The rule in "B.../S..." notation. */
  function FormatRule(born: seq<int>, stay: seq<int>): string
    requires forall i :: 0 <= i < |born| ==> 0 <= born[i] <= 9
    requires forall i :: 0 <= i < |stay| ==> 0 <= stay[i] <= 9
  {
    "B" + Digits(born) + "/" + "S" + Digits(stay)
  }

  /** Parsing reads back any rule written in the notation, empty lists included. */
  lemma FormatThenParse(born: seq<int>, stay: seq<int>)
    requires forall i :: 0 <= i < |born| ==> 0 <= born[i] <= 9
    requires forall i :: 0 <= i < |stay| ==> 0 <= stay[i] <= 9
    ensures RuleCode(FormatRule(born, stay)) == Ok((born, stay))
  {
    var b, t := "B" + Digits(born), "S" + Digits(stay);
    assert '/' !in b && '/' !in t;
    assert FormatRule(born, stay) == b + ['/'] + t;
    SplitAround(b, '/', t);
    SplitWithout(t, '/');
    assert StripPrefix(b, "Bb") == Digits(born);
    assert Totals(Digits(born)) == born;
    assert Totals(Digits(stay)) == stay;
    assert StripPrefix(t, "Ss") == Digits(stay);
  }

  /** The code ConwayAutomaton hard-codes is what "3/23" parses to. */
  lemma ConwayCode()
    ensures RuleCode("3/23") == Ok(([3], [2, 3]))
  {
    SplitAround("3", '/', "23");
    SplitWithout("23", '/');
    assert "3/23" == "3" + ['/'] + "23";
    assert Split("3/23", '/') == ["3", "23"];
    assert Totals("3") == [3] && Totals("23") == [2, 3];
  }

  /** HighLife's code is what "B36/S23" parses to. */
  lemma HighLifeCode()
    ensures RuleCode("B36/S23") == Ok(([3, 6], [2, 3]))
  {
    FormatThenParse([3, 6], [2, 3]);
    assert Digits([3, 6]) == "36" && Digits([2, 3]) == "23";
    assert FormatRule([3, 6], [2, 3]) == "B36/S23";
  }

  /** Malformed strings are refused. */
  lemma MalformedRules()
    ensures RuleCode("323") == Err(SlashCount)
    ensures RuleCode("3/2/3") == Err(SlashCount)
    ensures RuleCode("/23") == Err(EmptyPart)
  {
    RuleCodeSlashCount("323");
    RuleCodeSlashCount("3/2/3");
    SplitAround("", '/', "23");
    SplitWithout("23", '/');
    assert "/23" == "" + ['/'] + "23";
  }

  // ---------------------------------------------------------------------------
  // CodedTotalisticRule's table

  function Zeros(n: nat): (r: seq<int>)
    ensures |r| == n && forall i :: 0 <= i < n ==> r[i] == 0
  {
    seq(n, _ => 0)
  }

  /** `row[t] = 1` for each total in turn, `t` read as a Python index; `None` where a
      total is outside `[-len(row), len(row))` and Python raises IndexError. */
  function Mark(row: seq<int>, totals: seq<int>): (r: Option<seq<int>>)
    ensures r.Some? ==> |r.value| == |row|
    decreases |totals|
  {
    if |totals| == 0 then Some(row)
    else if !(-|row| <= totals[0] < |row|) then None
    else Mark(row[totals[0] % |row| := 1], totals[1..])
  }

  /** The table of a two-state automaton (TwoStateAutomaton.states is 2): `clear` makes two
      rows of `n + 1` zeros, `populate` marks the born totals in row 0 and the stay totals
      in row 1. */
  function TotalisticTable(n: nat, born: seq<int>, stay: seq<int>): Option<seq<seq<int>>>
  {
    match (Mark(Zeros(n + 1), born), Mark(Zeros(n + 1), stay))
    case (Some(b), Some(s)) => Some([b, s])
    case _ => None
  }

  /** Some total in the list lands on index `k` of a row of length `len`. */
  predicate Marks(totals: seq<int>, len: nat, k: int) {
    exists t :: t in totals && 0 <= t + len && t < len && t % len == k
  }

  predicate TotalsFit(totals: seq<int>, len: nat) {
    forall t :: t in totals ==> 0 <= t + len && t < len
  }

  lemma {:induction false} MarkSpec(row: seq<int>, totals: seq<int>)
    requires |row| > 0
    ensures Mark(row, totals).Some? <==> TotalsFit(totals, |row|)
    ensures Mark(row, totals).Some? ==> forall k :: 0 <= k < |row| ==>
              Mark(row, totals).value[k] == if Marks(totals, |row|, k) then 1 else row[k]
    decreases |totals|
  {
    if |totals| > 0 {
      var t, rest := totals[0], totals[1..];
      assert forall u :: u in totals <==> u == t || u in rest by {
        assert totals == [t] + rest;
      }
      if 0 <= t + |row| && t < |row| {
        var row' := row[t % |row| := 1];
        MarkSpec(row', rest);
        assert Mark(row, totals) == Mark(row', rest);
        forall k | 0 <= k < |row|
          ensures Marks(totals, |row|, k) <==> t % |row| == k || Marks(rest, |row|, k)
        {
          if Marks(totals, |row|, k) {
            var u :| u in totals && 0 <= u + |row| && u < |row| && u % |row| == k;
            if u != t {
              assert u in rest;
            }
          }
          if t % |row| == k {
            assert t in totals;
          }
          if Marks(rest, |row|, k) {
            var u :| u in rest && 0 <= u + |row| && u < |row| && u % |row| == k;
            assert u in totals;
          }
        }
      } else {
        assert t in totals;
      }
    }
  }

  /** The populated table: two rows of `n + 1` entries; entry `[0][k]` is 1 exactly when a
      born total lands on `k`, entry `[1][k]` exactly when a stay total does, and every
      other entry is 0. It exists exactly when every total is a valid index. */
  lemma TotalisticTableSpec(n: nat, born: seq<int>, stay: seq<int>)
    ensures TotalisticTable(n, born, stay).Some? <==> TotalsFit(born, n + 1) && TotalsFit(stay, n + 1)
    ensures TotalisticTable(n, born, stay).Some? ==>
              var t := TotalisticTable(n, born, stay).value;
              |t| == 2 && |t[0]| == n + 1 && |t[1]| == n + 1 &&
              (forall k :: 0 <= k <= n ==> t[0][k] == if Marks(born, n + 1, k) then 1 else 0) &&
              (forall k :: 0 <= k <= n ==> t[1][k] == if Marks(stay, n + 1, k) then 1 else 0)
  {
    MarkSpec(Zeros(n + 1), born);
    MarkSpec(Zeros(n + 1), stay);
  }

  /** One `for` loop of `populate`: `row[total] = 1` for each total. */
  method MarkRow(row: seq<int>, totals: seq<int>) returns (r: Option<seq<int>>)
    ensures r == Mark(row, totals)
  {
    var current := row;
    for i := 0 to |totals|
      invariant |current| == |row|
      invariant Mark(current, totals[i..]) == Mark(row, totals)
    {
      var t := totals[i];
      if !(0 <= t + |current| && t < |current|) {
        return None;
      }
      assert totals[i..][1..] == totals[i + 1..];
      current := current[t % |current| := 1];
    }
    return Some(current);
  }

  /** `clear` then `populate`. */
  method PopulateTotalistic(n: nat, born: seq<int>, stay: seq<int>) returns (table: Option<seq<seq<int>>>)
    ensures table == TotalisticTable(n, born, stay)
  {
    var rows: seq<seq<int>> := [];
    for i := 0 to 2
      invariant |rows| == i && forall j :: 0 <= j < i ==> rows[j] == Zeros(n + 1)
    {
      rows := rows + [Zeros(n + 1)];
    }
    var bornRow := MarkRow(rows[0], born);
    if bornRow.None? {
      return None;
    }
    var stayRow := MarkRow(rows[1], stay);
    if stayRow.None? {
      return None;
    }
    return Some([bornRow.value, stayRow.value]);
  }

  /** `table[self.map.get(address)][self.map.sum(address)]`, both read as Python indexes. */
  function TotalisticRule(table: seq<seq<int>>, m: PlanarMap, a: Address): int
    requires m.Valid() && m.ReadableAround(a) && m.neighborhood.Size() > 0
    requires -|table| <= m.Get(a) < |table|
    requires -|PyIndex(table, m.Get(a))| <= m.NeighborSum(a) < |PyIndex(table, m.Get(a))|
  {
    PyIndex(PyIndex(table, m.Get(a)), m.NeighborSum(a))
  }

  /** With two-state cells, the neighbor sum lies in `[0, n]`. */
  lemma TwoStateSum(m: PlanarMap, a: Address)
    requires m.Valid() && m.ReadableAround(a) && m.neighborhood.Size() > 0 && m.CellsBelow(2)
    ensures 0 <= m.Get(a) < 2
    ensures 0 <= m.NeighborSum(a) <= m.neighborhood.Size()
  {
    StatesBelow(m, a, 2);
    SumIsTotal(m.States(a));
    TotalBounds(m.States(a), 0, 1);
  }

  /** On two-state cells the table rule is the born/stay rule: a dead cell comes alive
      exactly when its neighbor sum is a born total, a live cell stays alive exactly when
      its sum is a stay total, and every other cell is dead. */
  lemma TotalisticRuleIsBornStay(born: seq<int>, stay: seq<int>, m: PlanarMap, a: Address)
    requires m.Valid() && m.ReadableAround(a) && m.neighborhood.Size() > 0 && m.CellsBelow(2)
    requires TotalisticTable(m.neighborhood.Size(), born, stay).Some?
    ensures var table := TotalisticTable(m.neighborhood.Size(), born, stay).value;
            var n, cell, sum := m.neighborhood.Size(), m.Get(a), m.NeighborSum(a);
            -|table| <= cell < |table| &&
            -|PyIndex(table, cell)| <= sum < |PyIndex(table, cell)| &&
            TotalisticRule(table, m, a) ==
              if (cell == 0 && Marks(born, n + 1, sum)) || (cell == 1 && Marks(stay, n + 1, sum)) then 1 else 0
  {
    TwoStateSum(m, a);
    TotalisticTableSpec(m.neighborhood.Size(), born, stay);
  }

  /** Conway's Game of Life, as ConwayAutomaton builds it: code `[3], [2, 3]` on the Moore
      neighborhood. */
  lemma LifeRule(m: PlanarMap, a: Address)
    requires m.Valid() && m.ReadableAround(a) && m.neighborhood == MooreNeighborhood && m.CellsBelow(2)
    ensures var table := TotalisticTable(8, [3], [2, 3]).value;
            var cell, sum := m.Get(a), m.NeighborSum(a);
            -|table| <= cell < |table| &&
            -|PyIndex(table, cell)| <= sum < |PyIndex(table, cell)| &&
            TotalisticRule(table, m, a) == if (cell == 0 && sum == 3) || (cell == 1 && (sum == 2 || sum == 3)) then 1 else 0
  {
    assert m.neighborhood.Size() == 8;
    LifeTotalsFit();
    TotalisticTableSpec(8, [3], [2, 3]);
    TotalisticRuleIsBornStay([3], [2, 3], m, a);
    TwoStateSum(m, a);
    LifeMarks(m.NeighborSum(a));
  }

  lemma LifeTotalsFit()
    ensures TotalsFit([3], 9) && TotalsFit([2, 3], 9)
  {
    assert forall t :: t in [3] ==> t == 3;
    assert forall t :: t in [2, 3] ==> t == 2 || t == 3;
  }

  /** Which sums the born total 3 and the stay totals 2 and 3 mark in a row of nine. */
  lemma LifeMarks(sum: int)
    requires 0 <= sum <= 8
    ensures Marks([3], 9, sum) <==> sum == 3
    ensures Marks([2, 3], 9, sum) <==> sum == 2 || sum == 3
  {
    assert 2 % 9 == 2 && 3 % 9 == 3;
    assert forall t :: t in [3] ==> t == 3;
    assert forall t :: t in [2, 3] ==> t == 2 || t == 3;
    if sum == 3 { assert 3 in [3] && 3 in [2, 3]; }
    if sum == 2 { assert 2 in [2, 3]; }
  }

  // ---------------------------------------------------------------------------
  // LinearCodedRule

  /** A `[left][this][right]` table of shape 2 x 2 x 2. */
  predicate Cube(t: seq<seq<seq<int>>>) {
    |t| == 2 && forall l :: 0 <= l < 2 ==> |t[l]| == 2 && forall c :: 0 <= c < 2 ==> |t[l][c]| == 2
  }

  /** The table `populate(code)` builds, entry `[l][c][r]` holding bit `4r + 2c + l`. */
  function LinearTable(code: int): (t: seq<seq<seq<int>>>)
    ensures Cube(t)
    ensures forall l, c, r :: 0 <= l < 2 && 0 <= c < 2 && 0 <= r < 2 ==> t[l][c][r] == Bit(code, 4 * r + 2 * c + l)
  {
    seq(2, l requires 0 <= l < 2 => seq(2, c requires 0 <= c < 2 => seq(2, r requires 0 <= r < 2 => Bit(code, 4 * r + 2 * c + l))))
  }

  /** The eight table entries in the order `populate` visits them. */
  function Flatten(t: seq<seq<seq<int>>>): (d: seq<int>)
    requires Cube(t)
    ensures |d| == 8
  {
    [t[0][0][0], t[1][0][0], t[0][1][0], t[1][1][0], t[0][0][1], t[1][0][1], t[0][1][1], t[1][1][1]]
  }

  /** The code a table encodes: its entries as binary digits in visiting order. */
  function Encode(t: seq<seq<seq<int>>>): int
    requires Cube(t)
  {
    Weighted(Flatten(t))
  }

  /** Entries numbered below `k` hold their bit of the code, the rest are still 0. */
  predicate FilledBelow(t: seq<seq<seq<int>>>, code: int, k: int)
    requires Cube(t)
  {
    forall l, c, r :: 0 <= l < 2 && 0 <= c < 2 && 0 <= r < 2 ==>
      t[l][c][r] == if 4 * r + 2 * c + l < k then Bit(code, 4 * r + 2 * c + l) else 0
  }

  lemma FillStep(t: seq<seq<seq<int>>>, code: int, left: int, middle: int, right: int)
    requires Cube(t) && 0 <= left < 2 && 0 <= middle < 2 && 0 <= right < 2
    requires FilledBelow(t, code, 4 * right + 2 * middle + left)
    ensures var u := t[left := t[left][middle := t[left][middle][right := Bit(code, 4 * right + 2 * middle + left)]]];
            Cube(u) && FilledBelow(u, code, 4 * right + 2 * middle + left + 1)
  {
  }

  /** `clear` then `populate`: the loops run right, then middle ("this"), then left,
      innermost fastest, and the counter `i` numbers the entries in that order;
      `code & (1 << i)` picks the bit. */
  method PopulateLinearCoded(code: int) returns (table: seq<seq<seq<int>>>)
    ensures table == LinearTable(code)
    ensures forall l, c, r :: 0 <= l < 2 && 0 <= c < 2 && 0 <= r < 2 ==>
              table[l][c][r] == Bit(code, 4 * r + 2 * c + l)
  {
    table := [[[0, 0], [0, 0]], [[0, 0], [0, 0]]];
    var i := 0;
    for right := 0 to 2
      invariant i == 4 * right && Cube(table) && FilledBelow(table, code, i)
    {
      for middle := 0 to 2
        invariant i == 4 * right + 2 * middle && Cube(table) && FilledBelow(table, code, i)
      {
        for left := 0 to 2
          invariant i == 4 * right + 2 * middle + left && Cube(table) && FilledBelow(table, code, i)
        {
          var value := if Bit(code, i) != 0 then 1 else 0;
          assert value == Bit(code, 4 * right + 2 * middle + left);
          FillStep(table, code, left, middle, right);
          table := table[left := table[left][middle := table[left][middle][right := value]]];
          i := i + 1;
        }
      }
    }
    assert i == 8;
    assert forall l :: 0 <= l < 2 ==> forall c :: 0 <= c < 2 ==> table[l][c] == LinearTable(code)[l][c];
    assert forall l :: 0 <= l < 2 ==> table[l] == LinearTable(code)[l];
  }

  lemma FlattenLinearTable(code: int)
    ensures Flatten(LinearTable(code)) == BitsOf(code, 8)
  {
    var t := LinearTable(code);
    assert t[0][0][0] == Bit(code, 0) && t[1][0][0] == Bit(code, 1);
    assert t[0][1][0] == Bit(code, 2) && t[1][1][0] == Bit(code, 3);
    assert t[0][0][1] == Bit(code, 4) && t[1][0][1] == Bit(code, 5);
    assert t[0][1][1] == Bit(code, 6) && t[1][1][1] == Bit(code, 7);
  }

  /** Re-encoding the decoded table gives back the code modulo 256. */
  lemma EncodeLinearTable(code: int)
    ensures Encode(LinearTable(code)) == code % 256
  {
    FlattenLinearTable(code);
    BitsOfIsMod(code, 8);
    assert Pow2(8) == 256;
  }

  /** Decoding the code of a 0/1 table gives back the table. */
  lemma LinearTableOfEncode(t: seq<seq<seq<int>>>)
    requires Cube(t) && Binary(Flatten(t))
    ensures LinearTable(Encode(t)) == t
  {
    BitsOfWeighted(Flatten(t));
    FlattenLinearTable(Encode(t));
    FlattenInjective(LinearTable(Encode(t)), t);
  }

  lemma FlattenInjective(u: seq<seq<seq<int>>>, t: seq<seq<seq<int>>>)
    requires Cube(u) && Cube(t) && Flatten(u) == Flatten(t)
    ensures u == t
  {
    assert Flatten(u)[0] == Flatten(t)[0] && Flatten(u)[1] == Flatten(t)[1];
    assert Flatten(u)[2] == Flatten(t)[2] && Flatten(u)[3] == Flatten(t)[3];
    assert Flatten(u)[4] == Flatten(t)[4] && Flatten(u)[5] == Flatten(t)[5];
    assert Flatten(u)[6] == Flatten(t)[6] && Flatten(u)[7] == Flatten(t)[7];
    assert u[0][0] == t[0][0] && u[0][1] == t[0][1] && u[1][0] == t[1][0] && u[1][1] == t[1][1];
    assert u[0] == t[0] && u[1] == t[1];
  }

  /** `left, right, this = inclusiveStates(address)` (which is `[s(x+1), s(x-1), s(x)]`
      for radius 1, so the first name holds the right-hand cell) and
      `table[left][this][right]`, each read as a Python index. */
  function LinearCodedRule(table: seq<seq<seq<int>>>, m: LinearMap, x: int): int
    requires Cube(table)
    requires m.Valid() && m.ReadableAround(x) && m.radius == 1
    requires forall i :: 0 <= i < 3 ==> -2 <= m.InclusiveStates(x)[i] < 2
  {
    var s := m.InclusiveStates(x);
    var left, right, middle := s[0], s[1], s[2];
    PyIndex(PyIndex(PyIndex(table, left), middle), right)
  }

  /** On two-state cells the coded rule reads its table at the right-hand neighbor, the
      cell, then the left-hand neighbor. */
  lemma LinearCodedReads(table: seq<seq<seq<int>>>, m: LinearMap, x: int)
    requires Cube(table) && m.Valid() && m.ReadableAround(x) && m.radius == 1 && m.CellsBelow(2)
    ensures m.topology.Readable(x - 1) && m.topology.Readable(x + 1)
    ensures forall i :: 0 <= i < 3 ==> 0 <= m.InclusiveStates(x)[i] < 2
    ensures 0 <= m.Get(x - 1) < 2 && 0 <= m.Get(x) < 2 && 0 <= m.Get(x + 1) < 2
    ensures LinearCodedRule(table, m, x) == table[m.Get(x + 1)][m.Get(x)][m.Get(x - 1)]
  {
    LinearStatesBelow(m, x, 2);
    LinearStatesOrder(m, x, 0);
    var s := m.InclusiveStates(x);
    assert s[0] == m.Get(x + 1) && s[1] == m.Get(x - 1) && s[2] == m.Get(x);
  }

  /** The swap in the unpacking and the swap in the loop order cancel: on two-state cells
      the new state is bit `4 s(x-1) + 2 s(x) + s(x+1)` of the code, the standard
      elementary-automaton numbering. */
  lemma LinearCodedIsElementary(code: int, m: LinearMap, x: int)
    requires m.Valid() && m.ReadableAround(x) && m.radius == 1 && m.CellsBelow(2)
    ensures m.topology.Readable(x - 1) && m.topology.Readable(x + 1)
    ensures forall i :: 0 <= i < 3 ==> 0 <= m.InclusiveStates(x)[i] < 2
    ensures LinearCodedRule(LinearTable(code), m, x) ==
              Bit(code, 4 * m.Get(x - 1) + 2 * m.Get(x) + m.Get(x + 1))
  {
    LinearCodedReads(LinearTable(code), m, x);
  }
}
