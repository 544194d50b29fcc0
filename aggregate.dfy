/** The aggregate queries of cage/cage.py's Neighborhood class, stated over the list of
    neighbor states in `neighbors` order. The maps apply them to `states(address)`. */
module Aggregate {
  import opened Base

  function Add(a: int, b: int): int {
    a + b
  }

  /** Python's `reduce(func, s, initial)`: a left fold. */
  function Fold(f: (int, int) -> int, acc: int, s: seq<int>): int
    decreases |s|
  {
    if |s| == 0 then acc else Fold(f, f(acc, s[0]), s[1..])
  }

  /** Python's `reduce(func, s)` without a seed: the first element starts the fold, and an
      empty list raises `TypeError` (excluded by the precondition). */
  function Reduce(f: (int, int) -> int, s: seq<int>): int
    requires |s| > 0
  {
    Fold(f, s[0], s[1..])
  }

  /** `sum`: `reduce(operator.add, states)`, so it needs at least one neighbor. */
  function Sum(s: seq<int>): int
    requires |s| > 0
  {
    Reduce(Add, s)
  }

  /** The arithmetic total of a list, the reference for `Sum`. */
  function Total(s: seq<int>): int
    decreases |s|
  {
    if |s| == 0 then 0 else s[0] + Total(s[1..])
  }

  /** `countWith`: how many entries equal `v`. */
  function CountWith(s: seq<int>, v: int): (r: nat)
    ensures r <= |s|
    decreases |s|
  {
    if |s| == 0 then 0 else (if s[0] == v then 1 else 0) + CountWith(s[1..], v)
  }

  /** `countNonZero`. */
  function CountNonZero(s: seq<int>): (r: nat)
    ensures r <= |s|
    decreases |s|
  {
    if |s| == 0 then 0 else (if s[0] != 0 then 1 else 0) + CountNonZero(s[1..])
  }

  /** `hasWith`: the scan that returns at the first entry equal to `v`. */
  predicate HasWith(s: seq<int>, v: int)
    decreases |s|
  {
    |s| > 0 && (s[0] == v || HasWith(s[1..], v))
  }

  /** `hasNonZero`. */
  predicate HasNonZero(s: seq<int>)
    decreases |s|
  {
    |s| > 0 && (s[0] != 0 || HasNonZero(s[1..]))
  }

  /** `findFirstWith`, scanning indexes from `i`: the least index holding `v`, or `None`. */
  function FindFirstFrom(s: seq<int>, v: int, i: nat): (r: Option<nat>)
    requires i <= |s|
    ensures r.Some? ==> i <= r.value < |s| && s[r.value] == v &&
                        forall j :: i <= j < r.value ==> s[j] != v
    ensures r.None? ==> forall j :: i <= j < |s| ==> s[j] != v
    decreases |s| - i
  {
    if i == |s| then None
    else if s[i] == v then Some(i)
    else FindFirstFrom(s, v, i + 1)
  }

  function FindFirstWith(s: seq<int>, v: int): (r: Option<nat>)
    ensures r.Some? ==> r.value < |s| && s[r.value] == v && forall j :: 0 <= j < r.value ==> s[j] != v
    ensures r.None? <==> v !in s
  {
    FindFirstFrom(s, v, 0)
  }

  /** `findAllWith`, scanning indexes from `i`: every index holding `v`, ascending. */
  function FindAllFrom(s: seq<int>, v: int, i: nat): (r: seq<nat>)
    requires i <= |s|
    ensures forall k :: 0 <= k < |r| ==> i <= r[k] < |s| && s[r[k]] == v
    ensures forall k, l :: 0 <= k < l < |r| ==> r[k] < r[l]
    ensures forall j :: i <= j < |s| && s[j] == v ==> j in r
    decreases |s| - i
  {
    if i == |s| then []
    else (if s[i] == v then [i] else []) + FindAllFrom(s, v, i + 1)
  }

  function FindAllWith(s: seq<int>, v: int): (r: seq<nat>)
    ensures forall k, l :: 0 <= k < l < |r| ==> r[k] < r[l]
    ensures forall j :: j in r <==> 0 <= j < |s| && s[j] == v
  {
    FindAllFrom(s, v, 0)
  }

  // ---------------------------------------------------------------------------
  // Properties

  /** A fold adds one more element at the end by one more application. */
  lemma {:induction false} FoldSnoc(f: (int, int) -> int, acc: int, s: seq<int>, x: int)
    ensures Fold(f, acc, s + [x]) == f(Fold(f, acc, s), x)
    decreases |s|
  {
    if |s| > 0 {
      assert (s + [x])[1..] == s[1..] + [x];
      FoldSnoc(f, f(acc, s[0]), s[1..], x);
    }
  }

  lemma {:induction false} FoldAddIsTotal(acc: int, s: seq<int>)
    ensures Fold(Add, acc, s) == acc + Total(s)
    decreases |s|
  {
    if |s| > 0 {
      FoldAddIsTotal(acc + s[0], s[1..]);
    }
  }

  /** The unseeded `reduce(operator.add, ...)` is the total. */
  lemma SumIsTotal(s: seq<int>)
    requires |s| > 0
    ensures Sum(s) == Total(s)
  {
    FoldAddIsTotal(s[0], s[1..]);
    assert Total(s) == s[0] + Total(s[1..]);
  }

  lemma {:induction false} TotalAppend(s: seq<int>, t: seq<int>)
    ensures Total(s + t) == Total(s) + Total(t)
    decreases |s|
  {
    if |s| > 0 {
      assert (s + t)[0] == s[0] && (s + t)[1..] == s[1..] + t;
      TotalAppend(s[1..], t);
    } else {
      assert s + t == t;
    }
  }

  /** With every entry in `[lo, hi]`, the total lies in `[|s| * lo, |s| * hi]`. */
  lemma {:induction false} TotalBounds(s: seq<int>, lo: int, hi: int)
    requires forall i :: 0 <= i < |s| ==> lo <= s[i] <= hi
    ensures |s| * lo <= Total(s) <= |s| * hi
    decreases |s|
  {
    if |s| > 0 {
      TotalBounds(s[1..], lo, hi);
      assert |s| * lo == lo + (|s| - 1) * lo;
      assert |s| * hi == hi + (|s| - 1) * hi;
    }
  }

  /** A list holding `v` everywhere totals `|s| * v`. */
  lemma TotalConstant(s: seq<int>, v: int)
    requires forall i :: 0 <= i < |s| ==> s[i] == v
    ensures Total(s) == |s| * v
  {
    TotalBounds(s, v, v);
  }

  /** `countZero + countNonZero == neighborhood()`. */
  lemma {:induction false} CountZeroNonZero(s: seq<int>)
    ensures CountWith(s, 0) + CountNonZero(s) == |s|
    decreases |s|
  {
    if |s| > 0 {
      CountZeroNonZero(s[1..]);
    }
  }

  /** `hasWith` answers yes exactly when `v` occurs, i.e. when `countWith` is positive. */
  lemma {:induction false} HasWithIff(s: seq<int>, v: int)
    ensures HasWith(s, v) <==> v in s
    ensures HasWith(s, v) <==> CountWith(s, v) > 0
    decreases |s|
  {
    if |s| > 0 {
      HasWithIff(s[1..], v);
      assert s == [s[0]] + s[1..];
    }
  }

  /** `hasNonZero` answers yes exactly when `countNonZero` is positive. */
  lemma {:induction false} HasNonZeroIff(s: seq<int>)
    ensures HasNonZero(s) <==> CountNonZero(s) > 0
    ensures HasNonZero(s) <==> exists i :: 0 <= i < |s| && s[i] != 0
    decreases |s|
  {
    if |s| > 0 {
      HasNonZeroIff(s[1..]);
      if exists i :: 0 <= i < |s[1..]| && s[1..][i] != 0 {
        var i :| 0 <= i < |s[1..]| && s[1..][i] != 0;
        assert s[i + 1] != 0;
      }
      if exists i :: 0 <= i < |s| && s[i] != 0 {
        var i :| 0 <= i < |s| && s[i] != 0;
        if i > 0 {
          assert s[1..][i - 1] != 0;
        }
      }
    }
  }

  /** `findAllWith` finds as many indexes as `countWith` counts. */
  lemma {:induction false} FindAllFromCount(s: seq<int>, v: int, i: nat)
    requires i <= |s|
    ensures |FindAllFrom(s, v, i)| == CountWith(s[i..], v)
    decreases |s| - i
  {
    if i < |s| {
      FindAllFromCount(s, v, i + 1);
      assert s[i..][1..] == s[i + 1..];
    }
  }

  lemma FindAllCount(s: seq<int>, v: int)
    ensures |FindAllWith(s, v)| == CountWith(s, v)
  {
    FindAllFromCount(s, v, 0);
    assert s[0..] == s;
  }

  /** `findFirstWith` finds the first of the indexes `findAllWith` lists. */
  lemma FindFirstIsHeadOfFindAll(s: seq<int>, v: int)
    ensures FindFirstWith(s, v).None? <==> |FindAllWith(s, v)| == 0
    ensures FindFirstWith(s, v).Some? ==> FindAllWith(s, v)[0] == FindFirstWith(s, v).value
  {
    var first, all := FindFirstWith(s, v), FindAllWith(s, v);
    if first.Some? {
      assert first.value in all;
      var k :| 0 <= k < |all| && all[k] == first.value;
      assert all[0] >= first.value;
      assert all[0] <= all[k];
    }
  }
}
