/** The bit arithmetic the engine relies on: `code & (1 << i)` when rule tables are
    decoded, `n & (n - 1) == 0` when a genome is checked, and `cell & (colors - 1)`
    when an ant extracts a color. */
module Bits {

  function Pow2(n: nat): (r: nat)
    ensures r >= 1
  {
    if n == 0 then 1 else 2 * Pow2(n - 1)
  }

  /** Bit `i` of `code` in two's complement, i.e. whether Python's `code & (1 << i)` is
      non-zero. Dafny's `/` and `%` by a positive divisor floor, as Python's do, so this is
      right for negative codes too. */
  function Bit(code: int, i: nat): (b: int)
    ensures b == 0 || b == 1
  {
    (code / Pow2(i)) % 2
  }

  /** Python's `a & b` on non-negative integers, bit by bit from the least significant. */
  function And(a: nat, b: nat): (r: nat)
    ensures r <= a && r <= b
  {
    if a == 0 || b == 0 then 0 else 2 * And(a / 2, b / 2) + (a % 2) * (b % 2)
  }

  /** The value of a list of binary digits, least significant first. */
  function Weighted(d: seq<int>): int
    decreases |d|
  {
    if |d| == 0 then 0 else Weighted(d[..|d| - 1]) + d[|d| - 1] * Pow2(|d| - 1)
  }

  predicate Binary(d: seq<int>) {
    forall i :: 0 <= i < |d| ==> d[i] == 0 || d[i] == 1
  }

  /** The low `n` bits of `code`, least significant first. */
  function BitsOf(code: int, n: nat): (d: seq<int>)
    ensures |d| == n && Binary(d)
  {
    seq(n, i requires 0 <= i < n => Bit(code, i))
  }

  /** The check cage/ant.py applies to color and state counts: `n & (n - 1) == 0`.
      For `n == 0` Python evaluates `0 & -1`, which is 0, so the check passes. */
  function PowerCheck(n: nat): bool
  {
    n == 0 || And(n, n - 1) == 0
  }

  // ---------------------------------------------------------------------------
  // Arithmetic helpers

  lemma ModUnique(n: int, d: int, q: int, r: int)
    requires d > 0 && 0 <= r < d && n == d * q + r
    ensures n % d == r && n / d == q
  {
    var q0, r0 := n / d, n % d;
    assert d * q0 + r0 == d * q + r;
    assert d * (q - q0) == r0 - r;
    if q > q0 {
      MulAtLeast(d, q - q0);
    } else if q < q0 {
      MulAtLeast(d, q0 - q);
    }
  }

  lemma MulAtLeast(d: int, k: int)
    requires d > 0 && k >= 1
    ensures d * k >= d
  {
  }

  /** `n mod 2p` from `n div 2`: the step that peels the lowest bit off. */
  lemma ModDouble(n: int, p: int)
    requires p > 0
    ensures n % (2 * p) == 2 * ((n / 2) % p) + n % 2
  {
    var q, b := n / 2, n % 2;
    var t, r := q / p, q % p;
    assert q == p * t + r;
    assert n == 2 * q + b;
    assert 2 * (p * t) == (2 * p) * t;
    assert n == (2 * p) * t + (2 * r + b);
    ModUnique(n, 2 * p, t, 2 * r + b);
  }

  /** `n mod 2p` from `n mod p`: the step that adds the next higher bit. */
  lemma ModSplit(n: int, p: int)
    requires p > 0
    ensures n % (2 * p) == n % p + p * ((n / p) % 2)
  {
    var q, r := n / p, n % p;
    var t, b := q / 2, q % 2;
    assert n == p * q + r;
    assert q == 2 * t + b;
    assert p * q == (2 * p) * t + p * b;
    assert n == (2 * p) * t + (p * b + r);
    assert 0 <= p * b <= p;
    ModUnique(n, 2 * p, t, p * b + r);
  }

  lemma AndSelf(a: nat)
    ensures And(a, a) == a
  {
    if a != 0 {
      AndSelf(a / 2);
    }
  }

  lemma Pow2Even(k: nat)
    requires k >= 1
    ensures Pow2(k) % 2 == 0 && Pow2(k) == 2 * Pow2(k - 1)
  {
    ModUnique(Pow2(k), 2, Pow2(k - 1), 0);
  }

  /** `Pow2(k) == 2m` with `m >= 1` forces `k >= 1` and `Pow2(k - 1) == m`. */
  lemma Pow2Half(k: nat, m: nat)
    requires m >= 1 && Pow2(k) == 2 * m
    ensures k >= 1 && Pow2(k - 1) == m
  {
  }

  /** An odd number greater than 1 is no power of two. */
  lemma OddNotPow2(n: nat, k: nat)
    requires n > 1 && n % 2 == 1
    ensures Pow2(k) != n
  {
    if k >= 1 {
      Pow2Even(k);
    }
  }

  // ---------------------------------------------------------------------------
  // Properties

  /** The genome check accepts exactly zero and the powers of two. */
  lemma {:induction false} PowerCheckIff(n: nat)
    ensures PowerCheck(n) <==> (n == 0 || exists k: nat :: Pow2(k) == n)
  {
    if n >= 1 {
      PowerCheckPositive(n);
    }
  }

  lemma {:induction false} PowerCheckPositive(n: nat)
    requires n >= 1
    ensures And(n, n - 1) == 0 <==> exists k: nat :: Pow2(k) == n
    decreases n
  {
    if n == 1 {
      assert Pow2(0) == 1;
    } else if n % 2 == 0 {
      var m := n / 2;
      assert (n - 1) / 2 == m - 1 && (n - 1) % 2 == 1 && n % 2 == 0;
      assert And(n, n - 1) == 2 * And(m, m - 1);
      PowerCheckPositive(m);
      if exists k: nat :: Pow2(k) == n {
        var k: nat :| Pow2(k) == n;
        Pow2Half(k, m);
      }
      if exists k: nat :: Pow2(k) == m {
        var k: nat :| Pow2(k) == m;
        assert Pow2(k + 1) == n;
      }
    } else {
      var m := n / 2;
      assert (n - 1) / 2 == m && (n - 1) % 2 == 0 && n % 2 == 1;
      assert And(n, n - 1) == 2 * And(m, m);
      AndSelf(m);
      forall k: nat ensures Pow2(k) != n {
        OddNotPow2(n, k);
      }
    }
  }

  /** Masking with `2^k - 1` keeps exactly the remainder modulo `2^k`: the reason an ant
      may read its color as `cell % colors`. */
  lemma {:induction false} AndMaskIsMod(n: nat, k: nat)
    ensures And(n, Pow2(k) - 1) == n % Pow2(k)
  {
    if k == 0 {
      assert And(n, 0) == 0 && n % 1 == 0;
    } else if n == 0 {
      assert And(0, Pow2(k) - 1) == 0 && 0 % Pow2(k) == 0;
    } else {
      var p := Pow2(k - 1);
      var mask: nat := 2 * p - 1;
      assert Pow2(k) - 1 == mask;
      assert mask / 2 == p - 1 && mask % 2 == 1;
      calc {
        And(n, mask);
        2 * And(n / 2, mask / 2) + (n % 2) * (mask % 2);
        2 * And(n / 2, p - 1) + n % 2;
        { AndMaskIsMod(n / 2, k - 1); }
        2 * ((n / 2) % p) + n % 2;
        { ModDouble(n, p); }
        n % (2 * p);
      }
    }
  }

  /** The low `n` bits of a code, reassembled, give the code modulo `2^n`. */
  lemma {:induction false} BitsOfIsMod(code: int, n: nat)
    ensures Weighted(BitsOf(code, n)) == code % Pow2(n)
  {
    if n > 0 {
      BitsOfIsMod(code, n - 1);
      assert BitsOf(code, n)[..n - 1] == BitsOf(code, n - 1);
      assert Pow2(n) == 2 * Pow2(n - 1);
      ModSplit(code, Pow2(n - 1));
    }
  }

  /** `n` binary digits are worth less than `2^n`. */
  lemma {:induction false} WeightedBound(d: seq<int>)
    requires Binary(d)
    ensures 0 <= Weighted(d) < Pow2(|d|)
    decreases |d|
  {
    if |d| > 0 {
      var p := d[..|d| - 1];
      assert Binary(p) by {
        forall i | 0 <= i < |p| ensures p[i] == 0 || p[i] == 1 {
          assert p[i] == d[i];
        }
      }
      WeightedBound(p);
    }
  }

  /** Binary representations of the same length are unique. */
  lemma {:induction false} WeightedUnique(d: seq<int>, e: seq<int>)
    requires Binary(d) && Binary(e) && |d| == |e| && Weighted(d) == Weighted(e)
    ensures d == e
    decreases |d|
  {
    if |d| > 0 {
      var n := |d| - 1;
      var p, q := d[..n], e[..n];
      assert Binary(p) by {
        forall i | 0 <= i < |p| ensures p[i] == 0 || p[i] == 1 {
          assert p[i] == d[i];
        }
      }
      assert Binary(q) by {
        forall i | 0 <= i < |q| ensures q[i] == 0 || q[i] == 1 {
          assert q[i] == e[i];
        }
      }
      WeightedBound(p);
      WeightedBound(q);
      if d[n] != e[n] {
        assert false;
      }
      WeightedUnique(p, q);
      assert d == p + [d[n]] && e == q + [e[n]];
    }
  }

  /** A binary digit list is recovered from its value by reading its bits back. */
  lemma BitsOfWeighted(d: seq<int>)
    requires Binary(d)
    ensures BitsOf(Weighted(d), |d|) == d
  {
    var w, p := Weighted(d), Pow2(|d|);
    WeightedBound(d);
    BitsOfIsMod(w, |d|);
    ModUnique(w, p, 0, w);
    WeightedUnique(BitsOf(w, |d|), d);
  }
}
