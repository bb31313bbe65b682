/** Small shared helpers: an optional value, integer ranges, the stand-in
    for `random.randint`, and the division facts the tick counters need. */
module Util {

  datatype Option<T> = None | Some(value: T)

  /** Python `range(lo, hi)` as a sequence. */
  function Range(lo: int, hi: int): (r: seq<int>)
    requires lo <= hi
    ensures |r| == hi - lo
    ensures forall i :: 0 <= i < |r| ==> r[i] == lo + i
  {
    seq(hi - lo, i => lo + i)
  }

  /** `random.randint(lo, hi)`: the random number is an arbitrary natural
      number `d` chosen by the caller and folded into the inclusive range. */
  function RandInt(d: nat, lo: int, hi: int): (r: int)
    requires lo <= hi
    ensures lo <= r <= hi
  {
    lo + d % (hi - lo + 1)
  }

  /** Every value of the range is produced by some draw, so a property
      proved for all draws holds for every outcome of `randint`. */
  lemma RandIntReaches(lo: int, hi: int, v: int)
    requires lo <= v <= hi
    ensures RandInt(v - lo, lo, hi) == v
  {
    DivModUnique(v - lo, hi - lo + 1, 0, v - lo);
  }

  /** `s[random.randint(0, len(s) - 1)]`. */
  function Pick<T>(s: seq<T>, d: nat): (x: T)
    requires |s| > 0
    ensures x in s
  {
    s[RandInt(d, 0, |s| - 1)]
  }

  lemma PickReaches<T>(s: seq<T>, j: nat)
    requires j < |s|
    ensures Pick(s, j) == s[j]
  {
    RandIntReaches(0, |s| - 1, j);
  }

  // ---------------------------------------------------------------------
  // Division facts

  lemma MulPos(a: int, m: int)
    requires a >= 1 && m > 0
    ensures a * m >= m
  {
  }

  /** Euclidean division is unique. */
  lemma DivModUnique(x: int, m: int, q: int, r: int)
    requires m > 0 && 0 <= r < m && x == q * m + r
    ensures x / m == q && x % m == r
  {
    var q', r' := x / m, x % m;
    assert x == q' * m + r';
    var d := q - q';
    assert d * m == r' - r;
    if d >= 1 {
      MulPos(d, m);
    } else if d <= -1 {
      MulPos(-d, m);
    }
    assert d == 0;
  }

  /** How one more tick moves the quotient and the remainder of a counter. */
  lemma DivModSucc(x: int, m: int)
    requires x >= 0 && m > 0
    ensures (x + 1) % m == (if x % m == m - 1 then 0 else x % m + 1)
    ensures (x + 1) / m == x / m + (if x % m == m - 1 then 1 else 0)
  {
    var q, r := x / m, x % m;
    if r == m - 1 {
      assert x + 1 == (q + 1) * m + 0;
      DivModUnique(x + 1, m, q + 1, 0);
    } else {
      DivModUnique(x + 1, m, q, r + 1);
    }
  }

  /** A quotient below `k` means the number is below `k * m`, and back. */
  lemma DivLt(x: int, m: int, k: int)
    requires x >= 0 && m > 0 && k >= 0
    ensures x / m < k <==> x < k * m
  {
    var q, r := x / m, x % m;
    assert x == q * m + r;
    if q < k {
      MulPos(k - q, m);
      assert (k - q) * m == k * m - q * m;
    } else {
      assert q * m >= k * m by {
        if q > k {
          MulPos(q - k, m);
          assert (q - k) * m == q * m - k * m;
        }
      }
    }
  }
}
