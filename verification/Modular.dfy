/** Remainders of sums of multiples, shared by the modules that compute modulo something. */
module Modular {

  lemma ModShift(r: int, k: int, m: int)
    requires m > 0
    ensures (r + k * m) % m == r % m
  {
    var q := r / m + k;
    var s := r % m;
    assert r == r / m * m + s;
    assert r + k * m == q * m + s;
    Unique(r + k * m, m, q, s);
  }

  lemma Unique(x: int, m: int, q: int, s: int)
    requires m > 0 && 0 <= s < m && x == q * m + s
    ensures x % m == s
  {
    SameRemainder(m, q, s, x / m, x % m);
  }

  lemma SameRemainder(m: int, q: int, s: int, q': int, s': int)
    requires 0 <= s < m && 0 <= s' < m && q * m + s == q' * m + s'
    ensures s == s'
  {
    SmallMultiple(q - q', m);
  }

  lemma SmallMultiple(d: int, m: int)
    requires m > 0
    ensures -m < d * m < m ==> d == 0
  {
    if d >= 1 {
      assert (d - 1) * m >= 0;
    } else if d <= -1 {
      assert (-1 - d) * m >= 0;
    }
  }

  lemma SameResidue(x: int, y: int, m: int)
    requires m > 0
    ensures x % m == y % m <==> (x - y) % m == 0
  {
    if x % m == y % m {
      var q := x / m - y / m;
      assert x == x / m * m + x % m && y == y / m * m + y % m;
      assert x - y == q * m + 0;
      Unique(x - y, m, q, 0);
    }
    if (x - y) % m == 0 {
      var k := (x - y) / m;
      assert x - y == k * m;
      ModShift(y, k, m);
    }
  }

  function Pow2(k: nat): (r: nat)
    ensures r > 0
  {
    if k == 0 then 1 else 2 * Pow2(k - 1)
  }

  /** Positions in a ring wrap at most once. */
  lemma RingIndex(head: int, i: int, cap: int)
    requires 0 <= head < cap && 0 <= i < cap
    ensures (head + i) % cap == if head + i < cap then head + i else head + i - cap
  {
  }
}
