/** The key exchange arithmetic on 64-bit words: multiplication and powers modulo the largest
    64-bit prime, without any intermediate result that needs more than 64 bits. */
module DiffieHellman {
  import opened Modular

  const P := 0xffff_ffff_ffff_ffc5
  const WORD := 0x1_0000_0000_0000_0000
  const G := 5

  function Power(a: int, b: nat): int { if b == 0 then 1 else a * Power(a, b - 1) }

  // Congruences.

  lemma ModMul(x: int, y: int, m: int)
    requires m > 0
    ensures (x % m) * y % m == x * y % m
  {
    var q, r := x / m, x % m;
    assert x == q * m + r;
    assert x * y == r * y + (q * y) * m;
    ModShift(r * y, q * y, m);
  }

  lemma {:induction false} PowerMod(a: int, b: nat, m: int)
    requires m > 0
    ensures Power(a % m, b) % m == Power(a, b) % m
  {
    if b > 0 {
      PowerMod(a, b - 1, m);
      var p, p' := Power(a, b - 1), Power(a % m, b - 1);
      ModMul(a, p', m);
      ModMul(p', a, m);
      ModMul(p, a, m);
      assert a * p' == p' * a && a * p == p * a;
    }
  }

  lemma {:induction false} PowerAdd(a: int, b: nat, c: nat)
    ensures Power(a, b + c) == Power(a, b) * Power(a, c)
  {
    if b > 0 {
      PowerAdd(a, b - 1, c);
      Assoc(a, Power(a, b - 1), Power(a, c));
    }
  }

  lemma Assoc(a: int, b: int, c: int)
    ensures a * b * c == a * (b * c)
  {
  }

  lemma {:induction false} PowerPower(a: int, b: nat, c: nat)
    ensures Power(Power(a, b), c) == Power(a, b * c)
  {
    if c > 0 {
      PowerPower(a, b, c - 1);
      PowerAdd(a, b, b * (c - 1));
      assert b + b * (c - 1) == b * c;
    }
  }

  // The program.

  /** Doubling modulo the prime: the product may wrap at 64 bits, the difference undoes it. */
  lemma DoubleWraps(a: int)
    requires 0 <= a <= P && a >= P - a
    ensures (a * 2 % WORD - P) % WORD == 2 * a - P
  {
  }

  lemma DoubleMod(a: int)
    requires 0 <= a <= P
    ensures a >= P - a ==> 0 <= 2 * a - P <= a
    ensures a < P - a ==> 2 * a < P
  {
  }

  /** Multiplication bit by bit, for factors up to the prime and any 64-bit multiplier. */
  method MulModP(a: int, b: int) returns (m: int)
    requires 0 <= a <= P && 0 <= b < WORD
    ensures m == a * b % P
  {
    m := 0;
    var x, n := a, b;
    assert (m + x * n) % P == a * b % P;
    while n > 0
      invariant 0 <= x <= P && 0 <= n < WORD && 0 <= m < P
      invariant (m + x * n) % P == a * b % P
      decreases n
    {
      ghost var m0, x0, n0 := m, x, n;
      if n % 2 == 1 {
        var t := P - x;
        if m >= t {
          m := m - t;
        } else {
          m := m + x;
        }
      }
      DoubleMod(x);
      if x >= P - x {
        DoubleWraps(x);
        x := (x * 2 % WORD - P) % WORD;
      } else {
        x := x * 2;
      }
      n := n / 2;
      StepMod(m0, x0, n0, m, x, n);
    }
    assert m % P == m;
  }

  /** One bit of the multiplier. */
  lemma StepMod(m0: int, x0: int, n0: int, m: int, x: int, n: int)
    requires n0 >= 0 && n == n0 / 2
    requires m == m0 + (if n0 % 2 == 1 then x0 else 0) || (n0 % 2 == 1 && m == m0 + x0 - P)
    requires x == 2 * x0 || x == 2 * x0 - P
    ensures (m + x * n) % P == (m0 + x0 * n0) % P
  {
    var k := (if x == 2 * x0 then 0 else -n) + if m == m0 + (if n0 % 2 == 1 then x0 else 0) then 0 else -1;
    assert n0 == 2 * n + n0 % 2;
    assert x0 * n0 == x0 * (2 * n) + x0 * (n0 % 2);
    assert m + x * n == (m0 + x0 * n0) + k * P by { Expand(m0, x0, n0, m, x, n, k); }
    ModShift(m0 + x0 * n0, k, P);
  }

  lemma Expand(m0: int, x0: int, n0: int, m: int, x: int, n: int, k: int)
    requires n0 >= 0 && n == n0 / 2
    requires m == m0 + (if n0 % 2 == 1 then x0 else 0) || (n0 % 2 == 1 && m == m0 + x0 - P)
    requires x == 2 * x0 || x == 2 * x0 - P
    requires k == (if x == 2 * x0 then 0 else -n) + if m == m0 + (if n0 % 2 == 1 then x0 else 0) then 0 else -1
    ensures m + x * n == m0 + x0 * n0 + k * P
  {
    var d := n0 % 2;
    assert n0 == 2 * n + d;
    assert x0 * n0 == 2 * (x0 * n) + x0 * d;
    assert d == 0 || d == 1;
    assert x0 * d == if d == 1 then x0 else 0;
    if x == 2 * x0 {
      assert x * n == 2 * (x0 * n);
    } else {
      assert x * n == 2 * (x0 * n) - n * P;
    }
  }

  /** Powers by repeated squaring, for exponents from 1. */
  method PowModP(a: int, b: int) returns (r: int)
    requires 0 <= a <= P && 1 <= b < WORD
    ensures r == if b == 1 then a else Power(a, b) % P
    decreases b
  {
    if b == 1 { return a; }
    var t := PowModP(a, b / 2);
    ghost var half := Power(a, b / 2);
    HalfPower(a, b, t);
    r := MulModP(t, t);
    ModMul2(t, half, P);
    if b % 2 == 1 {
      ModMul(half * half, a, P);
      r := MulModP(r, a);
    }
  }

  lemma HalfPower(a: int, b: int, t: int)
    requires 0 <= a <= P && b >= 2 && t == (if b / 2 == 1 then a else Power(a, b / 2) % P)
    ensures 0 <= t <= P && t % P == Power(a, b / 2) % P
    ensures Power(a, b) == if b % 2 == 1 then Power(a, b / 2) * Power(a, b / 2) * a else Power(a, b / 2) * Power(a, b / 2)
  {
    var h := b / 2;
    PowerAdd(a, h, h);
    if b / 2 == 1 { assert Power(a, 1) == a * Power(a, 0); }
    if b % 2 == 1 {
      assert b == 2 * h + 1;
      PowerAdd(a, 2 * h, 1);
      assert Power(a, 1) == a * Power(a, 0);
    }
  }

  lemma ModMul2(t: int, h: int, m: int)
    requires m > 0 && t % m == h % m
    ensures t * t % m == h * h % m
  {
    ModMul(t, t, m);
    ModMul(h, t, m);
    ModMul(h, h, m);
    var r := t % m;
    ModMul(t, h, m);
    assert t * h == h * t;
  }

  /** The power the program computes. The base is reduced only when it exceeds the prime, so the prime
      itself comes back unreduced when the exponent is one. */
  function PowResult(a: int, b: nat): int { if a == P && b == 1 then P else Power(a, b) % P }

  /** The result is the power modulo the prime exactly when the base is not the prime itself or
      the exponent is not one. */
  lemma ExactUnless(a: int, b: nat)
    requires 0 <= a < WORD && 1 <= b
    ensures PowResult(a, b) == Power(a, b) % P <==> !(a == P && b == 1)
  {
    SmallPower(a);
  }

  /** Powers modulo the prime of any 64-bit base; wrong for the first power of the prime only. */
  method PowerModP(a: int, b: int) returns (r: int)
    requires 0 <= a < WORD && 1 <= b < WORD
    ensures r == PowResult(a, b)
    ensures r == Power(a, b) % P <==> !(a == P && b == 1)
  {
    ExactUnless(a, b);
    var x := a;
    if x > P { x := x % P; }
    PowerMod(a, b, P);
    r := PowModP(x, b);
    if b == 1 {
      assert Power(x, 1) == x * Power(x, 0);
      SmallPower(x);
    }
  }

  lemma SmallPower(x: int)
    requires 0 <= x
    ensures Power(x, 1) == x && (x < P ==> x % P == x)
  {
    assert Power(x, 1) == x * Power(x, 0);
  }

  /** Two parties with secret exponents arrive at the same secret. */
  method Exchange(x: int, y: int) returns (publicX: int, publicY: int, secretX: int, secretY: int)
    requires 1 <= x < WORD && 1 <= y < WORD
    ensures publicX == Power(G, x) % P && publicY == Power(G, y) % P
    ensures secretX == secretY == Power(G, x * y) % P
  {
    publicX := PowerModP(G, x);
    publicY := PowerModP(G, y);
    secretX := PowerModP(publicY, x);
    secretY := PowerModP(publicX, y);
    Agree(x, y);
    Agree(y, x);
    assert x * y == y * x;
  }

  lemma Agree(x: nat, y: nat)
    ensures Power(Power(G, x) % P, y) % P == Power(G, x * y) % P
  {
    PowerMod(Power(G, x), y, P);
    PowerPower(G, x, y);
  }
}
