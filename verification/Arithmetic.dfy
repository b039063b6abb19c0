/** Number theory the exact-number modules share: greatest common divisors with
    their Bezout coefficients, powers, and the divisibility facts built on them. */
module Arithmetic {

  function Abs(x: int): nat {
    if x < 0 then -x else x
  }

  function Gcd(a: nat, b: nat): (g: nat)
    decreases b
  {
    if b == 0 then a else Gcd(b, a % b)
  }

  ghost predicate Divides(d: int, n: int) {
    exists q: int :: q * d == n
  }

  ghost predicate Coprime(a: nat, b: nat) {
    Gcd(a, b) == 1
  }

  function Pow(base: nat, exponent: nat): (p: nat) {
    if exponent == 0 then 1 else base * Pow(base, exponent - 1)
  }

  // ----- products, one algebraic step at a time -----

  lemma NatProduct(a: nat, b: nat)
    ensures a * b >= 0
  {
  }

  lemma MulAssoc(a: int, b: int, c: int)
    ensures (a * b) * c == a * (b * c)
  {
  }

  lemma Cancel(p: int, u: int, v: int)
    requires p > 0 && p * u == p * v
    ensures u == v
  {
  }

  lemma Regroup(a: int, b: int, c: int, d: int)
    ensures (a * b) * (c * d) == (a * c) * (b * d)
  {
    assert (a * b) * (c * d) == a * (b * (c * d));
    assert b * (c * d) == c * (b * d);
    assert a * (c * (b * d)) == (a * c) * (b * d);
  }

  // ----- divisibility -----

  lemma DividesIntro(d: int, n: int, q: int)
    requires q * d == n
    ensures Divides(d, n)
  {
  }

  lemma DividesProduct(d: int, n: int, k: int)
    requires Divides(d, n)
    ensures Divides(d, k * n)
  {
    var q :| q * d == n;
    assert (k * q) * d == k * n;
  }

  lemma DividesSum(d: int, m: int, n: int)
    requires Divides(d, m) && Divides(d, n)
    ensures Divides(d, m + n)
  {
    var p :| p * d == m;
    var q :| q * d == n;
    assert (p + q) * d == m + n;
  }

  lemma ModZeroIffDivides(n: int, d: int)
    requires d > 0
    ensures n % d == 0 <==> Divides(d, n)
  {
    if n % d == 0 {
      DividesIntro(d, n, n / d);
    }
    if Divides(d, n) {
      var q :| q * d == n;
      MultipleModZero(q, d);
    }
  }

  lemma ProductAtLeast(x: int, y: int)
    requires x >= 1 && y >= 0
    ensures x * y >= y
  {
    assert x * y == (x - 1) * y + y;
  }

  lemma MultipleModZero(q: int, d: int)
    requires d > 0
    ensures (q * d) % d == 0 && (q * d) / d == q
  {
    var quotient, rest := (q * d) / d, (q * d) % d;
    assert (q - quotient) * d == rest;
    if q != quotient {
      ProductAtLeast(Abs(q - quotient), d);
    }
  }

  // ----- greatest common divisor -----

  lemma {:induction false} GcdDividesBoth(a: nat, b: nat)
    ensures Divides(Gcd(a, b), a) && Divides(Gcd(a, b), b)
    decreases b
  {
    if b == 0 {
      DividesIntro(a, a, 1);
      DividesIntro(a, 0, 0);
    } else {
      var g := Gcd(b, a % b);
      GcdDividesBoth(b, a % b);
      DividesProduct(g, b, a / b);
      DividesSum(g, (a / b) * b, a % b);
    }
  }

  lemma {:induction false} Bezout(a: nat, b: nat) returns (x: int, y: int)
    ensures a * x + b * y == Gcd(a, b)
    decreases b
  {
    if b == 0 {
      x, y := 1, 0;
    } else {
      var p, q := Bezout(b, a % b);
      x, y := q, p - (a / b) * q;
      calc {
        a * x + b * y;
        a * q + b * (p - (a / b) * q);
        a * q + b * p - b * ((a / b) * q);
        { assert b * ((a / b) * q) == ((a / b) * b) * q; }
        b * p + (a - (a / b) * b) * q;
        b * p + (a % b) * q;
      }
    }
  }

  lemma GcdPositive(a: nat, b: nat)
    requires a > 0 || b > 0
    ensures Gcd(a, b) > 0
    decreases b
  {
  }

  /** Every common divisor divides the greatest one. */
  lemma CommonDivisorDividesGcd(d: int, a: nat, b: nat)
    requires Divides(d, a) && Divides(d, b)
    ensures Divides(d, Gcd(a, b))
  {
    var x, y := Bezout(a, b);
    DividesProduct(d, a, x);
    DividesProduct(d, b, y);
    DividesSum(d, x * a, y * b);
    assert x * a + y * b == Gcd(a, b);
  }

  lemma CoprimeNoCommonFactor(a: nat, b: nat, d: int)
    requires Coprime(a, b) && Divides(d, a) && Divides(d, b)
    ensures d == 1 || d == -1
  {
    CommonDivisorDividesGcd(d, a, b);
    var q :| q * d == 1;
    if q >= 1 {
      ProductAtLeast(q, Abs(d));
    } else if q <= -1 {
      ProductAtLeast(-q, Abs(d));
    }
  }

  // ----- powers -----

  lemma PowPositive(base: nat, exponent: nat)
    requires base > 0
    ensures Pow(base, exponent) > 0
  {
    if exponent > 0 {
      PowPositive(base, exponent - 1);
    }
  }

  lemma {:induction false} PowAdd(base: nat, m: nat, n: nat)
    ensures Pow(base, m + n) == Pow(base, m) * Pow(base, n)
    decreases m
  {
    if m > 0 {
      PowAdd(base, m - 1, n);
      assert Pow(base, m + n) == base * Pow(base, m - 1 + n);
      MulAssoc(base, Pow(base, m - 1), Pow(base, n));
    }
  }

  lemma {:induction false} PowTen(k: nat)
    ensures Pow(10, k) == Pow(2, k) * Pow(5, k)
  {
    if k > 0 {
      PowTen(k - 1);
      Regroup(2, Pow(2, k - 1), 5, Pow(5, k - 1));
    }
  }
}
