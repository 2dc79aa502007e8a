// Integer arithmetic the solver does not do on its own.
module Arith {

  type Byte = n: nat | n < 256

  function Abs(i: int): nat { if i < 0 then -i else i }

  function Quotient(n: nat, p: nat): (q: nat)
    requires p > 0
    ensures p * q <= n < p * q + p
  {
    n / p
  }

  lemma Gap(u: nat, k: int)
    requires u > 0
    ensures k >= 1 ==> u * k >= u
    ensures k <= -1 ==> u * k <= -(u as int)
  {
  }

  lemma DivUnique(n: int, u: nat, q: int, r: nat)
    requires u > 0 && n == u * q + r && r < u
    ensures n / u == q && n % u == r
  {
    assert n == u * (n / u) + n % u;
    assert u * (q - n / u) == n % u - r;
    Gap(u, q - n / u);
  }

  lemma SameRemainder(a: int, b: int, m: nat)
    requires m > 0
    ensures a % m == b % m <==> (a - b) % m == 0
  {
    var d, r := a / m - b / m, a % m - b % m;
    var q, s := (a - b) / m, (a - b) % m;
    assert m * (d - q) == s - r by { assert a - b == m * d + r && a - b == m * q + s; }
    Gap(m, d - q);
  }

  lemma QuotientExact(n: nat, d: nat)
    requires d > 0 && n % d == 0
    ensures Quotient(n, d) * d == n
  {
  }

  lemma DivExact(d: int, u: nat)
    requires u > 0
    ensures (d * u) / u == d && (d * u) % u == 0
  {
    DivUnique(d * u, u, d, 0);
  }

  lemma MulMono(a: int, b: int, c: nat)
    requires a <= b
    ensures a * c <= b * c
  {
  }

  lemma MulLess(a: int, b: int, c: nat)
    requires a < b && c > 0
    ensures a * c < b * c
  {
  }

  lemma DivBound(n: nat, d: nat, c: nat)
    requires d > 0 && n / d >= c
    ensures d * c <= n
  {
    MulMono(c, n / d, d);
  }

  lemma MulCancel(a: int, b: int, c: nat)
    requires a * c == b * c && c > 0
    ensures a == b
  {
    assert c * (a - b) == 0;
    Gap(c, a - b);
  }

  lemma MulAssoc(a: int, b: int, c: int)
    ensures a * b * c == a * (b * c) == b * (a * c)
  {
  }

  lemma DivDiv(n: nat, p: nat, q: nat)
    requires p > 0 && q > 0
    ensures n / (p * q) == (n / p) / q
  {
    var a := n / p;
    Digits(p, q, a / q, a % q, n % p);
    DivUnique(n, p * q, a / q, p * (a % q) + n % p);
  }

  // Two steps of a mixed-radix number.
  lemma Digits(p: nat, q: nat, b: nat, s: nat, r: nat)
    requires s < q && r < p
    ensures p * (q * b + s) + r == (p * q) * b + (p * s + r) && p * s + r < p * q
  {
    MulMono(s + 1, q, p);
    MulAssoc(p, q, b);
  }

  // Scaling both sides of a division.
  lemma DivScale(n: nat, d: nat, t: nat)
    requires d > 0 && t > 0
    ensures (n * t) / (d * t) == n / d && (n * t) % (d * t) == (n % d) * t
  {
    var q, r := n / d, n % d;
    assert n == d * q + r;
    assert (d * q + r) * t == (d * t) * q + r * t;
    MulLess(r, d, t);
    DivUnique(n * t, d * t, q, r * t);
  }

  function Pow2(k: nat): (p: nat)
    ensures p > 0
  {
    if k == 0 then 1 else 2 * Pow2(k - 1)
  }

  function Pow5(k: nat): (p: nat)
    ensures p > 0
  {
    if k == 0 then 1 else 5 * Pow5(k - 1)
  }

  function Pow10(k: nat): (p: nat)
    ensures p > 0
  {
    if k == 0 then 1 else 10 * Pow10(k - 1)
  }

  lemma {:induction false} Pow2Add(a: nat, b: nat)
    ensures Pow2(a + b) == Pow2(a) * Pow2(b)
  {
    if a > 0 {
      Pow2Add(a - 1, b);
      assert Pow2(a + b) == 2 * (Pow2(a - 1) * Pow2(b));
    }
  }

  lemma {:induction false} Pow10Add(a: nat, b: nat)
    ensures Pow10(a + b) == Pow10(a) * Pow10(b)
  {
    if a > 0 {
      Pow10Add(a - 1, b);
      assert Pow10(a + b) == 10 * (Pow10(a - 1) * Pow10(b));
    }
  }

  lemma {:induction false} Pow10Factors(k: nat)
    ensures Pow10(k) == Pow2(k) * Pow5(k)
  {
    if k > 0 {
      Pow10Factors(k - 1);
      MulAssoc(2 * Pow2(k - 1), 5, Pow5(k - 1));
    }
  }
}
