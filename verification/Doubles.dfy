// float64: rounding a quotient to 53 significant bits, ties to even.
module Doubles {
  import opened Arith

  const MANTISSA := 0x20_0000_0000_0000

  // How many low bits of n do not fit a 53-bit mantissa.
  function Excess(n: nat): nat { if n < MANTISSA then 0 else 1 + Excess(n / 2) }

  // The integer next to p/d; of two, the even one.
  function HalfEven(p: nat, d: nat): nat
    requires d > 0
  {
    var m, r := p / d, p % d;
    if 2 * r > d || (2 * r == d && m % 2 == 1) then m + 1 else m
  }

  // The other neighbour of p/d.
  function OtherSide(p: nat, d: nat): nat
    requires d > 0
  {
    if HalfEven(p, d) == p / d then p / d + 1 else p / d
  }

  // p/q rounded to 53 bits.
  function RoundQuotient(p: nat, q: nat): nat
    requires q > 0
  {
    var unit := Pow2(Excess(p / q));
    HalfEven(p, q * unit) * unit
  }

  function RoundNat(n: nat): nat { RoundQuotient(n, 1) }

  function RoundInt(i: int): int { if i < 0 then -(RoundNat(-i) as int) else RoundNat(i) }

  // The integers a float64 can hold.
  predicate Holds(n: int) { RoundInt(n) == n }

  lemma HoldsAbs(n: int)
    ensures Holds(n) <==> Holds(Abs(n))
  {
    hide RoundQuotient;
  }

  lemma HeldRounds(n: nat)
    requires Holds(n)
    ensures RoundQuotient(n, 1) == n
  {
  }

  // ----- what 53 bits hold -------------------------------------------------------------

  lemma {:induction false} ExcessBound(n: nat)
    ensures n / Pow2(Excess(n)) < MANTISSA
    ensures Excess(n) > 0 ==> n / Pow2(Excess(n)) >= MANTISSA / 2
  {
    if n >= MANTISSA {
      ExcessBound(n / 2);
      DivDiv(n, 2, Pow2(Excess(n / 2)));
      if Excess(n / 2) == 0 { assert Pow2(1) == 2 && Pow2(0) == 1; }
    }
  }

  lemma {:induction false} ExcessBelow(n: nat, k: nat)
    requires n < MANTISSA * Pow2(k)
    ensures Excess(n) <= k
  {
    if n >= MANTISSA && k > 0 {
      assert Pow2(k) == 2 * Pow2(k - 1);
      assert n / 2 < MANTISSA * Pow2(k - 1);
      ExcessBelow(n / 2, k - 1);
    }
  }

  lemma {:induction false} ExcessAbove(n: nat, k: nat)
    requires k > 0 && n >= MANTISSA / 2 * Pow2(k)
    ensures Excess(n) >= k
  {
    assert Pow2(k) == 2 * Pow2(k - 1);
    if k > 1 {
      assert Pow2(k - 1) == 2 * Pow2(k - 2);
      assert n / 2 >= MANTISSA / 2 * Pow2(k - 1);
      ExcessAbove(n / 2, k - 1);
    }
  }

  lemma HalfEvenExact(j: nat, d: nat)
    requires d > 0
    ensures HalfEven(j * d, d) == j
  {
    DivExact(j, d);
  }

  // A number of at most 53 significant bits is held.
  lemma ScaledHolds(h: nat, k: nat)
    requires h <= MANTISSA
    ensures RoundNat(h * Pow2(k)) == h * Pow2(k)
  {
    var n := h * Pow2(k);
    MulMono(h, MANTISSA, Pow2(k));
    if h == MANTISSA {
      assert Pow2(k + 1) == 2 * Pow2(k);
      assert n == MANTISSA / 2 * Pow2(k + 1);
      MulLess(MANTISSA / 2, MANTISSA, Pow2(k + 1));
      ExcessBelow(n, k + 1);
      MultipleHolds(MANTISSA / 2, k + 1);
    } else {
      MulLess(h, MANTISSA, Pow2(k));
      ExcessBelow(n, k);
      MultipleHolds(h, k);
    }
  }

  lemma RoundUnit(n: nat)
    ensures RoundNat(n) == HalfEven(n, Pow2(Excess(n))) * Pow2(Excess(n))
  {
    hide Excess, Pow2, HalfEven;
    assert n / 1 == n;
  }

  lemma MultipleHolds(h: nat, k: nat)
    requires Excess(h * Pow2(k)) <= k
    ensures RoundNat(h * Pow2(k)) == h * Pow2(k)
  {
    hide Excess, Pow2, HalfEven, RoundNat;
    var x := Excess(h * Pow2(k));
    RoundUnit(h * Pow2(k));
    var j := h * Pow2(k - x);
    Pow2Add(k - x, x);
    MulAssoc(h, Pow2(k - x), Pow2(x));
    HalfEvenExact(j, Pow2(x));
  }

  // What is held is a multiple of its unit, and of every smaller one.
  lemma HeldMultiple(n: nat, k: nat) returns (j: nat)
    requires Holds(n) && Excess(n) >= k
    ensures n == j * Pow2(k)
  {
    var x := Excess(n);
    assert n / 1 == n;
    var h := HalfEven(n, Pow2(x));
    Pow2Add(x - k, k);
    j := h * Pow2(x - k);
    MulAssoc(h, Pow2(x - k), Pow2(k));
  }

  ghost predicate Bits53(m: nat, h: nat, k: nat) { h < 0x20_0000_0000_0000 && m == h * Pow2(k) }

  // What a float64 holds: numbers of 53 bits, times a power of two.
  lemma HoldsExact(n: int)
    ensures Holds(n) <==> exists h: nat, k: nat :: Bits53(Abs(n), h, k)
  {
    hide RoundQuotient;
    HoldsAbs(n);
    if Holds(n) {
      var h, k := HeldBits(Abs(n));
      assert Bits53(Abs(n), h, k);
    }
    if h: nat, k: nat :| Bits53(Abs(n), h, k) { ScaledHolds(h, k); }
  }

  lemma HeldBits(m: nat) returns (h: nat, k: nat)
    requires Holds(m)
    ensures Bits53(m, h, k)
  {
    k := Excess(m);
    h := HeldMultiple(m, k);
    ExcessBound(m);
    DivExact(h, Pow2(k));
  }

  // ----- powers of two --------------------------------------------------------------------

  lemma {:induction false} ExcessShift(n: nat, s: nat)
    requires n >= MANTISSA
    ensures Excess(n * Pow2(s)) == Excess(n) + s
  {
    if s > 0 {
      var m := n * Pow2(s - 1);
      ExcessShift(n, s - 1);
      MulMono(1, Pow2(s - 1), n);
      assert n * Pow2(s) == 2 * m;
    }
  }

  // A power of two more or less does not change the bits.
  lemma RoundShift(n: nat, s: nat)
    ensures RoundNat(n * Pow2(s)) == RoundNat(n) * Pow2(s)
  {
    var t := Pow2(s);
    if n < MANTISSA {
      ScaledHolds(n, s);
      ScaledHolds(n, 0);
      assert Pow2(0) == 1;
    } else {
      var k := Excess(n);
      ExcessShift(n, s);
      Pow2Add(k, s);
      assert n / 1 == n && (n * t) / 1 == n * t;
      HalfEvenScale(n, Pow2(k), t);
      MulAssoc(HalfEven(n, Pow2(k)), Pow2(k), t);
    }
  }

  lemma HalfEvenScale(p: nat, d: nat, t: nat)
    requires d > 0 && t > 0
    ensures d * t > 0 && HalfEven(p * t, d * t) == HalfEven(p, d)
  {
    MulLess(0, d, t);
    DivScale(p, d, t);
    var r := p % d;
    assert 2 * (r * t) == 2 * r * t;
    if 2 * r > d { MulLess(d, 2 * r, t); }
    if 2 * r < d { MulLess(2 * r, d, t); }
  }

  lemma SmallIntegers(i: int)
    requires -MANTISSA <= i <= MANTISSA
    ensures Holds(i)
  {
    ScaledHolds(Abs(i), 0);
    assert Pow2(0) == 1;
  }

  lemma RoundIn(n: nat, k: nat)
    requires k > 0 && MANTISSA / 2 * Pow2(k) <= n < MANTISSA * Pow2(k)
    ensures RoundNat(n) == HalfEven(n, Pow2(k)) * Pow2(k)
  {
    ExcessAbove(n, k);
    ExcessBelow(n, k);
    assert n / 1 == n;
  }

  // ----- nearest -------------------------------------------------------------------------

  // How far p/q is from n, times q.
  function Distance(p: nat, q: nat, n: int): nat { Abs(p - q * n) }

  lemma DistanceFrom(p: nat, d: nat, j: int)
    requires d > 0
    ensures Distance(p, d, j) == Abs(d * (p / d - j) + p % d)
  {
    assert p == d * (p / d) + p % d;
    Distribute(d, p / d, j);
  }

  lemma Distribute(d: int, m: int, j: int)
    ensures d * (m - j) == d * m - d * j
  {
  }

  // Multiples of d.
  lemma Multiples(d: nat, k: int)
    requires d > 0
    ensures (k >= 1 ==> d * k >= d) && (k == 0 ==> d * k == 0)
    ensures (k == -1 ==> d * k + d == 0) && (k <= -2 ==> d * k <= -2 * d)
  {
    if k > -1 { Gap(d, k); }
    if k < -1 {
      Gap(d, k + 1);
      Distribute(d, k, -1);
    }
  }

  lemma HalfEvenNear(p: nat, d: nat, j: int)
    requires d > 0
    ensures Distance(p, d, HalfEven(p, d)) <= Distance(p, d, j)
    ensures j != HalfEven(p, d) && Distance(p, d, HalfEven(p, d)) == Distance(p, d, j) ==> HalfEven(p, d) % 2 == 0
    ensures 2 * Distance(p, d, HalfEven(p, d)) <= d
  {
    hide Distance;
    var m := p / d;
    DistanceFrom(p, d, j);
    DistanceFrom(p, d, m);
    DistanceFrom(p, d, m + 1);
    Multiples(d, m - j);
    Multiples(d, 0);
    Multiples(d, -1);
  }

  lemma RoundHeld(p: nat, q: nat)
    requires q > 0
    ensures Holds(RoundQuotient(p, q))
  {
    var k := Excess(p / q);
    var u := Pow2(k);
    ExcessBound(p / q);
    DivDiv(p, q, u);
    ScaledHolds(HalfEven(p, q * u), k);
  }

  // The rounded quotient is the nearest number that is held; a tie goes to an even multiple
  // of the unit.
  lemma RoundNearest(p: nat, q: nat, n: nat)
    requires q > 0 && Holds(n)
    ensures Distance(p, q, RoundQuotient(p, q)) <= Distance(p, q, n)
    ensures n != RoundQuotient(p, q) && Distance(p, q, RoundQuotient(p, q)) == Distance(p, q, n) ==>
              HalfEven(p, q * Pow2(Excess(p / q))) % 2 == 0
  {
    var k := Excess(p / q);
    var u := Pow2(k);
    var d := q * u;
    var h := HalfEven(p, d);
    MulAssoc(q, h, u);
    assert q * (h * u) == d * h by { MulAssoc(h, q, u); }
    if k == 0 || n >= MANTISSA / 2 * u {
      if k > 0 { ExcessAbove(n, k); }
      var j := HeldMultiple(n, k);
      assert q * n == d * j by { MulAssoc(j, q, u); }
      HalfEvenNear(p, d, j);
    } else {
      BelowUnits(p, q, n, k);
      HalfEvenNear(p, d, MANTISSA / 2);
    }
  }

  // A number below the binade of p/q is farther away than the binade's start.
  lemma BelowUnits(p: nat, q: nat, n: nat, k: nat)
    requires q > 0 && k == Excess(p / q) && k > 0 && n < MANTISSA / 2 * Pow2(k)
    ensures q * n < (q * Pow2(k)) * (MANTISSA / 2) <= p
  {
    var u := Pow2(k);
    ExcessBound(p / q);
    hide Pow2, Excess;
    DivDiv(p, q, u);
    DivBound(p, q * u, MANTISSA / 2);
    MulLess(n, MANTISSA / 2 * u, q);
    MulAssoc(MANTISSA / 2, q, u);
  }

  lemma RoundSame(p: nat, q: nat, t: nat)
    requires q > 0 && t > 0
    ensures q * t > 0 && RoundQuotient(p * t, q * t) == RoundQuotient(p, q)
  {
    MulLess(0, q, t);
    DivScale(p, q, t);
    var u := Pow2(Excess(p / q));
    assert q * t * u == q * u * t by { MulAssoc(q, t, u); MulAssoc(q, u, t); }
    HalfEvenScale(p, q * u, t);
  }

  lemma SameQuotient(p: nat, q: nat, p': nat, q': nat)
    requires q > 0 && q' > 0 && p * q' == p' * q
    ensures RoundQuotient(p, q) == RoundQuotient(p', q')
  {
    hide RoundQuotient;
    RoundSame(p, q, q');
    RoundSame(p', q', q);
  }

  // Rounding keeps order.
  lemma RoundMono(p: nat, q: nat, p': nat, q': nat)
    requires q > 0 && q' > 0 && p * q' <= p' * q
    ensures RoundQuotient(p, q) <= RoundQuotient(p', q')
  {
    var r, r' := RoundQuotient(p, q), RoundQuotient(p', q');
    if r > r' {
      RoundHeld(p, q);
      RoundHeld(p', q');
      RoundNearest(p, q, r');
      RoundNearest(p', q', r);
      hide RoundQuotient, Distance, Holds;
      Midpoint(p, q, r', r);
      Midpoint(p', q', r', r);
      CrossTie(p, q, p', q', r' + r);
      SameQuotient(p, q, p', q');
    }
  }

  lemma CrossTie(p: nat, q: nat, p': nat, q': nat, s: nat)
    requires q * s <= 2 * p && 2 * p' <= q' * s && p * q' <= p' * q
    ensures p * q' == p' * q
  {
    MulMono(q * s, 2 * p, q');
    MulMono(2 * p', q' * s, q);
    MulAssoc(q, s, q');
    MulAssoc(q', s, q);
    MulAssoc(2, p, q');
    MulAssoc(2, p', q);
  }

  // Nearer to the larger of two numbers is past their middle.
  lemma Midpoint(p: nat, q: nat, lo: nat, hi: nat)
    requires q > 0 && lo < hi
    ensures Distance(p, q, hi) <= Distance(p, q, lo) ==> 2 * p >= q * (lo + hi)
    ensures Distance(p, q, lo) <= Distance(p, q, hi) ==> 2 * p <= q * (lo + hi)
  {
    MulLess(lo, hi, q);
    assert q * (lo + hi) == q * lo + q * hi;
  }
}
