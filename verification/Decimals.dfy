// Decimal numbers and the float64 next to them, both ways.
module Decimals {
  import opened Arith
  import opened Doubles
  import opened Optional

  // 2^-1074, the least positive float64, is the grain: every finite float64 is a number of
  // grains that 53 bits hold.
  const GRAIN := 1074

  // The grains in 1.
  function Grains(): (g: nat)
    ensures g > 0
  {
    Pow2(GRAIN)
  }

  // coef * 10^exp
  datatype Decimal = Decimal(coef: nat, exp: int)

  function Expanded(d: Decimal): nat
    requires d.exp >= 0
  {
    d.coef * Pow10(d.exp)
  }

  function Top(d: Decimal): nat { (if d.exp >= 0 then Expanded(d) else d.coef) * Grains() }

  function Bottom(d: Decimal): (q: nat)
    ensures q > 0
  {
    if d.exp >= 0 then 1 else Pow10(-d.exp)
  }

  // strconv.ParseFloat and decimal.Float64: the float64 next to a decimal, in grains.
  function Nearest(d: Decimal): nat { RoundQuotient(Top(d), Bottom(d)) }

  // ----- strconv.FormatFloat(_, 'f', -1, 64) -------------------------------------------------

  // n grains in units of 10^e, as a quotient.
  function Over(n: nat, e: int): nat { if e >= 0 then n else n * Pow10(-e) }

  function Under(e: int): (q: nat)
    ensures q > 0
  {
    if e >= 0 then Grains() * Pow10(e) else Grains()
  }

  // A multiple of 10^e that reads back as n grains, the nearer one if both neighbours do.
  function At(n: nat, e: int): Option<nat> {
    var near, far := HalfEven(Over(n, e), Under(e)), OtherSide(Over(n, e), Under(e));
    if Nearest(Decimal(near, e)) == n then Some(near)
    else if Nearest(Decimal(far, e)) == n then Some(far)
    else None
  }

  // The fewest digits that read back as n grains, from the place 10^e on.
  function Shortest(n: nat, e: int): (d: Decimal)
    ensures e >= -GRAIN ==> -GRAIN <= d.exp <= e
    decreases e + GRAIN, n
  {
    if e <= -GRAIN then Decimal(n * Pow5(GRAIN), -GRAIN)
    else match At(n, e)
      case Some(c) => Decimal(c, e)
      case None => Shortest(n, e - 1)
  }

  lemma ExactQuotient(n: nat, g: nat)
    requires Holds(n)
    ensures RoundQuotient(n * Pow5(g) * Pow2(g), Pow10(g)) == n
  {
    hide RoundQuotient, Pow2, Pow5, Pow10;
    Pow10Factors(g);
    MulAssoc(n, Pow5(g), Pow2(g));
    RoundSame(n, 1, Pow10(g));
  }

  // Every float64 is a decimal.
  lemma ExactDecimal(n: nat)
    requires Holds(n)
    ensures Nearest(Decimal(n * Pow5(GRAIN), -GRAIN)) == n
  {
    hide Pow2, Pow5, Pow10, RoundQuotient, Holds;
    ExactQuotient(n, GRAIN);
  }

  // The digits read back as the float64 they were printed from.
  lemma {:induction false} ShortestBack(n: nat, e: int)
    requires Holds(n) && e >= -GRAIN
    ensures Nearest(Shortest(n, e)) == n
    decreases e + GRAIN
  {
    hide Nearest, Pow5, Holds, HalfEven, OtherSide, Over, Under;
    if e == -GRAIN {
      ExactDecimal(n);
    } else if At(n, e) == None {
      ShortestBack(n, e - 1);
    }
  }

  // c * 10^e and n grains, compared by cross multiplication.
  lemma ScaledCompare(n: nat, e: int, c: nat)
    ensures var p, q, d := Over(n, e), Under(e), Decimal(c, e);
            && (c * q <= p <==> Top(d) <= n * Bottom(d))
            && (c * q >= p <==> Top(d) >= n * Bottom(d))
  {
    hide Pow10, Grains;
    if e >= 0 { MulAssoc(c, Pow10(e), Grains()); MulAssoc(c, Grains(), Pow10(e)); }
  }

  lemma CoefMono(c: nat, c': nat, e: int)
    requires c <= c'
    ensures Nearest(Decimal(c, e)) <= Nearest(Decimal(c', e))
  {
    var d, d' := Decimal(c, e), Decimal(c', e);
    if e >= 0 { MulMono(c, c', Pow10(e)); }
    hide Pow10, Grains, RoundQuotient;
    MulMono(if e >= 0 then c * Pow10(e) else c, if e >= 0 then c' * Pow10(e) else c', Grains());
    MulMono(Top(d), Top(d'), Bottom(d));
    RoundMono(Top(d), Bottom(d), Top(d'), Bottom(d'));
  }

  // If some multiple of 10^e reads back as n grains, a neighbour of n does.
  lemma NeighbourReads(n: nat, e: int, c: nat)
    requires Holds(n) && Nearest(Decimal(c, e)) == n
    ensures At(n, e) != None
  {
    hide Pow10, Grains, RoundQuotient, Over, Under;
    var p, q := Over(n, e), Under(e);
    var lo := p / q;
    assert p == q * lo + p % q;
    assert lo * q <= p < (lo + 1) * q;
    ScaledCompare(n, e, lo);
    ScaledCompare(n, e, lo + 1);
    var x := Decimal(if c <= lo then lo else lo + 1, e);
    if c <= lo {
      CoefMono(c, lo, e);
      RoundMono(Top(x), Bottom(x), n, 1);
    } else {
      CoefMono(lo + 1, c, e);
      RoundMono(n, 1, Top(x), Bottom(x));
    }
    assert Nearest(x) == n;
    assert HalfEven(p, q) == lo || HalfEven(p, q) == lo + 1;
  }

  // No fewer digits would do.
  lemma {:induction false} ShortestLeast(n: nat, e: int, c: nat, f: int)
    requires Holds(n) && -GRAIN <= f <= e && Nearest(Decimal(c, f)) == n
    ensures Shortest(n, e).exp >= f
    decreases e + GRAIN
  {
    if e > f {
      if At(n, e) == None { ShortestLeast(n, e - 1, c, f); }
    } else if e > -GRAIN {
      NeighbourReads(n, e, c);
    }
  }

  // How far c * 10^e is from n grains.
  ghost function Off(n: nat, e: int, c: nat): nat { Abs(Top(Decimal(c, e)) - n * Bottom(Decimal(c, e))) }

  lemma OffIs(n: nat, e: int, c: nat)
    ensures Off(n, e, c) == Distance(Over(n, e), Under(e), c)
  {
    hide Pow10, Grains;
    if e >= 0 { MulAssoc(c, Pow10(e), Grains()); MulAssoc(c, Grains(), Pow10(e)); }
  }

  // A neighbour of n that lies between n and a multiple of 10^e that reads back as n does, too.
  lemma BetweenReads(n: nat, e: int, c: nat, x: nat)
    requires Holds(n) && Nearest(Decimal(c, e)) == n
    requires (c <= x && x * Under(e) <= Over(n, e)) || (x <= c && x * Under(e) >= Over(n, e))
    ensures Nearest(Decimal(x, e)) == n
  {
    hide Pow10, Grains, RoundQuotient, Over, Under;
    var d := Decimal(x, e);
    ScaledCompare(n, e, x);
    HeldRounds(n);
    if c <= x && x * Under(e) <= Over(n, e) {
      CoefMono(c, x, e);
      RoundMono(Top(d), Bottom(d), n, 1);
    } else {
      CoefMono(x, c, e);
      RoundMono(n, 1, Top(d), Bottom(d));
    }
  }

  // Of two neighbours the first tried is the nearer one.
  lemma AtNearest(n: nat, e: int, c: nat)
    requires Holds(n) && At(n, e) != None && Nearest(Decimal(c, e)) == n
    ensures Off(n, e, At(n, e).value) <= Off(n, e, c)
  {
    hide Nearest, Off, Over, Under, HalfEven, OtherSide, Distance;
    var p, q, x := Over(n, e), Under(e), At(n, e).value;
    OffIs(n, e, c);
    OffIs(n, e, x);
    HalfEvenNear(p, q, c);
    Neighbours(p, q);
    if x != HalfEven(p, q) {
      if c <= p / q { BetweenReads(n, e, c, p / q); } else { BetweenReads(n, e, c, p / q + 1); }
      FartherOff(p, q, x, c);
    }
  }

  lemma Neighbours(p: nat, q: nat)
    requires q > 0
    ensures (p / q) * q <= p <= (p / q + 1) * q
    ensures OtherSide(p, q) == if HalfEven(p, q) == p / q then p / q + 1 else p / q
    ensures HalfEven(p, q) == p / q || HalfEven(p, q) == p / q + 1
  {
    var lo := p / q;
    assert p == q * lo + p % q;
  }

  lemma FartherOff(p: nat, q: nat, x: nat, c: nat)
    requires q > 0 && (x == p / q || x == p / q + 1) && (if x == p / q then c <= x else c >= x)
    ensures Distance(p, q, x) <= Distance(p, q, c)
  {
    var lo := p / q;
    assert p == q * lo + p % q;
    if x == lo { MulMono(c, lo, q); } else { MulMono(lo + 1, c, q); }
  }

  // Among digits of the same number that read back as the float64, the nearest are printed.
  lemma {:induction false} ShortestNearest(n: nat, e: int, c: nat)
    requires Holds(n) && e >= -GRAIN && Nearest(Decimal(c, Shortest(n, e).exp)) == n
    ensures Off(n, Shortest(n, e).exp, Shortest(n, e).coef) <= Off(n, Shortest(n, e).exp, c)
    decreases e + GRAIN
  {
    hide Nearest, Off, At;
    if e == -GRAIN {
      ExactOff(n);
    } else if At(n, e) == None {
      ShortestNearest(n, e - 1, c);
    } else {
      AtNearest(n, e, c);
    }
  }

  lemma ExactOff(n: nat)
    ensures Off(n, -GRAIN, n * Pow5(GRAIN)) == 0
  {
    hide Pow2, Pow5, Pow10;
    Pow10Factors(GRAIN);
    MulAssoc(n, Pow5(GRAIN), Pow2(GRAIN));
  }

  // The same number at another scale.
  function Rescaled(d: Decimal, k: nat): Decimal { Decimal(d.coef * Pow10(k), d.exp - k) }

  // Both are the same quotient.
  lemma RescaledQuotient(d: Decimal, k: nat)
    ensures Top(Rescaled(d, k)) * Bottom(d) == Top(d) * Bottom(Rescaled(d, k))
  {
    hide Pow10, Grains;
    var e, g := Rescaled(d, k), Grains();
    PowersAround(d, k);
    MulAssoc(d.coef, Pow10(k), g);
    if d.exp >= k {
      MulAssoc(d.coef, Pow10(k), Pow10(e.exp));
    } else if d.exp >= 0 {
      MulAssoc(d.coef, Pow10(d.exp), Pow10(-e.exp));
      MulAssoc(d.coef * Pow10(d.exp), g, Pow10(-e.exp));
      MulAssoc(d.coef * Pow10(d.exp), Pow10(-e.exp), g);
    } else {
      MulAssoc(d.coef * g, Pow10(-d.exp), Pow10(k));
      MulAssoc(d.coef * g, Pow10(k), Pow10(-d.exp));
      MulAssoc(d.coef, g, Pow10(k));
    }
  }

  lemma PowersAround(d: Decimal, k: nat)
    ensures d.exp >= k ==> Pow10(d.exp) == Pow10(k) * Pow10(d.exp - k)
    ensures 0 <= d.exp < k ==> Pow10(k) == Pow10(d.exp) * Pow10(k - d.exp)
    ensures d.exp < 0 ==> Pow10(k - d.exp) == Pow10(-d.exp) * Pow10(k)
  {
    if d.exp >= k { Pow10Add(k, d.exp - k); }
    if 0 <= d.exp < k { Pow10Add(d.exp, k - d.exp); }
    if d.exp < 0 { Pow10Add(-d.exp, k); }
  }

  lemma RescaledNearest(d: Decimal, k: nat)
    ensures Nearest(Rescaled(d, k)) == Nearest(d)
  {
    hide RoundQuotient, Top, Bottom, Rescaled;
    RescaledQuotient(d, k);
    SameQuotient(Top(Rescaled(d, k)), Bottom(Rescaled(d, k)), Top(d), Bottom(d));
  }

  // ----- integers --------------------------------------------------------------------------

  lemma NearestInteger(i: nat)
    ensures Nearest(Decimal(i, 0)) == RoundNat(i) * Grains()
  {
    assert Pow10(0) == 1;
    RoundShift(i, GRAIN);
  }
}
