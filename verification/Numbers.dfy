// The value a float64 normalises to, and when decimals and integers survive being one.
module Numbers {
  import opened Arith
  import opened Doubles
  import opened Decimals
  import opened Values

  const MIN64 := -0x8000_0000_0000_0000
  const MAX64 := 0x7FFF_FFFF_FFFF_FFFF

  predicate InInt64(i: int) { MIN64 <= i <= MAX64 }

  type Float = n: int | Holds(n) witness 0

  function Signed(neg: bool, n: nat): int { if neg then -(n as int) else n }

  // The integer a large float64 is printed as: its shortest digits, then zeros.
  function Printed(n: nat): nat {
    var d := Shortest(n, 308);
    if d.exp >= 0 then Expanded(d) else Quotient(n, Grains())
  }

  // NormValue of a float64 of n grains: int64 if it is one, otherwise the float64.
  function FloatValue(n: Float): (v: Value)
    ensures v.Int? || v.Frac?
  {
    if n % Grains() != 0 then Frac(n)
    else if InInt64(n / Grains()) then Int(n / Grains())
    else Int(Signed(n < 0, Printed(Abs(n))))
  }

  // What reading an integer's digits as a float64 gives.
  function OfInt(i: int): (n: Float) {
    HeldInteger(i);
    Signed(i < 0, Nearest(Decimal(Abs(i), 0)))
  }

  lemma SignedHolds(neg: bool, n: nat)
    requires Holds(n)
    ensures Holds(Signed(neg, n)) && Abs(Signed(neg, n)) == n
  {
    HoldsAbs(Signed(neg, n));
  }

  lemma HeldInteger(i: int)
    ensures Holds(Signed(i < 0, Nearest(Decimal(Abs(i), 0))))
  {
    hide Holds, RoundQuotient, Top, Bottom;
    var d := Decimal(Abs(i), 0);
    RoundHeld(Top(d), Bottom(d));
    SignedHolds(i < 0, Nearest(d));
  }

  lemma OfIntGrains(i: int)
    ensures OfInt(i) == RoundInt(i) * Grains()
  {
    hide Nearest, RoundQuotient, Grains;
    NearestInteger(Abs(i));
  }

  lemma PrintedBack(n: nat)
    requires Holds(n) && n % Grains() == 0
    ensures Nearest(Decimal(Printed(n), 0)) == n
  {
    hide Shortest, Holds, Grains, RoundQuotient;
    var d := Shortest(n, 308);
    ShortestBack(n, 308);
    assert Pow10(0) == 1;
    if d.exp >= 0 {
      assert Top(Decimal(Printed(n), 0)) == Top(d);
    } else {
      QuotientExact(n, Grains());
      HeldRounds(n);
    }
  }

  // An integer's digits read back as the float64 it was printed from.
  lemma FloatBack(n: Float)
    ensures FloatValue(n).Int? ==> OfInt(FloatValue(n).i) == n
  {
    hide Holds, Nearest, Printed, Grains;
    HoldsAbs(n);
    if n % Grains() == 0 {
      var m := Abs(n);
      AbsMultiple(n, Grains());
      if InInt64(n / Grains()) {
        WholeBack(m);
      } else {
        PrintedBack(m);
        PrintedPositive(m);
      }
    }
  }

  lemma AbsMultiple(n: int, d: nat)
    requires d > 0 && n % d == 0
    ensures Abs(n) % d == 0 && Abs(n / d) == Abs(n) / d && (n / d < 0 <==> n < 0)
  {
    var q := n / d;
    assert n == d * q;
    DivExact(-q, d);
  }

  lemma WholeBack(m: nat)
    requires Holds(m) && m % Grains() == 0
    ensures Nearest(Decimal(m / Grains(), 0)) == m
  {
    hide Holds, Grains, RoundQuotient;
    assert Pow10(0) == 1;
    QuotientExact(m, Grains());
    HeldRounds(m);
  }

  lemma PrintedPositive(m: nat)
    requires Holds(m) && m % Grains() == 0 && m > 0
    ensures Printed(m) > 0
  {
    hide Holds, Grains, Printed, RoundQuotient;
    PrintedBack(m);
    SmallIntegers(0);
    HeldRounds(0);
  }

  // Float64s are told apart by their values.
  lemma FloatInjective(m: Float, n: Float)
    ensures FloatValue(m) == FloatValue(n) <==> m == n
  {
    hide Holds, Printed, Grains, OfInt;
    FloatBack(m);
    FloatBack(n);
  }

  // ----- the end of the int64 range ---------------------------------------------------------

  const EDGE := 0x8000_0000_0000_0000

  lemma EdgeRounds()
    ensures RoundNat(EDGE) == EDGE
  {
    assert Pow2(10) == 1024;
    ScaledHolds(MANTISSA, 10);
  }

  lemma AboveEdge()
    ensures RoundNat(9223372036854776000) == EDGE
  {
    hide RoundNat;
    assert Pow2(11) == 2048;
    RoundIn(9223372036854776000, 11);
  }

  lemma BelowEdge()
    ensures RoundNat(9223372036854775000) < EDGE
  {
    hide RoundNat;
    assert Pow2(10) == 1024;
    RoundIn(9223372036854775000, 10);
  }

  // 2^63 is printed in multiples of a thousand.
  lemma EdgeDigits(n: nat)
    requires Holds(n) && n == EDGE * Grains()
    ensures Shortest(n, 308).exp >= 3
  {
    hide Shortest, Holds, Grains, RoundQuotient;
    var d, i := Decimal(9223372036854776, 3), Decimal(9223372036854776000, 0);
    assert Pow10(3) == 1000 && Pow10(0) == 1;
    assert Top(d) == Top(i) && Bottom(d) == Bottom(i);
    NearestInteger(9223372036854776000);
    AboveEdge();
    ShortestLeast(n, 308, 9223372036854776, 3);
  }

  lemma EdgePrinted(n: nat)
    requires Holds(n) && n == EDGE * Grains()
    ensures Printed(n) % 1000 == 0
  {
    hide Shortest, Holds, Grains;
    var d := Shortest(n, 308);
    EdgeDigits(n);
    Pow10Add(d.exp - 3, 3);
    assert Pow10(3) == 1000;
    MulAssoc(d.coef, Pow10(d.exp - 3), 1000);
    DivExact(d.coef * Pow10(d.exp - 3), 1000);
  }

  // No float64 outside int64 is printed as an int64.
  lemma BigPrinted(n: nat)
    requires Holds(n) && n % Grains() == 0 && n / Grains() >= EDGE
    ensures Printed(n) >= EDGE
    ensures n / Grains() > EDGE ==> Printed(n) > EDGE
  {
    hide Holds, Grains, Printed, RoundQuotient;
    var s, v := Printed(n), n / Grains();
    PrintedBack(n);
    NearestInteger(s);
    QuotientExact(n, Grains());
    MulCancel(RoundNat(s), v, Grains());
    EdgeRounds();
    if s <= EDGE { RoundMono(s, 1, EDGE, 1); }
    if s < EDGE {
      EdgePrinted(n);
      BelowEdge();
      RoundMono(s, 1, 9223372036854775000, 1);
    }
  }

  // A float64 has the value of an int64 exactly if it is that int64.
  lemma FloatIsInt(n: Float, i: int)
    requires InInt64(i)
    ensures FloatValue(n) == Int(i) <==> n == i * Grains()
  {
    hide Holds, Grains, Printed;
    HoldsAbs(n);
    if n % Grains() == 0 {
      AbsMultiple(n, Grains());
      assert n == Grains() * (n / Grains());
      DivExact(i, Grains());
      if !InInt64(n / Grains()) { BigPrinted(Abs(n)); }
    } else {
      DivExact(i, Grains());
    }
  }

  // An int64 survives being read as a float64 exactly if 53 bits hold it.
  lemma IntReads(i: int)
    requires InInt64(i)
    ensures FloatValue(OfInt(i)) == Int(i) <==> Holds(i)
  {
    hide Grains, Printed, RoundQuotient, OfInt, FloatValue;
    OfIntGrains(i);
    FloatIsInt(OfInt(i), i);
    if RoundInt(i) * Grains() == i * Grains() { MulCancel(RoundInt(i), i, Grains()); }
  }

  // Reading twice is reading once.
  lemma ReadsOnce(n: Float)
    ensures FloatValue(n).Int? ==> FloatValue(OfInt(FloatValue(n).i)) == FloatValue(n)
  {
    hide FloatValue, OfInt;
    FloatBack(n);
  }
}
