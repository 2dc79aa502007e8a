// NormValue: the Go values that reach the engine from change streams and JSON bodies,
// and the normal form it compares.
module Norm {
  import opened Arith
  import opened Doubles
  import opened Decimals
  import opened Numbers
  import opened Optional
  import opened Utf8
  import opened Values

  type Int64 = i: int | InInt64(i)
  type Uint64 = n: nat | n < MODULUS

  const MODULUS := 0x1_0000_0000_0000_0000

  datatype Raw =
    | RNull
    | RBool(b: bool)
    | RStr(text: seq<Byte>)
    | RBytes(bytes: seq<Byte>)
    | RInt(i: Int64)                               // every smaller or signed Go integer type
    | RUint64(n: Uint64)                           // uint and uint64
    | RFloat(f: Float)                             // float32 and float64, in grains
    | RDecimal(neg: bool, d: Decimal)              // decimal.Decimal
    | RArr(items: seq<Raw>)
    | RObj(fields: map<string, Raw>)

  // ----- numbers ---------------------------------------------------------------------------

  function Wrap64(i: int): (r: Int64)
    ensures (i - r) % MODULUS == 0
    ensures InInt64(i) ==> r == i
  {
    (i - MIN64) % MODULUS + MIN64
  }

  // x.Equal(x.Truncate(0))
  predicate Integral(d: Decimal) { d.exp >= 0 || d.coef % Pow10(-d.exp) == 0 }

  function Integer(neg: bool, d: Decimal): int
    requires Integral(d)
  {
    Signed(neg, if d.exp >= 0 then Expanded(d) else Quotient(d.coef, Pow10(-d.exp)))
  }

  function NearestFloat(neg: bool, d: Decimal): Float {
    NearestHeld(neg, d);
    Signed(neg, Nearest(d))
  }

  lemma NearestHeld(neg: bool, d: Decimal)
    ensures Holds(Signed(neg, Nearest(d)))
  {
    hide Holds, RoundQuotient, Top, Bottom;
    RoundHeld(Top(d), Bottom(d));
    SignedHolds(neg, Nearest(d));
  }

  // An integral decimal becomes an int64, whatever its size; another one the float64 next to it.
  function DecimalValue(neg: bool, d: Decimal): Value {
    if Integral(d) then Int(Wrap64(Integer(neg, d))) else FloatValue(NearestFloat(neg, d))
  }

  // ----- bytes -----------------------------------------------------------------------------

  predicate Printable(bytes: seq<Byte>) { forall c :: c in bytes ==> c >= 9 }

  function Sextet(n: nat): char
    requires n < 64
  {
    if n < 26 then ('A' as int + n) as char
    else if n < 52 then ('a' as int + n - 26) as char
    else if n < 62 then ('0' as int + n - 52) as char
    else if n == 62 then '+' else '/'
  }

  // Up to three bytes as four characters.
  function Quad(s: seq<Byte>): (t: string)
    requires 1 <= |s| <= 3
    ensures |t| == 4
  {
    var a, b, c := s[0], if |s| > 1 then s[1] else 0, if |s| > 2 then s[2] else 0;
    [Sextet(a / 4), Sextet(a % 4 * 16 + b / 16),
     if |s| > 1 then Sextet(b % 16 * 4 + c / 64) else '=', if |s| > 2 then Sextet(c % 64) else '=']
  }

  function Base64(s: seq<Byte>): string {
    if |s| == 0 then "" else if |s| <= 3 then Quad(s) else Quad(s[..3]) + Base64(s[3..])
  }

  function Chars(t: seq<Option<char>>): string
    requires None !in t
  {
    seq(|t|, i requires 0 <= i < |t| => assert t[i] in t; t[i].value)
  }

  // A Go string, as its JSON text tells it apart from others.
  function TextValue(b: seq<Byte>): Value {
    var t := Decode(b);
    if None in t then Torn(t) else Str(Chars(t))
  }

  function NormValue(r: Raw): Value {
    match r
    case RNull => Null
    case RBool(b) => Bool(b)
    case RStr(text) => TextValue(text)
    case RBytes(bytes) => if Printable(bytes) then TextValue(bytes) else Str(Base64(bytes))
    case RInt(i) => Int(i)
    case RUint64(n) => Int(Wrap64(n))
    case RFloat(f) => FloatValue(f)
    case RDecimal(neg, d) => DecimalValue(neg, d)
    case RArr(items) => Arr(seq(|items|, i requires 0 <= i < |items| => NormValue(items[i])))
    case RObj(fields) => Obj(map k | k in fields :: NormValue(fields[k]))
  }

  // ----- which numbers compare equal ---------------------------------------------------------

  lemma WrapCongruent(i: int, j: int)
    ensures Wrap64(i) == Wrap64(j) <==> (i - j) % MODULUS == 0
  {
    SameRemainder(i - MIN64, j - MIN64, MODULUS);
  }

  // i is the number neg, coef * 10^exp.
  ghost predicate IsWhole(i: int, neg: bool, d: Decimal) {
    && (if neg then i <= 0 else i >= 0)
    && (if d.exp >= 0 then Abs(i) == d.coef * Pow10(d.exp) else Abs(i) * Pow10(-d.exp) == d.coef)
  }

  ghost predicate Fractional(neg: bool, d: Decimal) { forall i :: !IsWhole(i, neg, d) }

  // The number neg, coef * 10^exp, rounded to a float64.
  ghost function NextFloat(neg: bool, d: Decimal): int {
    var n := if d.exp >= 0 then RoundQuotient(d.coef * Pow10(d.exp) * Pow2(GRAIN), 1)
             else RoundQuotient(d.coef * Pow2(GRAIN), Pow10(-d.exp));
    if neg then -n else n
  }

  // k is i modulo 2^64, as an int64.
  ghost predicate Wraps(i: int, k: int) { InInt64(k) && (i - k) % MODULUS == 0 }

  lemma WholeIs(i: int, neg: bool, d: Decimal)
    requires IsWhole(i, neg, d)
    ensures Integral(d) && Integer(neg, d) == i
  {
    hide Pow10;
    if d.exp < 0 {
      DivExact(Abs(i), Pow10(-d.exp));
      QuotientExact(d.coef, Pow10(-d.exp));
      MulCancel(Quotient(d.coef, Pow10(-d.exp)), Abs(i), Pow10(-d.exp));
    }
  }

  lemma IntegralWhole(neg: bool, d: Decimal)
    requires Integral(d)
    ensures IsWhole(Integer(neg, d), neg, d)
  {
    hide Pow10;
    if d.exp < 0 { QuotientExact(d.coef, Pow10(-d.exp)); }
  }

  // What a decimal becomes: an integral one the int64 it is modulo 2^64, itself if it is one;
  // another the float64 next to it. The sign is kept.
  lemma DecimalExact(neg: bool, d: Decimal)
    ensures forall i, k :: IsWhole(i, neg, d) && Wraps(i, k) ==> NormValue(RDecimal(neg, d)) == Int(k)
    ensures forall i :: IsWhole(i, neg, d) && InInt64(i) ==> NormValue(RDecimal(neg, d)) == Int(i)
    ensures Fractional(neg, d) ==>
              Holds(NextFloat(neg, d)) && NormValue(RDecimal(neg, d)) == FloatValue(NextFloat(neg, d))
  {
    forall i, k | IsWhole(i, neg, d) && Wraps(i, k) ensures NormValue(RDecimal(neg, d)) == Int(k) {
      WholeIs(i, neg, d);
      WrapCongruent(i, k);
    }
    forall i | IsWhole(i, neg, d) && InInt64(i) ensures NormValue(RDecimal(neg, d)) == Int(i) {
      assert Wraps(i, i);
    }
    if Fractional(neg, d) {
      if Integral(d) { IntegralWhole(neg, d); }
      NextFloatIs(neg, d);
    }
  }

  lemma NextFloatIs(neg: bool, d: Decimal)
    ensures NearestFloat(neg, d) == NextFloat(neg, d)
  {
    hide RoundQuotient, Pow10, Pow2;
  }

  // Two decimals that are both integers compare equal exactly if they are equal modulo 2^64;
  // two that are not, exactly if the same float64 is next to both; an integer and another
  // one exactly if that float64 is the integer's int64.
  lemma DecimalsCompare(m: bool, d: Decimal, n: bool, e: Decimal)
    ensures var same := NormValue(RDecimal(m, d)) == NormValue(RDecimal(n, e));
            && (forall i, j :: IsWhole(i, m, d) && IsWhole(j, n, e) ==> (same <==> (i - j) % MODULUS == 0))
            && (forall i, k :: IsWhole(i, m, d) && Fractional(n, e) && Wraps(i, k) ==>
                  (same <==> NextFloat(n, e) == k * Grains()))
            && (Fractional(m, d) && Fractional(n, e) ==> (same <==> NextFloat(m, d) == NextFloat(n, e)))
  {
    hide NextFloat, FloatValue, Holds, Grains, Wrap64, IsWhole, NormValue, Integral, Integer;
    DecimalExact(m, d);
    DecimalExact(n, e);
    forall i ensures Wraps(i, Wrap64(i)) {}
    forall i, j | IsWhole(i, m, d) && IsWhole(j, n, e)
      ensures NormValue(RDecimal(m, d)) == NormValue(RDecimal(n, e)) <==> (i - j) % MODULUS == 0
    {
      assert Wraps(i, Wrap64(i)) && Wraps(j, Wrap64(j));
      WrapCongruent(i, j);
    }
    forall i, k | IsWhole(i, m, d) && Fractional(n, e) && Wraps(i, k)
      ensures NormValue(RDecimal(m, d)) == NormValue(RDecimal(n, e)) <==> NextFloat(n, e) == k * Grains()
    {
      FloatIsInt(NextFloat(n, e), k);
    }
    if Fractional(m, d) && Fractional(n, e) { FloatInjective(NextFloat(m, d), NextFloat(n, e)); }
  }

  // The float64 next to n/2^s, however it is written in decimal.
  lemma NearestScaled(d: Decimal, n: nat, s: nat)
    requires s <= GRAIN && d.exp < 0 && d.coef * Pow2(s) == n * Pow10(-d.exp)
    ensures Nearest(d) == RoundNat(n) * Pow2(GRAIN - s)
  {
    hide Pow2, Pow10, RoundQuotient;
    var t, q := Pow2(GRAIN - s), Pow10(-d.exp);
    Pow2Add(s, GRAIN - s);
    MulAssoc(d.coef, Pow2(s), t);
    MulAssoc(n, q, t);
    assert Top(d) == d.coef * Pow2(s) * t && d.coef * Pow2(s) * t == n * q * t;
    SameQuotient(Top(d), q, n * t, 1);
    RoundShift(n, GRAIN - s);
  }

  // Decimals that differ and compare equal, of 17 digits and more: 2^53 and a half or a
  // quarter. Integral ones do so 2^64 apart.
  lemma LongDecimalsCollide(neg: bool)
    ensures NormValue(RDecimal(neg, Decimal(90071992547409925, -1)))
              == NormValue(RDecimal(neg, Decimal(900719925474099225, -2)))
    ensures NormValue(RDecimal(neg, Decimal(0, 0))) == NormValue(RDecimal(neg, Decimal(MODULUS, 0)))
  {
    hide Nearest, FloatValue, Holds, Grains, RoundNat, FracText;
    var a, b := Decimal(90071992547409925, -1), Decimal(900719925474099225, -2);
    assert Pow2(1) == 2 && Pow2(2) == 4 && Pow2(3) == 8 && Pow10(1) == 10 && Pow10(2) == 100;
    var n, m := 18014398509481985, 36028797018963969;
    NearestScaled(a, n, 1);
    NearestScaled(b, m, 2);
    RoundIn(n, 2);
    RoundIn(m, 3);
    Pow2Add(1, GRAIN - 2);
    WrapCongruent(0, MODULUS);
    WrapCongruent(0, -MODULUS);
  }

  // The scale of a decimal does not matter: 50000 == 50000.0.
  lemma ScaleInvisible(neg: bool, d: Decimal, k: nat)
    ensures NormValue(RDecimal(neg, Rescaled(d, k))) == NormValue(RDecimal(neg, d))
  {
    hide Rescaled, Nearest, Integral, Integer, FloatValue, Holds;
    RescaledNearest(d, k);
    RescaledInteger(neg, d, k);
  }

  lemma RescaledInteger(neg: bool, d: Decimal, k: nat)
    ensures Integral(Rescaled(d, k)) <==> Integral(d)
    ensures Integral(d) ==> Integer(neg, Rescaled(d, k)) == Integer(neg, d)
  {
    hide Pow10;
    var e := Rescaled(d, k);
    PowersAround(d, k);
    if d.exp >= k {
      MulAssoc(d.coef, Pow10(k), Pow10(e.exp));
    } else if d.exp >= 0 {
      MulAssoc(d.coef, Pow10(d.exp), Pow10(-e.exp));
      DivExact(d.coef * Pow10(d.exp), Pow10(-e.exp));
    } else {
      DivScale(d.coef, Pow10(-d.exp), Pow10(k));
      if d.coef % Pow10(-d.exp) > 0 { MulLess(0, d.coef % Pow10(-d.exp), Pow10(k)); }
    }
  }

  // uint64 columns compare with each other exactly; with signed integers modulo 2^64.
  lemma UnsignedCompare(m: Uint64, n: Uint64, i: Int64)
    ensures NormValue(RUint64(m)) == NormValue(RUint64(n)) <==> m == n
    ensures NormValue(RUint64(m)) == NormValue(RInt(i)) <==> m == if i < 0 then i + MODULUS else i
  {
    WrapCongruent(m, n);
    WrapCongruent(m, i);
  }

  // A JSON number compares with an integer column exactly by value.
  lemma FloatColumnCompare(f: Float, i: Int64)
    ensures NormValue(RFloat(f)) == NormValue(RInt(i)) <==> f == i * Grains()
  {
    hide FloatValue, Grains;
    FloatIsInt(f, i);
  }

  // ----- which texts compare equal -----------------------------------------------------------

  lemma SextetInjective(m: nat, n: nat)
    requires m < 64 && n < 64 && Sextet(m) == Sextet(n)
    ensures m == n
  {
  }

  lemma SextetPlain(m: nat)
    requires m < 64
    ensures Sextet(m) != '='
  {
  }

  // Six and six bits out of two bytes.
  lemma SplitBits(a: Byte, b: Byte, d: Byte, e: Byte)
    requires a / 4 == d / 4 && a % 4 * 16 + b / 16 == d % 4 * 16 + e / 16
    ensures a == d && b / 16 == e / 16
  {
  }

  lemma SplitMore(b: Byte, c: Byte, e: Byte, f: Byte)
    requires b / 16 == e / 16 && b % 16 * 4 + c / 64 == e % 16 * 4 + f / 64
    ensures b == e && c / 64 == f / 64
  {
  }

  lemma QuadInjective(s: seq<Byte>, t: seq<Byte>)
    requires 1 <= |s| <= 3 && 1 <= |t| <= 3 && Quad(s) == Quad(t)
    ensures s == t
  {
    hide Sextet;
    var a, b, c := s[0], if |s| > 1 then s[1] else 0, if |s| > 2 then s[2] else 0;
    var d, e, f := t[0], if |t| > 1 then t[1] else 0, if |t| > 2 then t[2] else 0;
    var p, q := Quad(s), Quad(t);
    assert p[0] == q[0] && p[1] == q[1] && p[2] == q[2] && p[3] == q[3];
    SextetPlain(b % 16 * 4 + c / 64);
    SextetPlain(e % 16 * 4 + f / 64);
    SextetPlain(c % 64);
    SextetPlain(f % 64);
    SextetInjective(a / 4, d / 4);
    SextetInjective(a % 4 * 16 + b / 16, d % 4 * 16 + e / 16);
    SplitBits(a, b, d, e);
    assert |s| == |t|;
    if |s| > 1 {
      SextetInjective(b % 16 * 4 + c / 64, e % 16 * 4 + f / 64);
      SplitMore(b, c, e, f);
    }
    if |s| > 2 { SextetInjective(c % 64, f % 64); }
  }

  lemma {:induction false} Base64Injective(s: seq<Byte>, t: seq<Byte>)
    requires Base64(s) == Base64(t)
    ensures s == t
    decreases |s|
  {
    hide Quad;
    if s != [] && t != [] {
      var x, y := if |s| <= 3 then s else s[..3], if |t| <= 3 then t else t[..3];
      var u, v := if |s| <= 3 then [] else s[3..], if |t| <= 3 then [] else t[3..];
      assert Base64(s) == Quad(x) + Base64(u) && Base64(t) == Quad(y) + Base64(v);
      assert Base64(s)[..4] == Quad(x) && Base64(t)[..4] == Quad(y);
      assert Base64(s)[4..] == Base64(u) && Base64(t)[4..] == Base64(v);
      QuadInjective(x, y);
      Base64Injective(u, v);
      assert s == x + u && t == y + v;
    }
  }

  lemma CharsSound(t: seq<Option<char>>)
    requires None !in t
    ensures Sound(Chars(t)) == t
  {
    forall i | 0 <= i < |t| ensures Sound(Chars(t))[i] == t[i] { assert t[i] in t; }
  }

  lemma TextExact(x: seq<Byte>, y: seq<Byte>)
    ensures TextValue(x) == TextValue(y) <==> Decode(x) == Decode(y)
  {
    hide Decode, Sound, Chars;
    if None !in Decode(x) && None !in Decode(y) {
      CharsSound(Decode(x));
      CharsSound(Decode(y));
    }
  }

  lemma TextSpells(x: seq<Byte>, s: string)
    ensures TextValue(x) == Str(s) <==> x == Encode(s)
  {
    hide Decode, Encode, Chars;
    DecodeExact(x, s);
    assert None !in Sound(s);
    if None !in Decode(x) { CharsSound(Decode(x)); }
    if Decode(x) == Sound(s) { SoundInjective(Chars(Decode(x)), s); }
  }

  // Bytes with a control character below the tab among them.
  ghost predicate Binary(b: seq<Byte>) { exists c :: c in b && c < 0x09 }

  lemma PrintableExact(b: seq<Byte>)
    ensures Printable(b) <==> !Binary(b)
  {
  }

  // A string becomes the text it spells, bytes the same or, if they are binary, their base64.
  lemma TextsExact(b: seq<Byte>, s: string)
    ensures NormValue(RStr(b)) == Str(s) <==> b == Encode(s)
    ensures !Binary(b) ==> NormValue(RBytes(b)) == NormValue(RStr(b))
    ensures Binary(b) ==> exists t :: NormValue(RBytes(b)) == Str(t) && IsBase64(t, b)
  {
    hide Encode, Decode, Base64, IsBase64;
    PrintableExact(b);
    TextSpells(b, s);
    Base64Exact(b);
  }

  // ----- base64 (section 4 of RFC 4648) -----------------------------------------------------

  // The six bits a character stands for.
  ghost function SixOf(c: char): int {
    if 'A' <= c <= 'Z' then c as int - 'A' as int
    else if 'a' <= c <= 'z' then c as int - 'a' as int + 26
    else if '0' <= c <= '9' then c as int - '0' as int + 52
    else if c == '+' then 62 else if c == '/' then 63 else if c == '=' then 0 else -1
  }

  // Four characters for up to three bytes: four times six bits, padded for missing bytes.
  ghost predicate IsQuad(t: string, s: seq<Byte>) {
    && 1 <= |s| <= 3 && |t| == 4
    && (forall i :: 0 <= i < 4 ==> SixOf(t[i]) >= 0 && (t[i] == '=' <==> i > |s|))
    && SixOf(t[0]) * 0x40000 + SixOf(t[1]) * 0x1000 + SixOf(t[2]) * 0x40 + SixOf(t[3])
         == (s[0] as int) * 0x10000 + (if |s| > 1 then s[1] as int else 0) * 0x100 + (if |s| > 2 then s[2] else 0)
  }

  ghost predicate IsBase64(t: string, s: seq<Byte>) {
    |t| == (|s| + 2) / 3 * 4 && forall g: nat :: 3 * g < |s| ==> IsQuad(t[4 * g..4 * g + 4], Third(s, g))
  }

  // The bytes of group g.
  ghost function Third(s: seq<Byte>, g: nat): seq<Byte>
    requires 3 * g < |s|
  {
    s[3 * g..if 3 * g + 3 <= |s| then 3 * g + 3 else |s|]
  }

  lemma SextetBack(n: nat)
    requires n < 64
    ensures SixOf(Sextet(n)) == n && Sextet(n) != '='
  {
  }

  lemma QuadExact(s: seq<Byte>)
    requires 1 <= |s| <= 3
    ensures IsQuad(Quad(s), s)
  {
    hide Sextet;
    var a, b, c := s[0], if |s| > 1 then s[1] else 0, if |s| > 2 then s[2] else 0;
    SixBits(a, b, c);
    SextetBack(a / 4);
    SextetBack(a % 4 * 16 + b / 16);
    SextetBack(b % 16 * 4 + c / 64);
    SextetBack(c % 64);
    var t := Quad(s);
    assert SixOf(t[0]) == a / 4 && SixOf(t[1]) == a % 4 * 16 + b / 16;
    assert SixOf(t[2]) == b % 16 * 4 + c / 64 && SixOf(t[3]) == c % 64;
  }

  lemma SixBits(a: Byte, b: Byte, c: Byte)
    ensures (a / 4) * 0x40000 + (a % 4 * 16 + b / 16) * 0x1000 + (b % 16 * 4 + c / 64) * 0x40 + c % 64
      == (a as int) * 0x10000 + (b as int) * 0x100 + c
  {
  }

  lemma QuadFirst(q: string, x: seq<Byte>, t: string, u: seq<Byte>)
    requires IsQuad(q, x) && IsBase64(t, u) && (|x| == 3 || u == [])
    ensures IsBase64(q + t, x + u)
  {
    assert |q| == 4 && 1 <= |x| <= 3;
    hide IsQuad, Third;
    forall g: nat | 3 * g < |x + u| ensures IsQuad((q + t)[4 * g..4 * g + 4], Third(x + u, g)) {
      if g == 0 { FirstGroup(q, x, t, u); } else { LaterGroup(q, x, t, u, g); }
    }
  }

  lemma FirstGroup(q: string, x: seq<Byte>, t: string, u: seq<Byte>)
    requires |q| == 4 && 1 <= |x| <= 3 && (|x| == 3 || u == [])
    ensures (q + t)[0..4] == q && Third(x + u, 0) == x
  {
  }

  lemma LaterGroup(q: string, x: seq<Byte>, t: string, u: seq<Byte>, g: nat)
    requires |q| == 4 && 1 <= |x| <= 3 && (|x| == 3 || u == []) && 0 < g && 3 * g < |x + u| && 4 * g <= |t|
    ensures (q + t)[4 * g..4 * g + 4] == t[4 * (g - 1)..4 * (g - 1) + 4] && Third(x + u, g) == Third(u, g - 1)
  {
  }

  lemma {:induction false} Base64Exact(s: seq<Byte>)
    ensures IsBase64(Base64(s), s)
    decreases |s|
  {
    if s != [] {
      hide Quad, IsQuad, IsBase64;
      var x, u := if |s| <= 3 then s else s[..3], if |s| <= 3 then [] else s[3..];
      QuadExact(x);
      Base64Exact(u);
      QuadFirst(Quad(x), x, Base64(u), u);
      assert Base64(s) == Quad(x) + Base64(u) && s == x + u;
    }
  }

  // When byte columns compare equal: two texts if they have the same characters and broken
  // bytes in the same places, two binary values only if they are equal, and a text with a
  // binary value if it spells out the other's base64.
  lemma BytesCompare(x: seq<Byte>, y: seq<Byte>)
    ensures NormValue(RBytes(x)) == NormValue(RBytes(y))
      <==> if !Binary(x) && !Binary(y) then Decode(x) == Decode(y)
           else if !Binary(x) then x == Encode(Base64(y))
           else if !Binary(y) then y == Encode(Base64(x))
           else x == y
  {
    PrintableExact(x);
    PrintableExact(y);
    hide Printable, Binary, TextValue, Base64, Encode, Decode;
    TextExact(x, y);
    TextSpells(x, Base64(y));
    TextSpells(y, Base64(x));
    if Base64(x) == Base64(y) { Base64Injective(x, y); }
  }

  // The same for a string column and a byte column.
  lemma StringCompare(x: seq<Byte>, y: seq<Byte>)
    ensures NormValue(RStr(x)) == NormValue(RBytes(y))
      <==> if Binary(y) then x == Encode(Base64(y)) else Decode(x) == Decode(y)
  {
    PrintableExact(y);
    hide Printable, Binary, TextValue, Base64, Encode, Decode;
    TextExact(x, y);
    TextSpells(x, Base64(y));
  }

  // Well-formed text is told apart from all other text.
  lemma WellFormedApart(x: seq<Byte>, y: seq<Byte>)
    requires None !in Decode(x)
    ensures Decode(x) == Decode(y) <==> x == y
  {
    hide Decode, Encode, Chars;
    CharsSound(Decode(x));
    DecodeExact(x, Chars(Decode(x)));
    DecodeExact(y, Chars(Decode(x)));
  }

  // Broken bytes are not told apart: every single byte from 0x80 on reads as the same value.
  lemma BrokenBytesCollide(a: Byte, b: Byte)
    requires a >= 0x80 && b >= 0x80
    ensures NormValue(RBytes([a])) == NormValue(RBytes([b])) == Torn([None])
  {
    assert Decode([a]) == [None] + Decode([a][1..]) && Decode([b]) == [None] + Decode([b][1..]);
    assert [a][1..] == [] && [b][1..] == [];
  }

  // ----- normalising twice ---------------------------------------------------------------

  // A value in normal form, as a Go value that holds it.
  function Embed(v: Value): Raw {
    match v
    case Null => RNull
    case Bool(b) => RBool(b)
    case Int(i) => if InInt64(i) then RInt(i) else RFloat(OfInt(i))
    case Frac(f) => RFloat(f)
    case Str(s) => RStr(Encode(s))
    case Torn(t) => RStr(Spell(t))
    case Arr(items) => RArr(seq(|items|, i requires 0 <= i < |items| => Embed(items[i])))
    case Obj(fields) => RObj(map k | k in fields :: Embed(fields[k]))
  }

  // Values as normalising makes them: an integer is an int64, or a float64 as it is printed.
  ghost predicate Normal(v: Value) {
    match v
    case Int(i) => InInt64(i) || FloatValue(OfInt(i)) == Int(i)
    case Arr(items) => forall i :: 0 <= i < |items| ==> Normal(items[i])
    case Obj(fields) => forall k :: k in fields ==> Normal(fields[k])
    case _ => true
  }

  // Each normal form is that of the Go value that holds it.
  lemma {:induction false} EmbedBack(v: Value)
    requires Normal(v)
    ensures NormValue(Embed(v)) == v
  {
    match v
    case Str(s) => TextSpells(Encode(s), s);
    case Torn(t) => SpellDecode(t);
    case Arr(items) =>
      forall i | 0 <= i < |items| ensures NormValue(Embed(items[i])) == items[i] { EmbedBack(items[i]); }
      assert NormValue(Embed(v)).items == items;
    case Obj(fields) =>
      forall k | k in fields ensures NormValue(Embed(fields[k])) == fields[k] { EmbedBack(fields[k]); }
      assert NormValue(Embed(v)).fields == fields;
    case _ =>
  }

  lemma {:induction false} NormIsNormal(r: Raw)
    ensures Normal(NormValue(r))
  {
    match r
    case RArr(items) =>
      forall i | 0 <= i < |items| ensures Normal(NormValue(items[i])) { NormIsNormal(items[i]); }
    case RObj(fields) =>
      forall k | k in fields ensures Normal(NormValue(fields[k])) { NormIsNormal(fields[k]); }
    case RFloat(f) => FloatNormal(f);
    case RDecimal(neg, d) => if !Integral(d) { FloatNormal(NearestFloat(neg, d)); }
    case _ =>
  }

  lemma FloatNormal(f: Float)
    ensures Normal(FloatValue(f))
  {
    hide OfInt, Printed, Grains, Holds;
    FloatBack(f);
  }

  // Normalising twice is normalising once, so canonical text may be taken of normal forms.
  lemma NormIdempotent(r: Raw)
    ensures NormValue(Embed(NormValue(r))) == NormValue(r)
  {
    hide NormValue, Embed, Normal;
    NormIsNormal(r);
    EmbedBack(NormValue(r));
  }
}
