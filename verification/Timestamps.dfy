// Golden time stamps: RFC 3339 in UTC with trailing zeros of the fraction trimmed, compared
// as texts. Section 5.1 of RFC 3339 allows that only for equal fractional widths.
module Timestamps {
  import opened Arith
  import opened Strings
  import opened Values
  import opened Sorting

  datatype Fields = Fields(year: nat, month: nat, day: nat, hour: nat, minute: nat, second: nat, nano: nat)
  type Instant = t: Fields |
    t.year < 10000 && t.month < 100 && t.day < 100 && t.hour < 100 && t.minute < 100 && t.second < 100
      && t.nano < 1000000000
    witness Fields(0, 0, 0, 0, 0, 0, 0)

  function Trim(s: string): string {
    if s != [] && s[|s| - 1] == '0' then Trim(s[..|s| - 1]) else s
  }

  // The fractional digits that are written.
  function Digits(t: Instant): string { Trim(Pad(t.nano, 9)) }

  function Tail(t: Instant): string { (if Digits(t) == [] then [] else ['.'] + Digits(t)) + "Z" }

  // A fixed-width field, its separator, and what follows.
  function Field(n: nat, w: nat, sep: char, rest: string): string { Pad(n, w) + ([sep] + rest) }

  // t.UTC().Format(time.RFC3339Nano)
  function Text(t: Instant): string {
    Field(t.year, 4, '-', Field(t.month, 2, '-', Field(t.day, 2, 'T',
      Field(t.hour, 2, ':', Field(t.minute, 2, ':', Pad(t.second, 2) + Tail(t))))))
  }

  ghost predicate SameSecond(a: Instant, b: Instant) { a.(nano := 0) == b.(nano := 0) }

  ghost predicate EarlierSecond(a: Instant, b: Instant) {
    a.year < b.year || (a.year == b.year && (
    a.month < b.month || (a.month == b.month && (
    a.day < b.day || (a.day == b.day && (
    a.hour < b.hour || (a.hour == b.hour && (
    a.minute < b.minute || (a.minute == b.minute && a.second < b.second)))))))))
  }

  ghost predicate Before(a: Instant, b: Instant) { EarlierSecond(a, b) || (SameSecond(a, b) && a.nano < b.nano) }

  // ----- fixed-width fields ---------------------------------------------------------------

  lemma {:induction false} PadOrder(m: nat, n: nat, w: nat)
    requires m < Pow10(w) && n < Pow10(w)
    ensures Lt(Pad(m, w), Pad(n, w)) <==> m < n
    ensures Pad(m, w) == Pad(n, w) <==> m == n
  {
    if w > 0 {
      var c, d := Digit(m % 10), Digit(n % 10);
      PadOrder(m / 10, n / 10, w - 1);
      LtFixedWidth(Pad(m / 10, w - 1), Pad(n / 10, w - 1), [c], [d]);
      assert Lt([c], [d]) <==> m % 10 < n % 10;
      if Pad(m, w) == Pad(n, w) { PadInjective(m, n, w); }
    }
  }

  lemma FieldOrder(m: nat, n: nat, w: nat, sep: char, s: string, t: string)
    requires m < Pow10(w) && n < Pow10(w)
    ensures Lt(Field(m, w, sep, s), Field(n, w, sep, t)) <==> m < n || (m == n && Lt(s, t))
  {
    PadOrder(m, n, w);
    LtFixedWidth(Pad(m, w), Pad(n, w), [sep] + s, [sep] + t);
    LtCommonPrefix([sep], s, t);
  }

  lemma SecondOrder(a: Instant, b: Instant)
    ensures Lt(Text(a), Text(b)) <==> EarlierSecond(a, b) || (SameSecond(a, b) && Lt(Tail(a), Tail(b)))
  {
    assert Pow10(2) == 100 && Pow10(4) == 10000;
    var a5, b5 := Pad(a.second, 2) + Tail(a), Pad(b.second, 2) + Tail(b);
    var a4, b4 := Field(a.minute, 2, ':', a5), Field(b.minute, 2, ':', b5);
    var a3, b3 := Field(a.hour, 2, ':', a4), Field(b.hour, 2, ':', b4);
    var a2, b2 := Field(a.day, 2, 'T', a3), Field(b.day, 2, 'T', b3);
    var a1, b1 := Field(a.month, 2, '-', a2), Field(b.month, 2, '-', b2);
    PadOrder(a.second, b.second, 2);
    LtFixedWidth(Pad(a.second, 2), Pad(b.second, 2), Tail(a), Tail(b));
    FieldOrder(a.minute, b.minute, 2, ':', a5, b5);
    FieldOrder(a.hour, b.hour, 2, ':', a4, b4);
    FieldOrder(a.day, b.day, 2, 'T', a3, b3);
    FieldOrder(a.month, b.month, 2, '-', a2, b2);
    FieldOrder(a.year, b.year, 4, '-', a1, b1);
  }

  // ----- trimmed fractions --------------------------------------------------------------------

  ghost predicate Zeros(s: string) { forall i :: 0 <= i < |s| ==> s[i] == '0' }

  lemma {:induction false} TrimSplit(s: string) returns (zeros: string)
    ensures s == Trim(s) + zeros && Zeros(zeros)
    ensures Trim(s) != [] ==> Trim(s)[|Trim(s)| - 1] != '0'
  {
    if s != [] && s[|s| - 1] == '0' {
      var z := TrimSplit(s[..|s| - 1]);
      zeros := z + "0";
      assert s == s[..|s| - 1] + "0";
    } else {
      zeros := "";
    }
  }

  lemma {:induction false} ZerosLeast(s: string, z: string)
    requires |s| == |z| && Zeros(z) && All(s, IsDigit)
    ensures !Lt(s, z)
    ensures Lt(z, s) ==> !Zeros(s)
  {
    if s != [] {
      assert s[0] >= '0';
      ZerosLeast(s[1..], z[1..]);
      if Zeros(s) { LtIrreflexive(z); assert s == z; }
    }
  }

  // For fractions x < y, x's digits and then Z sort before y's digits and then Z unless x's
  // digits are a proper prefix of y's.
  lemma {:induction false} TrimmedOrder(x: string, zx: string, y: string, zy: string)
    requires All(x, IsDigit) && All(y, IsDigit) && Zeros(zx) && Zeros(zy) && |x + zx| == |y + zy|
    requires Lt(x + zx, y + zy)
    ensures Lt(x + "Z", y + "Z") <==> !(x < y)
    decreases |x|
  {
    if y == [] {
      assert y + zy == zy;
      ZerosLeast(x + zx, zy);
    } else if x == [] {
      assert (y + "Z")[0] == y[0] && x + "Z" == "Z" && IsDigit(y[0]);
    } else {
      assert (x + zx)[0] == x[0] && (y + zy)[0] == y[0] && (x + "Z")[0] == x[0] && (y + "Z")[0] == y[0];
      if x[0] == y[0] {
        assert (x + zx)[1..] == x[1..] + zx && (y + zy)[1..] == y[1..] + zy;
        assert (x + "Z")[1..] == x[1..] + "Z" && (y + "Z")[1..] == y[1..] + "Z";
        TrimmedOrder(x[1..], zx, y[1..], zy);
        assert x < y <==> x[1..] < y[1..] by {
          assert x == [x[0]] + x[1..] && y == [y[0]] + y[1..];
          assert x < y ==> y[..|x|][1..] == y[1..][..|x| - 1];
          assert x[1..] < y[1..] ==> y[..|x|] == [y[0]] + y[1..][..|x| - 1];
        }
      }
    }
  }

  lemma TailOrder(a: Instant, b: Instant)
    requires a.nano < b.nano
    ensures Lt(Tail(a), Tail(b)) <==> !(Digits(a) < Digits(b))
  {
    var pa, pb, da, db := Pad(a.nano, 9), Pad(b.nano, 9), Digits(a), Digits(b);
    assert Pow10(9) == 1000000000 by { assert Pow10(4) == 10000 && Pow10(8) == 100000000; }
    PadOrder(a.nano, b.nano, 9);
    PadDigits(a.nano, 9);
    PadDigits(b.nano, 9);
    var za := TrimSplit(pa);
    var zb := TrimSplit(pb);
    assert forall i :: 0 <= i < |da| ==> da[i] == pa[i];
    assert forall i :: 0 <= i < |db| ==> db[i] == pb[i];
    TrimmedOrder(da, za, db, zb);
    if db == [] {
      assert pb == zb;
      ZerosLeast(pa, pb);
    } else if da == [] {
      assert Tail(a) == "Z" && Tail(b)[0] == '.';
    } else {
      assert Tail(a) == ['.'] + (da + "Z") && Tail(b) == ['.'] + (db + "Z");
      LtCommonPrefix(['.'], da + "Z", db + "Z");
    }
  }

  // Text order against time order, for any two instants: the earlier one sorts first unless
  // both lie in one second and its trimmed digits are a proper prefix of the later one's.
  lemma OrderExact(a: Instant, b: Instant)
    requires Before(a, b)
    ensures Lt(Text(a), Text(b)) <==> !(SameSecond(a, b) && Digits(a) < Digits(b))
  {
    SecondOrder(a, b);
    if SameSecond(a, b) && !EarlierSecond(a, b) { TailOrder(a, b); }
  }

  lemma BeforeTotal(a: Instant, b: Instant)
    ensures Before(a, b) || a == b || Before(b, a)
  {
  }

  // At equal fractional width text order is time order.
  lemma EqualWidthOrder(a: Instant, b: Instant)
    requires |Digits(a)| == |Digits(b)|
    ensures Lt(Text(a), Text(b)) <==> Before(a, b)
  {
    BeforeTotal(a, b);
    if Before(a, b) { OrderExact(a, b); }
    if Before(b, a) { OrderExact(b, a); LtAsymmetric(Text(b), Text(a)); }
    if a == b { LtIrreflexive(Text(a)); }
  }

  // The width condition is needed: a whole second sorts after every later instant of that
  // second.
  lemma WholeSecondSortsLast(a: Instant, b: Instant)
    requires SameSecond(a, b) && a.nano == 0 && b.nano > 0
    ensures Before(a, b) && !Lt(Text(a), Text(b)) && Lt(Text(b), Text(a))
  {
    var za := TrimSplit(Pad(a.nano, 9));
    var zb := TrimSplit(Pad(b.nano, 9));
    ZeroPad(9);
    TrimZeros(Pad(0, 9));
    assert Digits(a) == [];
    if Digits(b) == [] {
      assert Pad(b.nano, 9) == zb == Pad(0, 9);
      assert Pow10(9) == 1000000000 by { assert Pow10(4) == 10000 && Pow10(8) == 100000000; }
      PadInjective(b.nano, 0, 9);
    }
    SecondOrder(b, a);
    OrderExact(a, b);
    assert Tail(a) == "Z" && Tail(b)[0] == '.';
  }

  lemma {:induction false} ZeroPad(w: nat)
    ensures Zeros(Pad(0, w))
  {
    if w > 0 { ZeroPad(w - 1); }
  }

  lemma {:induction false} TrimZeros(s: string)
    requires Zeros(s)
    ensures Trim(s) == []
  {
    if s != [] { TrimZeros(s[..|s| - 1]); }
  }

  lemma TextOrderIsTime(s: Instant, t: Instant)
    requires |Digits(s)| == |Digits(t)| && Le(Text(s), Text(t))
    ensures !Before(t, s)
  {
    hide Digits, Text, Before;
    EqualWidthOrder(t, s);
    if Lt(Text(t), Text(s)) { LtAsymmetric(Text(t), Text(s)); }
  }

  // The digits of the fraction are those of the nanoseconds without the zeros at the end.
  lemma DigitsMeaning(t: Instant)
    ensures exists zeros :: Pad(t.nano, 9) == Digits(t) + zeros && Zeros(zeros)
    ensures Digits(t) != [] ==> Digits(t)[|Digits(t)| - 1] != '0'
  {
    var zeros := TrimSplit(Pad(t.nano, 9));
  }

  // x begins with w digits that read n, then sep, then rest.
  ghost predicate Reads(x: string, w: nat, n: nat, sep: char, rest: string) {
    |x| == w + 1 + |rest| && Number(x[..w]) == n && x[w] == sep && x[w + 1..] == rest
  }

  lemma FieldReads(n: nat, w: nat, sep: char, rest: string)
    requires n < Pow10(w)
    ensures Reads(Field(n, w, sep, rest), w, n, sep, rest)
  {
    hide Number;
    PadReads(n, w);
    var x := Field(n, w, sep, rest);
    assert x[..w] == Pad(n, w);
  }

  // A time stamp reads back as year-month-dayThour:minute:second, its digits after a point
  // if there are any, and Z.
  lemma TextReads(t: Instant) returns (month: string, day: string, hour: string, minute: string, second: string)
    ensures Reads(Text(t), 4, t.year, '-', month) && Reads(month, 2, t.month, '-', day)
    ensures Reads(day, 2, t.day, 'T', hour)
    ensures Reads(hour, 2, t.hour, ':', minute) && Reads(minute, 2, t.minute, ':', second)
    ensures |second| > 2 && Number(second[..2]) == t.second
    ensures second[2..] == if Digits(t) == [] then "Z" else "." + Digits(t) + "Z"
  {
    assert Pow10(2) == 100 && Pow10(4) == 10000;
    hide Number, Digits, Pow10, Pad, Reads;
    PadReads(t.second, 2);
    second := Pad(t.second, 2) + Tail(t);
    assert second[..2] == Pad(t.second, 2);
    minute := Field(t.minute, 2, ':', second);
    hour := Field(t.hour, 2, ':', minute);
    day := Field(t.day, 2, 'T', hour);
    month := Field(t.month, 2, '-', day);
    FieldReads(t.minute, 2, ':', second);
    FieldReads(t.hour, 2, ':', minute);
    FieldReads(t.day, 2, 'T', hour);
    FieldReads(t.month, 2, '-', day);
    FieldReads(t.year, 4, '-', month);
  }

  // So a golden sorted by text is in time order when all its time stamps share one width.
  lemma SortedIsChronological(times: seq<Instant>)
    requires SortedBy(times, Text)
    requires forall i, j :: 0 <= i < j < |times| ==> |Digits(times[i])| == |Digits(times[j])|
    ensures forall i, j :: 0 <= i < j < |times| ==> !Before(times[j], times[i])
  {
    forall i, j | 0 <= i < j < |times| ensures !Before(times[j], times[i]) {
      assert |Digits(times[i])| == |Digits(times[j])|;
      assert Le(Text(times[i]), Text(times[j]));
      TextOrderIsTime(times[i], times[j]);
    }
  }
}
