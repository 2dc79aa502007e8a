// Values and their canonical text: the engine compares two values by comparing the
// JSON text of their normal forms, and sorts by that same text.
module Values {
  import opened Strings
  import opened Arith
  import opened Doubles
  import opened Decimals
  import opened Optional
  import opened Utf8

  predicate IsFraction(n: int) { Holds(n) && n % Grains() != 0 }

  // A float64 that is not an integer, in grains.
  type Fraction = n: int | IsFraction(n) ghost witness 1

  // Text with bytes that are not UTF-8 in it.
  type Broken = t: seq<Option<char>> | None in t witness [None]

  // A value in normal form.
  datatype Value =
    | Null
    | Bool(b: bool)
    | Int(i: int)
    | Frac(f: Fraction)
    | Str(s: string)
    | Torn(t: Broken)
    | Arr(items: seq<Value>)
    | Obj(fields: map<string, Value>)

  // ----- numbers ---------------------------------------------------------------

  function Digit(n: nat): (c: char)
    requires n < 10
  {
    ('0' as int + n) as char
  }

  function NatText(n: nat): (t: string)
    ensures t != []
  {
    if n < 10 then [Digit(n)] else NatText(n / 10) + [Digit(n % 10)]
  }

  function Sign(i: int): string { if i < 0 then "-" else "" }

  function IntText(i: int): string { Sign(i) + NatText(Abs(i)) }

  // The low w decimal digits of n, zero padded.
  function Pad(n: nat, w: nat): (t: string)
    ensures |t| == w
  {
    if w == 0 then "" else Pad(n / 10, w - 1) + [Digit(n % 10)]
  }

  // The shortest digits of a fraction, at least one of them behind the point.
  function Digits(f: Fraction): (d: Decimal)
    ensures d.exp < 0
  {
    Shortest(Abs(f), -1)
  }

  function Whole(d: Decimal): nat
    requires d.exp < 0
  {
    Quotient(d.coef, Pow10(-d.exp))
  }

  function Part(d: Decimal): nat
    requires d.exp < 0
  {
    d.coef - Pow10(-d.exp) * Whole(d)
  }

  function PointText(neg: bool, whole: string, digits: string): string {
    (if neg then "-" else "") + whole + "." + digits
  }

  function FracText(f: Fraction): string {
    var d := Digits(f);
    PointText(f < 0, NatText(Whole(d)), Pad(Part(d), -d.exp))
  }

  ghost predicate IsDigit(c: char) { '0' <= c <= '9' }

  ghost predicate IsNumeric(c: char) { IsDigit(c) || c == '-' || c == '.' }

  lemma {:induction false} NatTextDigits(n: nat)
    ensures forall i :: 0 <= i < |NatText(n)| ==> IsDigit(NatText(n)[i])
  {
    if n >= 10 { NatTextDigits(n / 10); }
  }

  lemma {:induction false} PadDigits(n: nat, w: nat)
    ensures forall i :: 0 <= i < w ==> IsDigit(Pad(n, w)[i])
  {
    if w > 0 { PadDigits(n / 10, w - 1); }
  }

  // Reading decimal digits.
  ghost function Number(t: string): nat {
    if t == [] then 0
    else Number(t[..|t| - 1]) * 10 + (if IsDigit(t[|t| - 1]) then t[|t| - 1] as nat - '0' as nat else 0)
  }

  lemma NumberSnoc(t: string, d: nat)
    requires d < 10
    ensures Number(t + [Digit(d)]) == Number(t) * 10 + d
  {
    assert (t + [Digit(d)])[..|t + [Digit(d)]| - 1] == t;
  }

  // A number's text reads back as the number and has no leading zero.
  lemma {:induction false} NatTextReads(n: nat)
    ensures Number(NatText(n)) == n && (n > 0 ==> NatText(n)[0] != '0')
  {
    if n >= 10 {
      NatTextReads(n / 10);
      NumberSnoc(NatText(n / 10), n % 10);
    } else {
      NumberSnoc([], n);
      assert [] + [Digit(n)] == [Digit(n)];
    }
  }

  lemma {:induction false} PadReads(n: nat, w: nat)
    requires n < Pow10(w)
    ensures Number(Pad(n, w)) == n
  {
    if w > 0 {
      PadReads(n / 10, w - 1);
      NumberSnoc(Pad(n / 10, w - 1), n % 10);
    }
  }

  lemma LastDigit(p: string, c: char, q: string, d: char)
    requires p + [c] == q + [d]
    ensures p == q && c == d
  {
    var u := p + [c];
    assert |p| == |q| && u[..|p|] == p && (q + [d])[..|q|] == q && u[|p|] == c;
  }

  lemma {:induction false} NatTextInjective(m: nat, n: nat)
    requires NatText(m) == NatText(n)
    ensures m == n
  {
    if m >= 10 && n >= 10 {
      LastDigit(NatText(m / 10), Digit(m % 10), NatText(n / 10), Digit(n % 10));
      NatTextInjective(m / 10, n / 10);
    } else {
      assert m >= 10 ==> |NatText(m)| >= 2;
      assert n >= 10 ==> |NatText(n)| >= 2;
    }
  }

  lemma {:induction false} PadInjective(m: nat, n: nat, w: nat)
    requires m < Pow10(w) && n < Pow10(w) && Pad(m, w) == Pad(n, w)
    ensures m == n
  {
    if w > 0 {
      LastDigit(Pad(m / 10, w - 1), Digit(m % 10), Pad(n / 10, w - 1), Digit(n % 10));
      PadInjective(m / 10, n / 10, w - 1);
    }
  }

  lemma IntTextInjective(i: int, j: int)
    requires IntText(i) == IntText(j)
    ensures i == j
  {
    NatTextDigits(Abs(i));
    NatTextDigits(Abs(j));
    assert (IntText(i)[0] == '-') == (i < 0) && (IntText(j)[0] == '-') == (j < 0);
    DropPrefix(Sign(i), NatText(Abs(i)), Sign(j), NatText(Abs(j)));
    NatTextInjective(Abs(i), Abs(j));
  }

  // A number text with a point is read back into sign, whole digits and fraction digits.
  lemma PointTextUnique(neg: bool, w: string, d: string, neg': bool, w': string, d': string)
    requires All(w, IsDigit) && w != [] && All(d, IsDigit) && All(w', IsDigit) && w' != [] && All(d', IsDigit)
    requires PointText(neg, w, d) == PointText(neg', w', d')
    ensures neg == neg' && w == w' && d == d'
  {
    var s, s' := if neg then "-" else "", if neg' then "-" else "";
    assert PointText(neg, w, d) == s + (w + ("." + d));
    assert PointText(neg', w', d') == s' + (w' + ("." + d'));
    assert neg == (PointText(neg, w, d)[0] == '-') && neg' == (PointText(neg', w', d')[0] == '-');
    DropPrefix(s, w + ("." + d), s', w' + ("." + d'));
    TokenUnique(w, "." + d, w', "." + d', IsDigit);
    DropPrefix(".", d, ".", d');
  }

  lemma FracTextInjective(f: Fraction, g: Fraction)
    requires FracText(f) == FracText(g)
    ensures f == g
  {
    hide Shortest, Pow10, Grains, Holds;
    var d, e := Digits(f), Digits(g);
    NatTextDigits(Whole(d));
    NatTextDigits(Whole(e));
    PadDigits(Part(d), -d.exp);
    PadDigits(Part(e), -e.exp);
    PointTextUnique(f < 0, NatText(Whole(d)), Pad(Part(d), -d.exp), g < 0, NatText(Whole(e)), Pad(Part(e), -e.exp));
    assert -d.exp == |Pad(Part(d), -d.exp)| == |Pad(Part(e), -e.exp)| == -e.exp;
    NatTextInjective(Whole(d), Whole(e));
    PadInjective(Part(d), Part(e), -d.exp);
    FractionBack(f);
    FractionBack(g);
  }

  // A fraction's text reads back as the fraction.
  lemma FractionBack(f: Fraction)
    ensures Nearest(Digits(f)) == Abs(f)
  {
    hide Shortest, Nearest, Grains;
    assert IsFraction(f);
    HoldsAbs(f);
    ShortestBack(Abs(f), -1);
  }

  // An integer's text has no point and a fraction's has one.
  lemma IntTextIsNotFracText(i: int, f: Fraction)
    ensures IntText(i) != FracText(f)
  {
    NatTextDigits(Abs(i));
    var k := (if f < 0 then 1 else 0) + |NatText(Whole(Digits(f)))|;
    assert FracText(f)[k] == '.';
    assert forall j :: 0 <= j < |IntText(i)| ==> IntText(i)[j] != '.';
  }

  // ----- strings ---------------------------------------------------------------

  function HexDigit(n: nat): (c: char)
    requires n < 16
  {
    if n < 10 then ('0' as int + n) as char else ('a' as int + n - 10) as char
  }

  function Hex4(n: nat): string
    requires n < 0x10000
  {
    var a := n / 16;
    var b := a / 16;
    [HexDigit(b / 16), HexDigit(b % 16), HexDigit(a % 16), HexDigit(n % 16)]
  }

  // Characters encoding/json writes as \uXXXX: controls without a short form, the
  // HTML-sensitive ones, and the two line separators.
  predicate NeedsHex(c: char) {
    (c as int < 0x20 && c !in "\n\r\t\U{0008}\U{000C}") || c in "<>&\U{2028}\U{2029}"
  }

  function Escape(c: char): (t: string)
    ensures t != []
  {
    if c == '"' then "\\\""
    else if c == '\\' then "\\\\"
    else if c == '\n' then "\\n"
    else if c == '\r' then "\\r"
    else if c == '\t' then "\\t"
    else if c == '\U{0008}' then "\\b"
    else if c == '\U{000C}' then "\\f"
    else if NeedsHex(c) then "\\u" + Hex4(c as int)
    else [c]
  }

  // The body of a string literal, followed by `rest`. The printer passes what follows
  // along instead of concatenating afterwards.
  function EscapeThen(s: string, rest: string): string {
    if s == [] then rest else Escape(s[0]) + EscapeThen(s[1..], rest)
  }

  function QuoteThen(s: string, rest: string): string { ['"'] + EscapeThen(s, ['"'] + rest) }

  // One character, or the code for a byte that is not part of one.
  function Piece(p: Option<char>): (t: string)
    ensures t != []
  {
    match p case None => "\\ufffd" case Some(c) => Escape(c)
  }

  function PiecesThen(t: seq<Option<char>>, rest: string): string {
    if t == [] then rest else Piece(t[0]) + PiecesThen(t[1..], rest)
  }

  function TornThen(t: seq<Option<char>>, rest: string): string { ['"'] + PiecesThen(t, ['"'] + rest) }

  lemma {:induction false} SoundPieces(s: string, rest: string)
    ensures PiecesThen(Sound(s), rest) == EscapeThen(s, rest)
  {
    if s != [] {
      SoundPieces(s[1..], rest);
      assert Sound(s)[1..] == Sound(s[1..]);
    }
  }

  lemma Hex4Injective(m: nat, n: nat)
    requires m < 0x10000 && n < 0x10000 && Hex4(m) == Hex4(n)
    ensures m == n
  {
    var a, a' := m / 16, n / 16;
    var b, b' := a / 16, a' / 16;
    HexDigitInjective(Hex4(m)[0], b / 16, b' / 16);
    HexDigitInjective(Hex4(m)[1], b % 16, b' % 16);
    assert b == b';
    HexDigitInjective(Hex4(m)[2], a % 16, a' % 16);
    assert a == a';
    HexDigitInjective(Hex4(m)[3], m % 16, n % 16);
  }

  lemma HexDigitInjective(c: char, m: nat, n: nat)
    requires m < 16 && n < 16 && c == HexDigit(m) == HexDigit(n)
    ensures m == n
  {
  }

  // A code that is read off the front of a text in one way.
  lemma PiecePrefix(p: Option<char>, x: string, q: Option<char>, y: string)
    requires Piece(p) + x == Piece(q) + y
    ensures p == q && x == y
  {
    var u, ep, eq := Piece(p) + x, Piece(p), Piece(q);
    assert u[0] == ep[0] == eq[0] && u == eq + y;
    if u[0] == '\\' {
      assert u[1] == ep[1] == eq[1];
      assert |ep| == |eq|;
      DropPrefix(ep, x, eq, y);
      if u[1] == 'u' {
        var m, n := Code(p), Code(q);
        DropPrefix("\\u", Hex4(m), "\\u", Hex4(n));
        Hex4Injective(m, n);
      }
    } else {
      DropPrefix(ep, x, eq, y);
    }
  }

  // The number a \\u code gives.
  function Code(p: Option<char>): (n: nat)
    requires |Piece(p)| == 6
    ensures n < 0x10000 && Piece(p) == "\\u" + Hex4(n)
  {
    match p case None => 0xFFFD case Some(c) => c as int
  }

  lemma DropChar(c: char, x: string, d: char, y: string)
    requires [c] + x == [d] + y
    ensures c == d && x == y
  {
    DropPrefix([c], x, [d], y);
  }

  lemma PiecesThenStart(t: seq<Option<char>>, x: string)
    ensures PiecesThen(t, ['"'] + x) != []
    ensures (PiecesThen(t, ['"'] + x)[0] == '"') == (t == [])
  {
    if t != [] {
      assert Piece(t[0])[0] != '"';
    }
  }

  lemma {:induction false} PiecesThenPrefix(s: seq<Option<char>>, x: string, t: seq<Option<char>>, y: string)
    requires PiecesThen(s, ['"'] + x) == PiecesThen(t, ['"'] + y)
    ensures s == t && x == y
  {
    PiecesThenStart(s, x);
    PiecesThenStart(t, y);
    if s == [] {
      DropChar('"', x, '"', y);
    } else {
      PiecePrefix(s[0], PiecesThen(s[1..], ['"'] + x), t[0], PiecesThen(t[1..], ['"'] + y));
      PiecesThenPrefix(s[1..], x, t[1..], y);
      assert s == [s[0]] + s[1..] && t == [t[0]] + t[1..];
    }
  }

  lemma TornPrefix(s: seq<Option<char>>, x: string, t: seq<Option<char>>, y: string)
    requires TornThen(s, x) == TornThen(t, y)
    ensures s == t && x == y
  {
    DropChar('"', PiecesThen(s, ['"'] + x), '"', PiecesThen(t, ['"'] + y));
    PiecesThenPrefix(s, x, t, y);
  }

  lemma QuoteIsTorn(s: string, x: string)
    ensures QuoteThen(s, x) == TornThen(Sound(s), x)
  {
    SoundPieces(s, ['"'] + x);
  }

  lemma QuotePrefix(s: string, x: string, t: string, y: string)
    requires QuoteThen(s, x) == QuoteThen(t, y)
    ensures s == t && x == y
  {
    QuoteIsTorn(s, x);
    QuoteIsTorn(t, y);
    TornPrefix(Sound(s), x, Sound(t), y);
    SoundInjective(s, t);
  }

  // The two kinds of text, as a literal.
  function Pieces(v: Value): seq<Option<char>>
    requires v.Str? || v.Torn?
  {
    if v.Str? then Sound(v.s) else v.t
  }

  // ----- the printer -----------------------------------------------------------

  // The canonical text of v followed by `rest`.
  function PrintThen(v: Value, rest: string): (t: string)
    decreases v, 1, 0
  {
    match v
    case Null => "null" + rest
    case Bool(b) => (if b then "true" else "false") + rest
    case Int(i) => IntText(i) + rest
    case Frac(f) => FracText(f) + rest
    case Str(s) => QuoteThen(s, rest)
    case Torn(t) => TornThen(t, rest)
    case Arr(_) => ['['] + ItemsThen(v, 0, rest)
    case Obj(fields) => ['{'] + FieldsThen(v, SortedKeys(fields.Keys), rest)
  }

  // The elements of array v from index i on, up to and including the bracket.
  function ItemsThen(v: Value, i: nat, rest: string): (t: string)
    requires v.Arr? && i <= |v.items|
    decreases v, 0, |v.items| - i
  {
    if i == |v.items| then [']'] + rest
    else PrintThen(v.items[i], if i + 1 == |v.items| then [']'] + rest else [','] + ItemsThen(v, i + 1, rest))
  }

  // The members of object v with the given keys, up to and including the brace.
  function FieldsThen(v: Value, keys: seq<string>, rest: string): (t: string)
    requires v.Obj? && forall k :: k in keys ==> k in v.fields
    decreases v, 0, |keys|
  {
    if keys == [] then ['}'] + rest
    else
      var more := if |keys| == 1 then ['}'] + rest else [','] + FieldsThen(v, keys[1..], rest);
      QuoteThen(keys[0], [':'] + PrintThen(v.fields[keys[0]], more))
  }

  // canonical(v)
  function Print(v: Value): string { PrintThen(v, "") }

  // What can follow a value inside a text.
  ghost predicate Ends(x: string) { x != [] ==> x[0] in ",]}" }

  // ----- what follows a value stays as it is -------------------------------------------------

  lemma QuoteSplit(k: string, z: string)
    ensures QuoteThen(k, z) == QuoteThen(k, "") + z
  {
    EscapeSplit(k, ['"'], z);
    assert ['"'] + "" == ['"'];
  }

  lemma {:induction false} EscapeSplit(s: string, y: string, z: string)
    ensures EscapeThen(s, y + z) == EscapeThen(s, y) + z
  {
    hide Escape;
    if s != [] {
      EscapeSplit(s[1..], y, z);
      assert Escape(s[0]) + (EscapeThen(s[1..], y) + z) == Escape(s[0]) + EscapeThen(s[1..], y) + z;
    }
  }

  lemma {:induction false} PiecesSplit(t: seq<Option<char>>, y: string, z: string)
    ensures PiecesThen(t, y + z) == PiecesThen(t, y) + z
  {
    hide Piece;
    if t != [] {
      PiecesSplit(t[1..], y, z);
      assert Piece(t[0]) + (PiecesThen(t[1..], y) + z) == Piece(t[0]) + PiecesThen(t[1..], y) + z;
    }
  }

  lemma {:induction false} PrintSplit(v: Value, x: string, y: string)
    ensures PrintThen(v, x + y) == PrintThen(v, x) + y
    decreases v, 1, 0
  {
    hide PrintThen, ItemsThen, FieldsThen, QuoteThen, TornThen, SortedKeys;
    PrintParts(v, x);
    PrintParts(v, x + y);
    match v
    case Str(s) => QuoteThenSplit(s, x, y);
    case Torn(t) => TornSplit(t, x, y);
    case Arr(_) => ItemsSplit(v, 0, x, y);
    case Obj(fields) => FieldsSplit(v, SortedKeys(fields.Keys), x, y);
    case _ => PlainSplit(v, x, y);
  }

  lemma PrintParts(v: Value, x: string)
    ensures v.Str? ==> PrintThen(v, x) == QuoteThen(v.s, x)
    ensures v.Torn? ==> PrintThen(v, x) == TornThen(v.t, x)
    ensures v.Arr? ==> PrintThen(v, x) == ['['] + ItemsThen(v, 0, x)
    ensures v.Obj? ==> PrintThen(v, x) == ['{'] + FieldsThen(v, SortedKeys(v.fields.Keys), x)
  {
    hide ItemsThen, FieldsThen, QuoteThen, TornThen, SortedKeys;
  }

  lemma PlainSplit(v: Value, x: string, y: string)
    requires v.Null? || v.Bool? || v.Int? || v.Frac?
    ensures PrintThen(v, x + y) == PrintThen(v, x) + y
  {
    hide IntText, FracText;
  }

  lemma TornSplit(t: seq<Option<char>>, x: string, y: string)
    ensures TornThen(t, x + y) == TornThen(t, x) + y
  {
    assert ['"'] + (x + y) == (['"'] + x) + y;
    PiecesSplit(t, ['"'] + x, y);
  }

  lemma QuoteThenSplit(s: string, x: string, y: string)
    ensures QuoteThen(s, x + y) == QuoteThen(s, x) + y
  {
    assert ['"'] + (x + y) == (['"'] + x) + y;
    EscapeSplit(s, ['"'] + x, y);
  }

  lemma {:induction false} ItemsSplit(v: Value, i: nat, x: string, y: string)
    requires v.Arr? && i <= |v.items|
    ensures ItemsThen(v, i, x + y) == ItemsThen(v, i, x) + y
    decreases v, 0, |v.items| - i
  {
    assert [']'] + (x + y) == [']'] + x + y;
    if i < |v.items| {
      if i + 1 == |v.items| {
        PrintSplit(v.items[i], [']'] + x, y);
      } else {
        ItemsSplit(v, i + 1, x, y);
        assert [','] + (ItemsThen(v, i + 1, x) + y) == [','] + ItemsThen(v, i + 1, x) + y;
        PrintSplit(v.items[i], [','] + ItemsThen(v, i + 1, x), y);
      }
    }
  }

  lemma {:induction false} FieldsSplit(v: Value, keys: seq<string>, x: string, y: string)
    requires v.Obj? && forall k :: k in keys ==> k in v.fields
    ensures FieldsThen(v, keys, x + y) == FieldsThen(v, keys, x) + y
    decreases v, 0, |keys|
  {
    hide PrintThen, QuoteThen;
    assert ['}'] + (x + y) == ['}'] + x + y;
    if keys != [] {
      var k := keys[0];
      var more := if |keys| == 1 then ['}'] + x else [','] + FieldsThen(v, keys[1..], x);
      if |keys| > 1 {
        FieldsSplit(v, keys[1..], x, y);
        assert [','] + (FieldsThen(v, keys[1..], x) + y) == more + y;
      }
      var text := PrintThen(v.fields[k], more);
      PrintSplit(v.fields[k], more, y);
      assert FieldsThen(v, keys, x) == QuoteThen(k, [':'] + text);
      assert FieldsThen(v, keys, x + y) == QuoteThen(k, [':'] + (text + y));
      hide FieldsThen;
      assert [':'] + (text + y) == ([':'] + text) + y;
      QuoteThenSplit(k, [':'] + text, y);
    }
  }

  lemma PrintStart(v: Value, x: string)
    ensures var t := PrintThen(v, x);
            t != [] && match v
            case Null => t[0] == 'n'
            case Bool(b) => t[0] == (if b then 't' else 'f')
            case Int(_) => IsNumeric(t[0])
            case Frac(_) => IsNumeric(t[0])
            case Str(_) => t[0] == '"'
            case Torn(_) => t[0] == '"'
            case Arr(_) => t[0] == '['
            case Obj(_) => t[0] == '{'
  {
    match v
    case Int(i) => NatTextDigits(Abs(i));
    case Frac(f) => NatTextDigits(Whole(Digits(f)));
    case _ =>
  }

  function NumberText(v: Value): string
    requires v.Int? || v.Frac?
  {
    match v case Int(i) => IntText(i) case Frac(f) => FracText(f)
  }

  lemma NumberTextNumeric(v: Value)
    requires v.Int? || v.Frac?
    ensures All(NumberText(v), IsNumeric)
  {
    hide Digits, Whole, Part;
    match v
    case Int(i) => NatTextDigits(Abs(i));
    case Frac(f) => NatTextDigits(Whole(Digits(f))); PadDigits(Part(Digits(f)), -Digits(f).exp);
  }

  lemma NumberPrefix(a: Value, x: string, b: Value, y: string)
    requires a.Int? || a.Frac?
    requires b.Int? || b.Frac?
    requires Ends(x) && Ends(y) && NumberText(a) + x == NumberText(b) + y
    ensures a == b && x == y
  {
    NumberTextNumeric(a);
    NumberTextNumeric(b);
    TokenUnique(NumberText(a), x, NumberText(b), y, IsNumeric);
    match (a, b)
    case (Int(i), Int(j)) => IntTextInjective(i, j);
    case (Frac(f), Frac(g)) => FracTextInjective(f, g);
    case (Int(i), Frac(g)) => IntTextIsNotFracText(i, g);
    case (Frac(f), Int(j)) => IntTextIsNotFracText(j, f);
  }

  lemma TextPrinted(v: Value, x: string)
    requires v.Str? || v.Torn?
    ensures PrintThen(v, x) == TornThen(Pieces(v), x)
  {
    if v.Str? { QuoteIsTorn(v.s, x); }
  }

  lemma TextPrefix(a: Value, x: string, b: Value, y: string)
    requires a.Str? || a.Torn?
    requires b.Str? || b.Torn?
    requires PrintThen(a, x) == PrintThen(b, y)
    ensures a == b && x == y
  {
    TextPrinted(a, x);
    TextPrinted(b, y);
    TornPrefix(Pieces(a), x, Pieces(b), y);
    if a.Str? && b.Str? { SoundInjective(a.s, b.s); }
    assert a.Str? ==> None !in Pieces(a);
    assert b.Str? ==> None !in Pieces(b);
  }

  // A printed value is read off the front of a text in one way.
  lemma {:induction false} PrintPrefix(a: Value, x: string, b: Value, y: string)
    requires Ends(x) && Ends(y) && PrintThen(a, x) == PrintThen(b, y)
    ensures a == b && x == y
    decreases a, 1, 0
  {
    hide QuoteThen, TornThen, Pieces, IntText, FracText, ItemsThen, FieldsThen;
    PrintStart(a, x);
    PrintStart(b, y);
    match a
    case Null => DropPrefix("null", x, "null", y);
    case Bool(t) =>
      var w := if t then "true" else "false";
      DropPrefix(w, x, w, y);
    case Int(_) => NumberPrefix(a, x, b, y);
    case Frac(_) => NumberPrefix(a, x, b, y);
    case Str(_) => TextPrefix(a, x, b, y);
    case Torn(_) => TextPrefix(a, x, b, y);
    case Arr(_) =>
      DropChar('[', ItemsThen(a, 0, x), '[', ItemsThen(b, 0, y));
      ItemsPrefix(a, x, b, y, 0);
    case Obj(m) =>
      var ks, ls := SortedKeys(m.Keys), SortedKeys(b.fields.Keys);
      DropChar('{', FieldsThen(a, ks, x), '{', FieldsThen(b, ls, y));
      FieldsPrefix(a, ks, x, b, ls, y);
      assert m.Keys == b.fields.Keys;
  }

  lemma {:induction false} ItemsPrefix(a: Value, x: string, b: Value, y: string, i: nat)
    requires a.Arr? && b.Arr? && i <= |a.items| && i <= |b.items| && a.items[..i] == b.items[..i]
    requires Ends(x) && Ends(y) && ItemsThen(a, i, x) == ItemsThen(b, i, y)
    ensures a == b && x == y
    decreases a, 0, |a.items| - i
  {
    var m, n := |a.items|, |b.items|;
    ItemsStart(a, x, i);
    ItemsStart(b, y, i);
    if i == m {
      DropChar(']', x, ']', y);
    } else {
      var ra, rb := ItemRest(a, x, i), ItemRest(b, y, i);
      PrintPrefix(a.items[i], ra, b.items[i], rb);
      hide PrintThen, ItemsThen;
      assert a.items[..i + 1] == a.items[..i] + [a.items[i]] == b.items[..i] + [b.items[i]] == b.items[..i + 1];
      if i + 1 == m {
        DropChar(']', x, rb[0], rb[1..]);
        assert a.items == a.items[..i + 1];
      } else {
        DropChar(',', ItemsThen(a, i + 1, x), rb[0], rb[1..]);
        ItemsPrefix(a, x, b, y, i + 1);
      }
    }
  }

  // What follows the element i.
  function ItemRest(v: Value, x: string, i: nat): (t: string)
    requires v.Arr? && i < |v.items|
    ensures t != []
    decreases v, 0, |v.items| - i
  {
    if i + 1 == |v.items| then [']'] + x else [','] + ItemsThen(v, i + 1, x)
  }

  lemma ItemsStart(v: Value, x: string, i: nat)
    requires v.Arr? && i <= |v.items|
    ensures var t := ItemsThen(v, i, x);
            && t != [] && (t[0] == ']' <==> i == |v.items|)
            && (i < |v.items| ==> t == PrintThen(v.items[i], ItemRest(v, x, i)) && Ends(ItemRest(v, x, i)))
  {
    if i < |v.items| { PrintStart(v.items[i], ItemRest(v, x, i)); }
  }

  lemma {:induction false} FieldsPrefix(a: Value, ks: seq<string>, x: string, b: Value, ls: seq<string>, y: string)
    requires a.Obj? && b.Obj? && (forall k :: k in ks ==> k in a.fields) && (forall l :: l in ls ==> l in b.fields)
    requires Ends(x) && Ends(y) && FieldsThen(a, ks, x) == FieldsThen(b, ls, y)
    ensures ks == ls && x == y && forall k :: k in ks ==> a.fields[k] == b.fields[k]
    decreases a, 0, |ks|
  {
    var u := FieldsThen(a, ks, x);
    assert u[0] == (if ks == [] then '}' else '"') && u[0] == (if ls == [] then '}' else '"');
    if ks == [] {
      DropChar('}', x, '}', y);
    } else {
      var va, vb := a.fields[ks[0]], b.fields[ls[0]];
      var ra := if |ks| == 1 then ['}'] + x else [','] + FieldsThen(a, ks[1..], x);
      var rb := if |ls| == 1 then ['}'] + y else [','] + FieldsThen(b, ls[1..], y);
      QuotePrefix(ks[0], [':'] + PrintThen(va, ra), ls[0], [':'] + PrintThen(vb, rb));
      DropChar(':', PrintThen(va, ra), ':', PrintThen(vb, rb));
      PrintPrefix(va, ra, vb, rb);
      assert ks == [ks[0]] + ks[1..] && ls == [ls[0]] + ls[1..];
      assert ra[0] == (if |ks| == 1 then '}' else ',') && rb[0] == (if |ls| == 1 then '}' else ',');
      if |ks| == 1 {
        DropChar('}', x, '}', y);
      } else {
        DropChar(',', FieldsThen(a, ks[1..], x), ',', FieldsThen(b, ls[1..], y));
        FieldsPrefix(a, ks[1..], x, b, ls[1..], y);
      }
    }
  }

  // Comparing canonical texts is comparing values.
  lemma PrintInjective(a: Value, b: Value)
    requires Print(a) == Print(b)
    ensures a == b
  {
    PrintPrefix(a, "", b, "");
  }
}
