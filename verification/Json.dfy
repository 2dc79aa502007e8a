// Reading JSON text, as RFC 8259 defines it, without white space and exponents, which the
// canonical text does not use.
module Json {
  import opened Arith
  import opened Decimals
  import opened Doubles
  import opened Norm
  import opened Numbers
  import opened Optional
  import opened Strings
  import opened Utf8
  import opened Values

  // What was read off the front of a text, and the rest.
  datatype Read<T> = Nothing | Got(value: T, rest: string)

  // ----- numbers (section 6) --------------------------------------------------------------

  // The length of the longest front of digits, signs and points.
  ghost function Token(t: string): (n: nat)
    ensures n <= |t|
  {
    if t == [] || !IsNumeric(t[0]) then 0 else 1 + Token(t[1..])
  }

  // Where the point is, or the end.
  ghost function Point(t: string): (n: nat)
    ensures n <= |t|
  {
    if t == [] || t[0] == '.' then 0 else 1 + Point(t[1..])
  }

  // A number without a point is an integer, one with a point the float64 next to it.
  ghost function NumberValue(t: string): Option<Value> {
    var neg := t != [] && t[0] == '-';
    var b := if neg then t[1..] else t;
    var p := Point(b);
    var whole := b[..p];
    if whole == [] || !All(whole, IsDigit) || (whole[0] == '0' && |whole| > 1) then None
    else if p == |b| then Some(Int(if neg then 0 - Number(whole) else Number(whole)))
    else
      var part := b[p + 1..];
      if part == [] || !All(part, IsDigit) then None
      else Some(FloatValue(NearestFloat(neg, Decimal(Number(whole + part), -|part|))))
  }

  ghost function ReadNumber(t: string): (r: Read<Value>)
    ensures r.Got? ==> |r.rest| < |t|
  {
    var n := Token(t);
    match NumberValue(t[..n]) case None => Nothing case Some(v) => Got(v, t[n..])
  }

  // ----- strings (section 7) ----------------------------------------------------------------

  ghost function HexValue(c: char): Option<nat> {
    if '0' <= c <= '9' then Some(c as nat - '0' as nat)
    else if 'a' <= c <= 'f' then Some(c as nat - 'a' as nat + 10)
    else if 'A' <= c <= 'F' then Some(c as nat - 'A' as nat + 10)
    else None
  }

  ghost function HexNumber(t: string): Option<nat>
    requires |t| == 4
  {
    match (HexValue(t[0]), HexValue(t[1]), HexValue(t[2]), HexValue(t[3]))
    case (Some(a), Some(b), Some(c), Some(d)) => Some(((a * 16 + b) * 16 + c) * 16 + d)
    case _ => None
  }

  // One character, escaped or not. Half a surrogate pair reads as the replacement character.
  ghost function ReadChar(t: string): (r: Read<char>)
    requires t != []
    ensures r.Got? ==> |r.rest| < |t|
  {
    if t[0] as int < 0x20 || t[0] == '"' then Nothing
    else if t[0] != '\\' then Got(t[0], t[1..])
    else if |t| == 1 then Nothing
    else match t[1]
      case '"' => Got('"', t[2..])
      case '\\' => Got('\\', t[2..])
      case '/' => Got('/', t[2..])
      case 'b' => Got('\U{0008}', t[2..])
      case 'f' => Got('\U{000C}', t[2..])
      case 'n' => Got('\n', t[2..])
      case 'r' => Got('\r', t[2..])
      case 't' => Got('\t', t[2..])
      case 'u' =>
        if |t| < 6 then Nothing
        else (match HexNumber(t[2..6])
              case None => Nothing
              case Some(n) =>
                if n < 0xD800 || 0xE000 <= n < 0x10000 then Got(n as char, t[6..]) else Got('\U{FFFD}', t[6..]))
      case _ => Nothing
  }

  // A string after its opening quote.
  ghost function ReadString(t: string): (r: Read<string>)
    ensures r.Got? ==> |r.rest| < |t|
    decreases |t|
  {
    if t == [] then Nothing
    else if t[0] == '"' then Got([], t[1..])
    else match ReadChar(t)
      case Nothing => Nothing
      case Got(c, u) => (match ReadString(u) case Nothing => Nothing case Got(s, x) => Got([c] + s, x))
  }

  // ----- values (sections 3 to 5) -----------------------------------------------------------

  ghost function ReadValue(t: string): (r: Read<Value>)
    ensures r.Got? ==> |r.rest| < |t|
    decreases |t|, 0
  {
    if t == [] then Nothing
    else if "null" <= t then Got(Null, t[4..])
    else if "true" <= t then Got(Bool(true), t[4..])
    else if "false" <= t then Got(Bool(false), t[5..])
    else if t[0] == '"' then (match ReadString(t[1..]) case Nothing => Nothing case Got(s, x) => Got(Str(s), x))
    else if "[]" <= t then Got(Arr([]), t[2..])
    else if t[0] == '[' then (match ReadItems(t[1..]) case Nothing => Nothing case Got(vs, x) => Got(Arr(vs), x))
    else if "{}" <= t then Got(Obj(map[]), t[2..])
    else if t[0] == '{' then (match ReadMembers(t[1..]) case Nothing => Nothing case Got(m, x) => Got(Obj(m), x))
    else ReadNumber(t)
  }

  // Elements up to the bracket.
  ghost function ReadItems(t: string): (r: Read<seq<Value>>)
    ensures r.Got? ==> |r.rest| < |t|
    decreases |t|, 1
  {
    match ReadValue(t)
    case Nothing => Nothing
    case Got(v, u) =>
      if u == [] then Nothing
      else if u[0] == ']' then Got([v], u[1..])
      else if u[0] != ',' then Nothing
      else (match ReadItems(u[1..]) case Nothing => Nothing case Got(vs, x) => Got([v] + vs, x))
  }

  // Members up to the brace; of members with one name the last counts.
  ghost function ReadMembers(t: string): (r: Read<map<string, Value>>)
    ensures r.Got? ==> |r.rest| < |t|
    decreases |t|, 1
  {
    if t == [] || t[0] != '"' then Nothing
    else match ReadString(t[1..])
      case Nothing => Nothing
      case Got(k, u) =>
        if u == [] || u[0] != ':' then Nothing
        else match ReadValue(u[1..])
          case Nothing => Nothing
          case Got(v, w) =>
            if w == [] then Nothing
            else if w[0] == '}' then Got(map[k := v], w[1..])
            else if w[0] != ',' then Nothing
            else match ReadMembers(w[1..])
              case Nothing => Nothing
              case Got(m, x) => Got(if k in m then m else m[k := v], x)
  }

  // A text that is one value.
  ghost function Parse(t: string): Option<Value> {
    match ReadValue(t) case Nothing => None case Got(v, x) => if x == [] then Some(v) else None
  }

  // ----- the canonical text reads back --------------------------------------------------------

  // A value as its text is read: broken text is mended.
  function Seen(v: Value): Value {
    match v
    case Torn(t) => Str(Mended(t))
    case Arr(items) => Arr(seq(|items|, i requires 0 <= i < |items| => Seen(items[i])))
    case Obj(fields) => Obj(map k | k in fields :: Seen(fields[k]))
    case _ => v
  }

  lemma {:induction false} TokenIs(a: string, x: string)
    requires All(a, IsNumeric) && Stops(x, IsNumeric)
    ensures Token(a + x) == |a|
  {
    if a == [] {
      assert a + x == x;
    } else {
      assert (a + x)[0] == a[0] && (a + x)[1..] == a[1..] + x;
      TokenIs(a[1..], x);
    }
  }

  lemma {:induction false} PointIs(w: string, x: string)
    requires All(w, IsDigit) && (x == [] || x[0] == '.')
    ensures Point(w + x) == |w|
  {
    if w == [] {
      assert w + x == x;
    } else {
      assert (w + x)[0] == w[0] && (w + x)[1..] == w[1..] + x;
      PointIs(w[1..], x);
    }
  }

  lemma {:induction false} NumberConcat(a: string, b: string)
    ensures Number(a + b) == Number(a) * Pow10(|b|) + Number(b)
  {
    if b == [] {
      assert a + b == a;
    } else {
      var n := |b| - 1;
      assert (a + b)[..|a + b| - 1] == a + b[..n] && (a + b)[|a + b| - 1] == b[n];
      NumberConcat(a, b[..n]);
      MulAssoc(Number(a), Pow10(n), 10);
    }
  }

  lemma NaturalText(n: nat)
    ensures var t := NatText(n); t != [] && All(t, IsDigit) && Number(t) == n && (t[0] == '0' ==> |t| == 1)
  {
    NatTextDigits(n);
    NatTextReads(n);
  }

  lemma IntReads(i: int)
    ensures NumberValue(IntText(i)) == Some(Int(i))
  {
    hide NatText, Number;
    var t := NatText(Abs(i));
    NaturalText(Abs(i));
    PointIs(t, []);
    assert t + [] == t && (if i < 0 then IntText(i)[1..] else IntText(i)) == t;
    assert IntText(i)[0] == '-' <==> i < 0;
  }

  lemma FracReads(f: Fraction)
    ensures NumberValue(FracText(f)) == Some(Frac(f))
  {
    hide NatText, Number, Pad, Nearest, Shortest, Grains, Pow10, Holds, FloatValue, Point;
    var d := Values.Digits(f);
    var w, p := NatText(Whole(d)), Pad(Part(d), -d.exp);
    NaturalText(Whole(d));
    PadDigits(Part(d), -d.exp);
    PadReads(Part(d), -d.exp);
    NumberConcat(w, p);
    PointIs(w, "." + p);
    var b := w + ("." + p);
    assert FracText(f) == (if f < 0 then "-" else "") + b;
    assert (if f < 0 then FracText(f)[1..] else FracText(f)) == b;
    assert FracText(f)[0] == '-' <==> f < 0;
    assert b[..|w|] == w && b[|w| + 1..] == p;
    assert Number(w + p) == d.coef && Decimal(d.coef, -|p|) == d;
    FracValue(f);
  }

  lemma FracValue(f: Fraction)
    ensures NearestFloat(f < 0, Values.Digits(f)) == f && FloatValue(f) == Frac(f)
  {
    hide Nearest, Shortest, Grains;
    FractionBack(f);
    assert IsFraction(f);
  }

  lemma NumberReads(v: Value, x: string)
    requires (v.Int? || v.Frac?) && Ends(x)
    ensures ReadValue(PrintThen(v, x)) == Got(Seen(v), x)
  {
    hide IntText, FracText, NumberValue;
    var t := NumberText(v);
    NumberTextNumeric(v);
    PrintStart(v, x);
    TokenIs(t, x);
    assert PrintThen(v, x) == t + x && (t + x)[..|t|] == t && (t + x)[|t|..] == x;
    match v
    case Int(i) => IntReads(i);
    case Frac(f) => FracReads(f);
  }

  lemma HexDigitReads(n: nat)
    requires n < 16
    ensures HexValue(HexDigit(n)) == Some(n)
  {
  }

  lemma HexReads(n: nat)
    requires n < 0x10000
    ensures |Hex4(n)| == 4 && HexNumber(Hex4(n)) == Some(n)
  {
    hide HexDigit, HexValue;
    var a := n / 16;
    var b := a / 16;
    HexDigitReads(b / 16);
    HexDigitReads(b % 16);
    HexDigitReads(a % 16);
    HexDigitReads(n % 16);
  }

  // Every piece reads back as its character.
  lemma PieceReads(p: Option<char>, x: string)
    ensures var t := Piece(p) + x;
            t != [] && t[0] != '"' && ReadChar(t) == Got(match p case None => '\U{FFFD}' case Some(c) => c, x)
  {
    hide Hex4, HexNumber;
    var t := Piece(p) + x;
    if p == None || (p.value !in "\"\\\n\r\t\U{0008}\U{000C}" && NeedsHex(p.value)) {
      HexReads(if p == None then 0xFFFD else p.value as int);
      var n := Code(p);
      assert t[2..6] == Hex4(n) && t[6..] == x;
    } else if |Piece(p)| == 2 {
      assert t[1] == Piece(p)[1] && t[2..] == x;
    } else {
      assert t[1..] == x;
    }
  }

  lemma {:induction false} PiecesRead(t: seq<Option<char>>, x: string)
    ensures ReadString(PiecesThen(t, ['"'] + x)) == Got(Mended(t), x)
  {
    if t != [] {
      hide Piece, ReadChar;
      PieceReads(t[0], PiecesThen(t[1..], ['"'] + x));
      PiecesRead(t[1..], x);
      assert Mended(t) == [Mended(t)[0]] + Mended(t[1..]);
    } else {
      assert (['"'] + x)[1..] == x && Mended(t) == [];
    }
  }

  lemma QuoteReads(s: string, x: string)
    ensures var t := QuoteThen(s, x); t != [] && t[0] == '"' && ReadString(t[1..]) == Got(s, x)
  {
    QuoteIsTorn(s, x);
    PiecesRead(Sound(s), x);
    MendedSound(s);
  }

  lemma TextReads(v: Value, x: string)
    requires v.Str? || v.Torn?
    ensures ReadValue(PrintThen(v, x)) == Got(Seen(v), x)
  {
    var t := TornThen(Pieces(v), x);
    TextPrinted(v, x);
    PiecesRead(Pieces(v), x);
    FirstChar(t);
    assert t[1..] == PiecesThen(Pieces(v), ['"'] + x);
    if v.Str? { MendedSound(v.s); }
    hide ReadString, TornThen, PrintThen;
  }

  // The first character tells how a value goes on.
  lemma FirstChar(t: string)
    requires t != []
    ensures "null" <= t ==> t[0] == 'n'
    ensures "true" <= t ==> t[0] == 't'
    ensures "false" <= t ==> t[0] == 'f'
    ensures "[]" <= t ==> t[0] == '[' && |t| > 1 && t[1] == ']'
    ensures "{}" <= t ==> t[0] == '{' && |t| > 1 && t[1] == '}'
  {
  }

  // The canonical text of any value, followed by anything that can follow a value, is read
  // back as that value.
  lemma {:induction false} ReadPrinted(v: Value, x: string)
    requires Ends(x)
    ensures ReadValue(PrintThen(v, x)) == Got(Seen(v), x)
    decreases v, 2, 0
  {
    hide ReadValue, PrintThen, Seen, ItemsThen, FieldsThen, ReadItems, ReadMembers;
    match v
    case Null => LiteralReads(v, x);
    case Bool(_) => LiteralReads(v, x);
    case Int(_) => NumberReads(v, x);
    case Frac(_) => NumberReads(v, x);
    case Str(_) => TextReads(v, x);
    case Torn(_) => TextReads(v, x);
    case Arr(items) =>
      if items == [] {
        EmptyReads(v, x);
      } else {
        ItemsRead(v, 0, x);
        BracketReads(v, x);
      }
    case Obj(fields) =>
      var keys := SortedKeys(fields.Keys);
      if keys == [] {
        EmptyReads(v, x);
      } else {
        MembersRead(v, keys, x);
        BraceReads(v, keys, x);
      }
  }

  lemma LiteralReads(v: Value, x: string)
    requires v.Null? || v.Bool?
    ensures ReadValue(PrintThen(v, x)) == Got(Seen(v), x)
  {
    FirstChar(PrintThen(v, x));
    assert ("null" + x)[4..] == x && ("true" + x)[4..] == x && ("false" + x)[5..] == x;
  }

  lemma EmptyReads(v: Value, x: string)
    requires (v.Arr? && v.items == []) || (v.Obj? && SortedKeys(v.fields.Keys) == [])
    ensures ReadValue(PrintThen(v, x)) == Got(Seen(v), x)
  {
    hide PrintThen, Seen, ReadItems, ReadMembers;
    var t := PrintThen(v, x);
    EmptyText(v, x);
    EmptySeen(v);
    FirstChar(t);
    assert t[2..] == x && t[..2] == if v.Arr? then "[]" else "{}";
  }

  lemma EmptyText(v: Value, x: string)
    requires (v.Arr? && v.items == []) || (v.Obj? && SortedKeys(v.fields.Keys) == [])
    ensures PrintThen(v, x) == (if v.Arr? then "[]" else "{}") + x
  {
    if v.Arr? {
      assert ['['] + ([']'] + x) == "[]" + x;
    } else {
      assert ['{'] + (['}'] + x) == "{}" + x;
    }
  }

  lemma EmptySeen(v: Value)
    requires (v.Arr? && v.items == []) || (v.Obj? && SortedKeys(v.fields.Keys) == [])
    ensures Seen(v) == if v.Arr? then Arr([]) else Obj(map[])
  {
    if v.Arr? {
      assert |Seen(v).items| == |v.items|;
    } else {
      assert Seen(v).fields == map[];
    }
  }

  lemma BracketReads(v: Value, x: string)
    requires v.Arr? && v.items != [] && ReadItems(ItemsThen(v, 0, x)) == Got(SeenItems(v, 0), x)
    requires ItemsThen(v, 0, x) != [] && ItemsThen(v, 0, x)[0] != ']'
    ensures ReadValue(PrintThen(v, x)) == Got(Seen(v), x)
  {
    hide ReadItems, ItemsThen;
    var t := PrintThen(v, x);
    FirstChar(t);
    assert t[1..] == ItemsThen(v, 0, x) && t[1] == ItemsThen(v, 0, x)[0];
    assert SeenItems(v, 0) == Seen(v).items;
  }

  lemma BraceReads(v: Value, keys: seq<string>, x: string)
    requires v.Obj? && keys == SortedKeys(v.fields.Keys) && keys != []
    requires ReadMembers(FieldsThen(v, keys, x)) == Got(SeenMembers(v, keys), x)
    requires FieldsThen(v, keys, x) != [] && FieldsThen(v, keys, x)[0] == '"'
    ensures ReadValue(PrintThen(v, x)) == Got(Seen(v), x)
  {
    hide ReadMembers, FieldsThen;
    var t := PrintThen(v, x);
    FirstChar(t);
    assert t[1..] == FieldsThen(v, keys, x) && t[1] == FieldsThen(v, keys, x)[0];
    assert SeenMembers(v, keys) == Seen(v).fields;
  }

  ghost function SeenItems(v: Value, i: nat): seq<Value>
    requires v.Arr? && i <= |v.items|
  {
    seq(|v.items| - i, j requires 0 <= j < |v.items| - i => Seen(v.items[i + j]))
  }

  // One element, and then the bracket or more of them.
  lemma LastItem(t: string, v: Value, u: string)
    requires ReadValue(t) == Got(v, u) && u != []
    ensures u[0] == ']' ==> ReadItems(t) == Got([v], u[1..])
    ensures u[0] == ',' && ReadItems(u[1..]).Got? ==>
              ReadItems(t) == Got([v] + ReadItems(u[1..]).value, ReadItems(u[1..]).rest)
  {
    hide ReadValue;
  }

  // One member, and then the brace or more of them.
  lemma LastMember(t: string, k: string, u: string, v: Value, w: string)
    requires t != [] && t[0] == '"' && ReadString(t[1..]) == Got(k, u)
    requires u != [] && u[0] == ':' && ReadValue(u[1..]) == Got(v, w) && w != []
    ensures w[0] == '}' ==> ReadMembers(t) == Got(map[k := v], w[1..])
    ensures w[0] == ',' && ReadMembers(w[1..]).Got? ==>
              var m := ReadMembers(w[1..]).value;
              ReadMembers(t) == Got(if k in m then m else m[k := v], ReadMembers(w[1..]).rest)
  {
    hide ReadValue, ReadString;
  }

  lemma {:induction false} ItemsRead(v: Value, i: nat, x: string)
    requires v.Arr? && i < |v.items| && Ends(x)
    ensures ReadItems(ItemsThen(v, i, x)) == Got(SeenItems(v, i), x)
    ensures ItemsThen(v, i, x) != [] && ItemsThen(v, i, x)[0] != ']'
    decreases v, 1, |v.items| - i
  {
    var more := if i + 1 == |v.items| then [']'] + x else [','] + ItemsThen(v, i + 1, x);
    ReadPrinted(v.items[i], more);
    if i + 1 < |v.items| { ItemsRead(v, i + 1, x); }
    ItemReads(v, i, x, more);
  }

  lemma ItemReads(v: Value, i: nat, x: string, more: string)
    requires v.Arr? && i < |v.items|
    requires more == if i + 1 == |v.items| then [']'] + x else [','] + ItemsThen(v, i + 1, x)
    requires ReadValue(PrintThen(v.items[i], more)) == Got(Seen(v.items[i]), more)
    requires i + 1 < |v.items| ==> ReadItems(ItemsThen(v, i + 1, x)) == Got(SeenItems(v, i + 1), x)
    ensures ReadItems(ItemsThen(v, i, x)) == Got(SeenItems(v, i), x)
    ensures ItemsThen(v, i, x) != [] && ItemsThen(v, i, x)[0] != ']'
  {
    assert ItemsThen(v, i, x) == PrintThen(v.items[i], more);
    PrintStart(v.items[i], more);
    hide ReadValue, ReadItems, Seen, PrintThen, ItemsThen;
    LastItem(ItemsThen(v, i, x), Seen(v.items[i]), more);
    SeenItemsCons(v, i);
    hide SeenItems;
    assert more[1..] == if i + 1 < |v.items| then ItemsThen(v, i + 1, x) else x;
    if i + 1 == |v.items| { assert SeenItems(v, i) == [Seen(v.items[i])]; }
  }

  lemma SeenItemsCons(v: Value, i: nat)
    requires v.Arr? && i < |v.items|
    ensures SeenItems(v, i) == [Seen(v.items[i])] + SeenItems(v, i + 1) && SeenItems(v, |v.items|) == []
  {
    hide Seen;
  }

  ghost function SeenMembers(v: Value, keys: seq<string>): map<string, Value>
    requires v.Obj? && forall k :: k in keys ==> k in v.fields
  {
    map k | k in keys :: Seen(v.fields[k])
  }

  lemma {:induction false} MembersRead(v: Value, keys: seq<string>, x: string)
    requires v.Obj? && keys != [] && (forall k :: k in keys ==> k in v.fields) && Ends(x)
    ensures ReadMembers(FieldsThen(v, keys, x)) == Got(SeenMembers(v, keys), x)
    ensures FieldsThen(v, keys, x) != [] && FieldsThen(v, keys, x)[0] == '"'
    decreases v, 1, |keys|
  {
    var more := if |keys| == 1 then ['}'] + x else [','] + FieldsThen(v, keys[1..], x);
    ReadPrinted(v.fields[keys[0]], more);
    if |keys| > 1 { MembersRead(v, keys[1..], x); }
    MemberReads(v, keys, x, more);
  }

  lemma MemberReads(v: Value, keys: seq<string>, x: string, more: string)
    requires v.Obj? && keys != [] && forall k :: k in keys ==> k in v.fields
    requires more == if |keys| == 1 then ['}'] + x else [','] + FieldsThen(v, keys[1..], x)
    requires ReadValue(PrintThen(v.fields[keys[0]], more)) == Got(Seen(v.fields[keys[0]]), more)
    requires |keys| > 1 ==> ReadMembers(FieldsThen(v, keys[1..], x)) == Got(SeenMembers(v, keys[1..]), x)
    ensures ReadMembers(FieldsThen(v, keys, x)) == Got(SeenMembers(v, keys), x)
    ensures FieldsThen(v, keys, x) != [] && FieldsThen(v, keys, x)[0] == '"'
  {
    var k := keys[0];
    var value := [':'] + PrintThen(v.fields[k], more);
    assert FieldsThen(v, keys, x) == QuoteThen(k, value);
    hide ReadValue, PrintThen, Seen, QuoteThen, ReadString, ReadMembers, FieldsThen;
    QuoteReads(k, value);
    assert value[1..] == PrintThen(v.fields[k], more);
    LastMember(QuoteThen(k, value), k, value, Seen(v.fields[k]), more);
    MembersCons(v, keys);
    hide SeenMembers;
    assert more[1..] == if |keys| > 1 then FieldsThen(v, keys[1..], x) else x;
  }

  lemma MembersCons(v: Value, keys: seq<string>)
    requires v.Obj? && keys != [] && forall k :: k in keys ==> k in v.fields
    ensures var rest, k := SeenMembers(v, keys[1..]), keys[0];
            && SeenMembers(v, keys) == (if k in rest then rest else rest[k := Seen(v.fields[k])])
            && (|keys| == 1 ==> SeenMembers(v, keys) == map[k := Seen(v.fields[k])])
  {
    hide Seen;
    assert forall j :: j in keys <==> j == keys[0] || j in keys[1..];
  }

  // Round trip: the canonical text of a value parses to the value.
  lemma ParsePrinted(v: Value)
    ensures Parse(Print(v)) == Some(Seen(v))
  {
    ReadPrinted(v, "");
  }
}
