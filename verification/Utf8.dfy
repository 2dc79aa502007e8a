// UTF-8 as Go reads it: what is not a well-formed sequence is skipped byte by byte.
module Utf8 {
  import opened Arith
  import opened Optional

  function Tail(n: nat): Byte { 0x80 + n % 0x40 }

  function Bytes(c: char): (b: seq<Byte>)
    ensures |b| > 0
  {
    var n := c as int;
    var m := n / 0x40;
    if n < 0x80 then [n]
    else if n < 0x800 then [0xC0 + m, Tail(n)]
    else if n < 0x10000 then [0xE0 + m / 0x40, Tail(m), Tail(n)]
    else [0xF0 + m / 0x40 / 0x40, Tail(m / 0x40), Tail(m), Tail(n)]
  }

  function Encode(s: string): seq<Byte> { if s == [] then [] else Bytes(s[0]) + Encode(s[1..]) }

  predicate Follows(b: Byte) { 0x80 <= b < 0xC0 }

  // The first continuation byte rules out overlong forms, surrogates and what is past the end.
  predicate Second(a: Byte, b: Byte) {
    (if a == 0xE0 then 0xA0 else if a == 0xF0 then 0x90 else 0x80)
      <= b < (if a == 0xED then 0xA0 else if a == 0xF4 then 0x90 else 0xC0)
  }

  // The length of the well-formed sequence at the front, if there is one.
  function Size(b: seq<Byte>): (n: nat)
    requires b != []
    ensures n <= |b|
  {
    if b[0] < 0x80 then 1
    else if 0xC2 <= b[0] < 0xE0 then (if |b| > 1 && Follows(b[1]) then 2 else 0)
    else if 0xE0 <= b[0] < 0xF0 then (if |b| > 2 && Second(b[0], b[1]) && Follows(b[2]) then 3 else 0)
    else if 0xF0 <= b[0] < 0xF5 then
      (if |b| > 3 && Second(b[0], b[1]) && Follows(b[2]) && Follows(b[3]) then 4 else 0)
    else 0
  }

  // The number so far and six more bits.
  function More(high: int, b: Byte): int { high * 0x40 + (b as int - 0x80) }

  function First(b: seq<Byte>): char
    requires b != [] && Size(b) > 0
  {
    if b[0] < 0x80 then b[0] as char
    else if b[0] < 0xE0 then More(b[0] as int - 0xC0, b[1]) as char
    else if b[0] < 0xF0 then More(More(b[0] as int - 0xE0, b[1]), b[2]) as char
    else More(More(More(b[0] as int - 0xF0, b[1]), b[2]), b[3]) as char
  }

  // The characters, and None for every byte that is not part of one.
  function Decode(b: seq<Byte>): seq<Option<char>> {
    if b == [] then []
    else if Size(b) == 0 then [None] + Decode(b[1..])
    else [Some(First(b))] + Decode(b[Size(b)..])
  }

  // A text without broken bytes.
  function Sound(s: string): seq<Option<char>> { seq(|s|, i requires 0 <= i < |s| => Some(s[i])) }

  // A byte that is not part of a character reads as the replacement character.
  function Mended(t: seq<Option<char>>): string {
    seq(|t|, i requires 0 <= i < |t| => match t[i] case None => '\U{FFFD}' case Some(c) => c)
  }

  lemma MendedSound(s: string)
    ensures Mended(Sound(s)) == s
  {
  }

  lemma SoundInjective(s: string, t: string)
    requires Sound(s) == Sound(t)
    ensures s == t
  {
    forall i | 0 <= i < |s| ensures s[i] == t[i] { assert Sound(s)[i] == Sound(t)[i]; }
  }

  // The encoding of a character (section 3 of RFC 3629): its bits, six to each byte after the
  // first, and the length in the first.
  lemma BytesMeaning(c: char)
    ensures var b, n := Bytes(c), c as int;
            && (forall i :: 0 < i < |b| ==> 0x80 <= b[i] < 0xC0)
            && (n < 0x80 ==> |b| == 1 && n == b[0])
            && (0x80 <= n < 0x800 ==>
                  |b| == 2 && 0xC0 <= b[0] && n == (b[0] as int - 0xC0) * 0x40 + (b[1] as int - 0x80))
            && (0x800 <= n < 0x10000 ==>
                  |b| == 3 && 0xE0 <= b[0]
                  && n == (b[0] as int - 0xE0) * 0x1000 + (b[1] as int - 0x80) * 0x40 + (b[2] as int - 0x80))
            && (0x10000 <= n ==>
                  |b| == 4 && 0xF0 <= b[0]
                  && n == (b[0] as int - 0xF0) * 0x40000 + (b[1] as int - 0x80) * 0x1000
                          + (b[2] as int - 0x80) * 0x40 + (b[3] as int - 0x80))
  {
  }

  lemma MoreTail(n: nat)
    ensures More(n / 0x40, Tail(n)) == n && Follows(Tail(n))
  {
  }

  lemma TailMore(high: nat, b: Byte)
    requires Follows(b)
    ensures More(high, b) / 0x40 == high && Tail(More(high, b)) == b
  {
  }

  lemma SecondOfThree(m: nat)
    requires 0x20 <= m < 0x400 && !(0x360 <= m < 0x380)
    ensures Second(0xE0 + m / 0x40, Tail(m))
  {
  }

  lemma SecondOfFour(m: nat)
    requires 0x10 <= m < 0x110
    ensures Second(0xF0 + m / 0x40, Tail(m))
  {
  }

  lemma BytesFirst(c: char, rest: seq<Byte>)
    ensures Size(Bytes(c) + rest) == |Bytes(c)| && First(Bytes(c) + rest) == c
  {
    var n, b := c as int, Bytes(c) + rest;
    var m := n / 0x40;
    assert forall i :: 0 <= i < |Bytes(c)| ==> b[i] == Bytes(c)[i];
    MoreTail(n);
    MoreTail(m);
    MoreTail(m / 0x40);
    if 0x800 <= n < 0x10000 { SecondOfThree(m); }
    if 0x10000 <= n { SecondOfFour(m / 0x40); }
    hide More, Follows, Tail, Second;
    if n < 0x80 {
    } else if n < 0x800 {
      assert More(b[0] as int - 0xC0, b[1]) == n;
    } else if n < 0x10000 {
      assert More(More(b[0] as int - 0xE0, b[1]), b[2]) == n;
    } else {
      assert More(More(More(b[0] as int - 0xF0, b[1]), b[2]), b[3]) == n;
    }
  }

  lemma SecondFollows(a: Byte, b: Byte)
    requires Second(a, b)
    ensures Follows(b)
  {
  }

  lemma RangeOfThree(a: Byte, b: Byte, c: Byte)
    requires 0xE0 <= a < 0xF0 && Second(a, b) && Follows(c)
    ensures 0x800 <= More(More(a - 0xE0, b), c) < 0x10000
  {
  }

  lemma RangeOfFour(a: Byte, b: Byte, c: Byte, d: Byte)
    requires 0xF0 <= a < 0xF5 && Second(a, b) && Follows(c) && Follows(d)
    ensures 0x10000 <= More(More(More(a - 0xF0, b), c), d)
  {
  }

  lemma FirstBytes(b: seq<Byte>)
    requires b != [] && Size(b) > 0
    ensures Bytes(First(b)) == b[..Size(b)]
  {
    hide More, Follows, Tail, Second;
    if 0xC2 <= b[0] < 0xE0 {
      TwoBytes(b);
    } else if 0xE0 <= b[0] < 0xF0 {
      ThreeBytes(b);
    } else if b[0] >= 0xF0 {
      FourBytes(b);
    }
  }

  lemma ThreeBytes(b: seq<Byte>)
    requires |b| > 2 && 0xE0 <= b[0] < 0xF0 && Second(b[0], b[1]) && Follows(b[2])
    ensures Bytes(First(b)) == [b[0], b[1], b[2]]
  {
    var m := More(b[0] - 0xE0, b[1]);
    SecondFollows(b[0], b[1]);
    TailMore(b[0] - 0xE0, b[1]);
    TailMore(m, b[2]);
    RangeOfThree(b[0], b[1], b[2]);
    assert First(b) as int == More(m, b[2]);
    hide More, Follows, Tail, Second;
  }

  lemma FourBytes(b: seq<Byte>)
    requires |b| > 3 && 0xF0 <= b[0] < 0xF5 && Second(b[0], b[1]) && Follows(b[2]) && Follows(b[3])
    ensures Bytes(First(b)) == [b[0], b[1], b[2], b[3]]
  {
    var m := More(b[0] - 0xF0, b[1]);
    SecondFollows(b[0], b[1]);
    TailMore(b[0] - 0xF0, b[1]);
    TailMore(m, b[2]);
    TailMore(More(m, b[2]), b[3]);
    RangeOfFour(b[0], b[1], b[2], b[3]);
    assert First(b) as int == More(More(m, b[2]), b[3]);
    hide More, Follows, Tail, Second;
  }

  lemma TwoBytes(b: seq<Byte>)
    requires |b| > 1 && 0xC2 <= b[0] < 0xE0 && Follows(b[1])
    ensures Bytes(First(b)) == [b[0], b[1]]
  {
  }

  lemma {:induction false} EncodeDecode(s: string)
    ensures Decode(Encode(s)) == Sound(s)
  {
    if s != [] {
      hide Bytes, First, Size;
      var b := Encode(s);
      EncodeDecode(s[1..]);
      BytesFirst(s[0], Encode(s[1..]));
      assert b[|Bytes(s[0])|..] == Encode(s[1..]);
      assert Sound(s) == [Some(s[0])] + Sound(s[1..]);
    }
  }

  lemma {:induction false} DecodeEncode(b: seq<Byte>, s: string)
    requires Decode(b) == Sound(s)
    ensures b == Encode(s)
  {
    hide Bytes, First, Size;
    if b == [] {
      assert |s| == |Sound(s)| == 0;
    } else {
      assert Decode(b)[0] == Sound(s)[0] == Some(s[0]);
      FirstBytes(b);
      assert Decode(b)[1..] == Decode(b[Size(b)..]);
      assert Sound(s)[1..] == Sound(s[1..]);
      DecodeEncode(b[Size(b)..], s[1..]);
      assert b == b[..Size(b)] + b[Size(b)..];
    }
  }

  // Decoding gives a text without broken bytes exactly from that text's encoding.
  lemma DecodeExact(b: seq<Byte>, s: string)
    ensures Decode(b) == Sound(s) <==> b == Encode(s)
  {
    EncodeDecode(s);
    if Decode(b) == Sound(s) { DecodeEncode(b, s); }
  }

  // Any text is the decoding of some bytes.
  function Spell(t: seq<Option<char>>): seq<Byte> {
    if t == [] then [] else (match t[0] case None => [0xFF] case Some(c) => Bytes(c)) + Spell(t[1..])
  }

  lemma {:induction false} SpellDecode(t: seq<Option<char>>)
    ensures Decode(Spell(t)) == t
  {
    if t != [] {
      var b := Spell(t);
      SpellDecode(t[1..]);
      match t[0]
      case None => assert b[0] == 0xFF && b[1..] == Spell(t[1..]);
      case Some(c) =>
        hide Bytes, First, Size;
        BytesFirst(c, Spell(t[1..]));
        assert b[|Bytes(c)|..] == Spell(t[1..]);
    }
  }
}
