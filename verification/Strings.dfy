// Text as the engine sees it: sequences of characters, ordered the way Go orders
// strings (byte order of UTF-8, which is code point order), and cut or joined at
// one separator.
module Strings {

  predicate Lt(a: string, b: string) {
    |b| > 0 && (|a| == 0 || a[0] < b[0] || (a[0] == b[0] && Lt(a[1..], b[1..])))
  }

  predicate Le(a: string, b: string) { a == b || Lt(a, b) }

  lemma {:induction false} LtIrreflexive(a: string)
    ensures !Lt(a, a)
  {
    if |a| > 0 { LtIrreflexive(a[1..]); }
  }

  lemma {:induction false} LtTransitive(a: string, b: string, c: string)
    requires Lt(a, b) && Lt(b, c)
    ensures Lt(a, c)
  {
    if |a| > 0 && a[0] == b[0] && b[0] == c[0] { LtTransitive(a[1..], b[1..], c[1..]); }
  }

  lemma {:induction false} LtTotal(a: string, b: string)
    ensures Lt(a, b) || a == b || Lt(b, a)
  {
    if |a| > 0 && |b| > 0 && a[0] == b[0] {
      LtTotal(a[1..], b[1..]);
      assert a == [a[0]] + a[1..] && b == [b[0]] + b[1..];
    }
  }

  lemma LtAsymmetric(a: string, b: string)
    requires Lt(a, b)
    ensures a != b && !Lt(b, a)
  {
    LtIrreflexive(a);
    if Lt(b, a) { LtTransitive(a, b, a); }
  }

  lemma LeAntisymmetric(a: string, b: string)
    requires Le(a, b) && Le(b, a)
    ensures a == b
  {
    if a != b { LtAsymmetric(a, b); }
  }

  lemma LeTransitive(a: string, b: string, c: string)
    requires Le(a, b) && Le(b, c)
    ensures Le(a, c)
  {
    if a != b && b != c { LtTransitive(a, b, c); }
  }

  // A common prefix does not take part in a comparison.
  lemma {:induction false} LtCommonPrefix(p: string, s: string, t: string)
    ensures Lt(p + s, p + t) == Lt(s, t)
  {
    if p == [] {
      assert p + s == s && p + t == t;
    } else {
      assert (p + s)[1..] == p[1..] + s && (p + t)[1..] == p[1..] + t;
      LtCommonPrefix(p[1..], s, t);
    }
  }

  // Fields of equal width are compared field by field.
  lemma {:induction false} LtFixedWidth(a: string, b: string, s: string, t: string)
    requires |a| == |b|
    ensures Lt(a + s, b + t) == (Lt(a, b) || (a == b && Lt(s, t)))
  {
    if a == [] {
      assert a + s == s && b + t == t;
    } else {
      assert (a + s)[1..] == a[1..] + s && (b + t)[1..] == b[1..] + t;
      LtFixedWidth(a[1..], b[1..], s, t);
      assert a == [a[0]] + a[1..] && b == [b[0]] + b[1..];
    }
  }

  ghost predicate All(s: string, p: char -> bool) { forall i :: 0 <= i < |s| ==> p(s[i]) }

  // The rest after a token: either nothing, or a character the token cannot hold.
  ghost predicate Stops(s: string, p: char -> bool) { s != [] ==> !p(s[0]) }

  // A token ends where its alphabet ends, so a text splits into token and rest in one way.
  lemma {:induction false} TokenUnique(a: string, x: string, b: string, y: string, p: char -> bool)
    requires All(a, p) && All(b, p) && Stops(x, p) && Stops(y, p)
    requires a + x == b + y
    ensures a == b && x == y
  {
    var u := a + x;
    assert (a != [] ==> u[0] == a[0]) && (b != [] ==> u[0] == b[0]);
    if a == [] || b == [] {
      assert (a == [] ==> u == x) && (b == [] ==> u == y);
    } else {
      assert a[0] == (a + x)[0] == (b + y)[0] == b[0];
      assert a[1..] + x == (a + x)[1..] == (b + y)[1..] == b[1..] + y;
      TokenUnique(a[1..], x, b[1..], y, p);
      assert a == [a[0]] + a[1..] && b == [b[0]] + b[1..];
    }
  }

  // Equal prefixes of equal length can be dropped.
  lemma DropPrefix(p: string, x: string, q: string, y: string)
    requires p + x == q + y && |p| == |q|
    ensures p == q && x == y
  {
    assert p == (p + x)[..|p|] == (q + y)[..|q|] == q;
    assert x == (p + x)[|p|..] == (q + y)[|q|..] == y;
  }

  // strings.Split(s, ".") and strings.Join(parts, ".")
  function Split(s: string): (parts: seq<string>)
    ensures |parts| > 0
  {
    if s == [] then [[]]
    else
      var rest := Split(s[1..]);
      if s[0] == '.' then [[]] + rest else [[s[0]] + rest[0]] + rest[1..]
  }

  function Join(parts: seq<string>): string {
    if |parts| == 0 then "" else if |parts| == 1 then parts[0] else parts[0] + "." + Join(parts[1..])
  }

  ghost predicate NoDot(s: string) { forall i :: 0 <= i < |s| ==> s[i] != '.' }

  lemma {:induction false} SplitToken(s: string)
    requires NoDot(s)
    ensures Split(s) == [s]
  {
    if s != [] {
      SplitToken(s[1..]);
      assert [s[0]] + s[1..] == s;
    }
  }

  lemma {:induction false} SplitAtDot(s: string, t: string)
    requires NoDot(s)
    ensures Split(s + "." + t) == [s] + Split(t)
  {
    var u := s + "." + t;
    if s == [] {
      assert u[1..] == t;
    } else {
      assert u[1..] == s[1..] + "." + t;
      SplitAtDot(s[1..], t);
      assert [s[0]] + s[1..] == s;
    }
  }

  lemma {:induction false} SplitParts(s: string, i: nat)
    requires i < |Split(s)|
    ensures NoDot(Split(s)[i])
  {
    if s != [] {
      var rest := Split(s[1..]);
      if s[0] == '.' {
        if i > 0 { SplitParts(s[1..], i - 1); }
      } else {
        SplitParts(s[1..], i);
      }
    }
  }

  lemma {:induction false} SplitOfJoin(parts: seq<string>)
    requires parts != [] && forall i :: 0 <= i < |parts| ==> NoDot(parts[i])
    ensures Split(Join(parts)) == parts
  {
    if |parts| == 1 {
      SplitToken(parts[0]);
    } else {
      SplitOfJoin(parts[1..]);
      SplitAtDot(parts[0], Join(parts[1..]));
    }
  }

  lemma {:induction false} JoinOfSplit(s: string)
    ensures Join(Split(s)) == s
  {
    if s != [] {
      var rest := Split(s[1..]);
      JoinOfSplit(s[1..]);
      if s[0] == '.' {
        assert ([[]] + rest)[1..] == rest;
      } else {
        var parts := [[s[0]] + rest[0]] + rest[1..];
        assert parts[1..] == rest[1..];
      }
    }
  }

  // The keys of a Go map in the order encoding/json and sort.Strings give them.
  lemma {:induction false} LeastExists(keys: set<string>) returns (k: string)
    requires keys != {}
    ensures k in keys && forall other :: other in keys ==> Le(k, other)
  {
    var x :| x in keys;
    var rest := keys - {x};
    assert keys == rest + {x};
    if rest == {} {
      k := x;
    } else {
      var m := LeastExists(rest);
      LtTotal(x, m);
      k := if Lt(x, m) then x else m;
      forall other | other in keys ensures Le(k, other) {
        if other != x { LeTransitive(k, m, other); }
      }
    }
  }

  function Least(keys: set<string>): (k: string)
    requires keys != {}
    ensures k in keys && forall other :: other in keys ==> Le(k, other)
  {
    assert exists k :: k in keys && forall other :: other in keys ==> Le(k, other) by {
      var k := LeastExists(keys);
    }
    assert forall a, b :: Le(a, b) && Le(b, a) ==> a == b by {
      forall a, b | Le(a, b) && Le(b, a) ensures a == b { LeAntisymmetric(a, b); }
    }
    var k :| k in keys && forall other :: other in keys ==> Le(k, other);
    k
  }

  function SortedKeys(keys: set<string>): (ks: seq<string>)
    ensures forall k :: k in ks <==> k in keys
    ensures |ks| == |keys|
  {
    if keys == {} then []
    else
      var k := Least(keys);
      assert keys == (keys - {k}) + {k};
      [k] + SortedKeys(keys - {k})
  }

  // They come in increasing order.
  lemma {:induction false} SortedKeysOrder(keys: set<string>)
    ensures forall i, j :: 0 <= i < j < |SortedKeys(keys)| ==> Lt(SortedKeys(keys)[i], SortedKeys(keys)[j])
  {
    if keys != {} {
      var k := Least(keys);
      SortedKeysOrder(keys - {k});
      var rest := SortedKeys(keys - {k});
      forall j | 0 <= j < |rest| ensures Lt(k, rest[j]) { assert rest[j] in keys - {k}; }
    }
  }

  lemma {:induction false} SortedKeysDistinct(keys: set<string>)
    ensures forall i, j :: 0 <= i < j < |SortedKeys(keys)| ==> SortedKeys(keys)[i] != SortedKeys(keys)[j]
  {
    if keys != {} {
      var k := Least(keys);
      SortedKeysDistinct(keys - {k});
      assert k !in SortedKeys(keys - {k});
    }
  }
}
