// When sorting arrays twice is sorting them once. Children are visited under the index they
// had before their parent was sorted, so a rule that names an index may meet another child
// the second time.
module SortRules {
  import opened Arrays
  import opened Glob
  import opened Optional
  import opened Sorting
  import opened Strings
  import opened Values

  // How the array at a path is sorted, if it is: by a member, or by whole element.
  function SortBy(rules: seq<SortRule>, path: seq<string>): Option<string> {
    match RuleFor(rules, path)
    case None => None
    case Some(rule) => Some(if rule.key == CANONICAL then "" else rule.key)
  }

  function By(items: seq<Value>, how: Option<string>): seq<Value> {
    match how case None => items case Some(key) => StableSort(items, e => SortKey(key, e))
  }

  lemma SortItemsBy(items: seq<Value>, rules: seq<SortRule>, path: seq<string>)
    ensures SortItems(items, rules, path) == By(items, SortBy(rules, path))
  {
    match RuleFor(rules, path)
    case None =>
    case Some(rule) =>
      var key := if rule.key == CANONICAL then "" else rule.key;
      var f, g := e => SortKey(rule.key, e), e => SortKey(key, e);
      assert forall e :: f(e) == g(e);
      SameKeySameSort(items, f, g);
  }

  lemma SortArr(items: seq<Value>, rules: seq<SortRule>, path: seq<string>)
    ensures SortArrays(Arr(items), rules, path) == Arr(By(Children(items, rules, path), SortBy(rules, path)))
  {
    hide SortItems;
    var sorted := seq(|items|, i requires 0 <= i < |items| => SortArrays(items[i], rules, path + [NatText(i)]));
    assert sorted == Children(items, rules, path);
    SortItemsBy(sorted, rules, path);
  }

  lemma ByTwice(items: seq<Value>, how: Option<string>)
    ensures multiset(By(items, how)) == multiset(items) && By(By(items, how), how) == By(items, how)
  {
    match how
    case None =>
    case Some(k) =>
      var key := e => SortKey(k, e);
      StableSortSpec(items, key);
      StableSortEqual(StableSort(items, key), items, key);
  }

  // ----- rules blind to indices ---------------------------------------------------------------

  // Below an array that is sorted, nothing is sorted differently for its index in it.
  ghost predicate IndexBlind(rules: seq<SortRule>) {
    forall path, i: nat, j: nat, rest :: !Sees(rules, path, i, j, rest)
  }

  ghost predicate Sees(rules: seq<SortRule>, path: seq<string>, i: nat, j: nat, rest: seq<string>) {
    SortBy(rules, path) != None
    && SortBy(rules, path + [NatText(i)] + rest) != SortBy(rules, path + [NatText(j)] + rest)
  }

  lemma {:induction false} SortBlind(
    v: Value, rules: seq<SortRule>, path: seq<string>, i: nat, j: nat, rest: seq<string>)
    requires IndexBlind(rules) && SortBy(rules, path) != None
    ensures SortArrays(v, rules, path + [NatText(i)] + rest) == SortArrays(v, rules, path + [NatText(j)] + rest)
  {
    hide NatText, SortArrays, SortBy;
    var p, q := path + [NatText(i)] + rest, path + [NatText(j)] + rest;
    match v
    case Obj(fields) =>
      forall k | k in fields ensures SortArrays(fields[k], rules, p + [k]) == SortArrays(fields[k], rules, q + [k]) {
        SortBlind(fields[k], rules, path, i, j, rest + [k]);
        assert p + [k] == path + [NatText(i)] + (rest + [k]) && q + [k] == path + [NatText(j)] + (rest + [k]);
      }
      SortObjects(v, rules, p, q);
    case Arr(items) =>
      forall n | 0 <= n < |items|
        ensures SortArrays(items[n], rules, p + [NatText(n)]) == SortArrays(items[n], rules, q + [NatText(n)])
      {
        SortBlind(items[n], rules, path, i, j, rest + [NatText(n)]);
        assert p + [NatText(n)] == path + [NatText(i)] + (rest + [NatText(n)]);
        assert q + [NatText(n)] == path + [NatText(j)] + (rest + [NatText(n)]);
      }
      assert !Sees(rules, path, i, j, rest);
      assert Children(items, rules, p) == Children(items, rules, q);
      SortArr(items, rules, p);
      SortArr(items, rules, q);
    case _ => SortObjects(v, rules, p, q);
  }

  lemma SortObjects(v: Value, rules: seq<SortRule>, p: seq<string>, q: seq<string>)
    requires !v.Arr?
    requires v.Obj? ==> forall k :: k in v.fields ==>
                          SortArrays(v.fields[k], rules, p + [k]) == SortArrays(v.fields[k], rules, q + [k])
    ensures SortArrays(v, rules, p) == SortArrays(v, rules, q)
  {
    ObjectSorted(v, rules, p);
    ObjectSorted(v, rules, q);
    hide SortArrays;
    if v.Obj? { assert SortArrays(v, rules, p).fields == SortArrays(v, rules, q).fields; }
  }

  lemma {:induction false} SortTwice(v: Value, rules: seq<SortRule>, path: seq<string>)
    requires IndexBlind(rules)
    ensures SortArrays(SortArrays(v, rules, path), rules, path) == SortArrays(v, rules, path)
  {
    hide SortArrays, SortBy, NatText, IndexBlind, By;
    match v
    case Obj(fields) =>
      forall k | k in fields
        ensures SortArrays(SortArrays(fields[k], rules, path + [k]), rules, path + [k])
             == SortArrays(fields[k], rules, path + [k])
      {
        SortTwice(fields[k], rules, path + [k]);
      }
      ObjectTwice(v, rules, path);
    case Arr(items) =>
      var cs, how := Children(items, rules, path), SortBy(rules, path);
      var r := By(cs, how);
      SortArr(items, rules, path);
      SortArr(r, rules, path);
      ByTwice(cs, how);
      forall i | 0 <= i < |r| ensures SortArrays(r[i], rules, path + [NatText(i)]) == r[i] {
        var j := FoundAt(cs, how, i);
        SortTwice(items[j], rules, path + [NatText(i)]);
        if how != None {
          SortBlind(items[j], rules, path, i, j, []);
          assert path + [NatText(i)] + [] == path + [NatText(i)] && path + [NatText(j)] + [] == path + [NatText(j)];
        }
      }
      assert Children(r, rules, path) == r;
    case _ => ObjectTwice(v, rules, path);
  }

  lemma ObjectTwice(v: Value, rules: seq<SortRule>, path: seq<string>)
    requires !v.Arr?
    requires v.Obj? ==> forall k :: k in v.fields ==>
                          SortArrays(SortArrays(v.fields[k], rules, path + [k]), rules, path + [k])
                            == SortArrays(v.fields[k], rules, path + [k])
    ensures SortArrays(SortArrays(v, rules, path), rules, path) == SortArrays(v, rules, path)
  {
    hide SortItems, NatText;
    ObjectSorted(v, rules, path);
    if v.Obj? {
      var w := SortArrays(v, rules, path);
      ObjectSorted(w, rules, path);
      hide SortArrays;
      assert SortArrays(w, rules, path).fields == w.fields;
    }
  }

  lemma ObjectSorted(v: Value, rules: seq<SortRule>, path: seq<string>)
    requires !v.Arr?
    ensures var w := SortArrays(v, rules, path);
            if v.Obj? then
              w.Obj? && w.fields.Keys == v.fields.Keys
              && forall k :: k in v.fields ==> w.fields[k] == SortArrays(v.fields[k], rules, path + [k])
            else w == v
  {
    hide SortItems, NatText;
  }

  // Where a sorted element came from; without a rule, it has not moved.
  lemma FoundAt(cs: seq<Value>, how: Option<string>, i: nat) returns (j: nat)
    requires i < |By(cs, how)|
    ensures j < |cs| && cs[j] == By(cs, how)[i] && (how == None ==> j == i)
  {
    if how == None {
      j := i;
    } else {
      ByTwice(cs, how);
      var x := By(cs, how)[i];
      assert x in multiset(By(cs, how)) && x in multiset(cs);
      j :| 0 <= j < |cs| && cs[j] == x;
    }
  }

  // ----- rules that see an index ----------------------------------------------------------------

  // A value at the end of a path of members.
  function Wrap(path: seq<string>, v: Value): Value {
    if path == [] then v else Obj(map[path[0] := Wrap(path[1..], v)])
  }

  lemma {:induction false} WrapInjective(path: seq<string>, v: Value, w: Value)
    ensures Wrap(path, v) == Wrap(path, w) <==> v == w
  {
    if path != [] {
      WrapInjective(path[1..], v, w);
      var m, n := map[path[0] := Wrap(path[1..], v)], map[path[0] := Wrap(path[1..], w)];
      assert m == n <==> m[path[0]] == n[path[0]];
    }
  }

  lemma {:induction false} SortWrap(rest: seq<string>, v: Value, rules: seq<SortRule>, path: seq<string>)
    ensures SortArrays(Wrap(rest, v), rules, path) == Wrap(rest, SortArrays(v, rules, path + rest))
  {
    if rest == [] {
      assert path + rest == path;
    } else {
      SortWrap(rest[1..], v, rules, path + [rest[0]]);
      assert path + rest == path + [rest[0]] + rest[1..];
      var w := SortArrays(Wrap(rest, v), rules, path);
      assert w.fields == map[rest[0] := SortArrays(Wrap(rest[1..], v), rules, path + [rest[0]])];
    }
  }

  ghost predicate Scalar(v: Value) { !v.Obj? && !v.Arr? }

  // A value without arrays at the first two levels.
  ghost predicate Flat(v: Value) { !v.Arr? && (v.Obj? ==> forall k :: k in v.fields ==> Scalar(v.fields[k])) }

  lemma SortFlat(v: Value, rules: seq<SortRule>, path: seq<string>)
    requires Flat(v)
    ensures SortArrays(v, rules, path) == v
  {
    if v.Obj? { assert SortArrays(v, rules, path).fields == v.fields; }
  }

  lemma TwoSorted(x: Value, y: Value, key: Value -> string)
    ensures StableSort([x, y], key) == if Le(key(x), key(y)) then [x, y] else [y, x]
  {
    assert [x, y][1..] == [y] && [y][1..] == [];
    assert StableSort([y], key) == Insert(y, [], key) == [y];
    assert [y] + Insert(x, [], key) == [y, x];
  }

  // Two elements in order the one way and out of order the other.
  ghost predicate Tells(x: Value, y: Value, a: Option<string>, b: string) {
    && Flat(x) && Flat(y)
    && (a != None ==> Le(SortKey(a.value, x), SortKey(a.value, y)))
    && !Le(SortKey(b, x), SortKey(b, y))
  }

  ghost predicate Starts(t: string, c: char) { t != [] && t[0] == c }

  lemma Texts()
    ensures Starts(Print(Bool(true)), 't') && Starts(Print(Bool(false)), 'f')
    ensures Starts(Print(Str("")), '"') && Starts(Print(Null), 'n')
    ensures forall m :: Starts(Print(Obj(m)), '{')
    ensures forall s :: Starts(Print(Arr(s)), '[')
  {
  }

  // Different ways to sort are told apart by two elements.
  lemma Telling(a: Option<string>, b: string) returns (x: Value, y: Value)
    requires a != Some(b) && b != CANONICAL && a != Some(CANONICAL)
    ensures Tells(x, y, a, b)
  {
    Texts();
    hide Print;
    var t, f := Bool(true), Bool(false);
    assert Le(Print(f), Print(t)) && !Le(Print(t), Print(f));
    if a == None {
      x, y := t, f;
    } else if a.value == "" {
      x, y := t, Obj(map[b := f]);
      assert y.fields[b] == f;
      assert Le(Print(t), Print(y));
    } else if b == "" {
      x, y := Obj(map[a.value := f]), t;
      assert x.fields[a.value] == f;
      assert !Le(Print(x), Print(t));
    } else {
      x, y := Obj(map[a.value := f, b := t]), Obj(map[a.value := t, b := f]);
      assert x.fields[a.value] == f && x.fields[b] == t && y.fields[a.value] == t && y.fields[b] == f;
    }
  }

  lemma PairBy(x: Value, y: Value, a: Option<string>, b: string)
    requires Tells(x, y, a, b)
    ensures By([x, y], a) == [x, y] && By([x, y], Some(b)) == [y, x] && x != y
  {
    TwoSorted(x, y, e => SortKey(b, e));
    if a != None { TwoSorted(x, y, e => SortKey(a.value, e)); }
  }

  lemma SortPair(x: Value, y: Value, rules: seq<SortRule>, path: seq<string>)
    requires Flat(x) && Flat(y)
    ensures SortArrays(Arr([x, y]), rules, path) == Arr(By([x, y], SortBy(rules, path)))
  {
    hide SortArrays, By, SortBy;
    SortArr([x, y], rules, path);
    SortFlat(x, rules, path + [NatText(0)]);
    SortFlat(y, rules, path + [NatText(1)]);
    assert Children([x, y], rules, path) == [x, y];
  }

  // ----- putting one element at another index -----------------------------------------------------

  // Sorts after every path that ends in an array.
  function After(key: string, rest: seq<string>): Value {
    if rest == [] || (key != "" && key != rest[0]) then Bool(true) else Wrap(rest, Bool(true))
  }

  lemma WrapText(path: seq<string>, v: Value, x: string)
    requires path != []
    ensures PrintThen(Wrap(path, v), x)
      == ("{" + QuoteThen(path[0], "") + ":") + PrintThen(Wrap(path[1..], v), "}" + x)
  {
    hide QuoteThen;
    var k, w := path[0], Wrap(path, v);
    assert w.fields.Keys == {k};
    OneKey(w, k, x);
    QuoteSplit(k, [':'] + PrintThen(w.fields[k], ['}'] + x));
  }

  lemma OneKey(w: Value, k: string, x: string)
    requires w.Obj? && w.fields.Keys == {k}
    ensures PrintThen(w, x) == ['{'] + QuoteThen(k, [':'] + PrintThen(w.fields[k], ['}'] + x))
  {
    hide QuoteThen;
    var ks := SortedKeys({k});
    assert |ks| == 1 && ks[0] in ks && ks == [k];
    assert FieldsThen(w, ks, x) == QuoteThen(k, [':'] + PrintThen(w.fields[k], ['}'] + x));
  }

  lemma {:induction false} WrapLess(path: seq<string>, items: seq<Value>, x: string)
    ensures Lt(PrintThen(Wrap(path, Arr(items)), x), PrintThen(Wrap(path, Bool(true)), x))
  {
    if path != [] {
      WrapLess(path[1..], items, "}" + x);
      WrapText(path, Arr(items), x);
      WrapText(path, Bool(true), x);
      LtCommonPrefix("{" + QuoteThen(path[0], "") + ":", PrintThen(Wrap(path[1..], Arr(items)), "}" + x),
                     PrintThen(Wrap(path[1..], Bool(true)), "}" + x));
    }
  }

  lemma PathText(rest: seq<string>, items: seq<Value>)
    ensures Lt(Print(Str("")), Print(Wrap(rest, Arr(items))))
    ensures Lt(Print(Wrap(rest, Arr(items))), Print(Wrap(rest, Bool(true))))
  {
    Texts();
    WrapLess(rest, items, "");
    hide PrintThen;
    if rest != [] { assert Wrap(rest, Arr(items)).Obj?; }
  }

  lemma KeyOrder(key: string, rest: seq<string>, items: seq<Value>)
    requires key != CANONICAL
    ensures Lt(SortKey(key, Str("")), SortKey(key, Wrap(rest, Arr(items))))
    ensures Lt(SortKey(key, Wrap(rest, Arr(items))), SortKey(key, After(key, rest)))
  {
    hide Print;
    if rest == [] || key == "" {
      PathText(rest, items);
    } else if key == rest[0] {
      PathText(rest[1..], items);
      assert Wrap(rest, Arr(items)).fields[key] == Wrap(rest[1..], Arr(items));
      assert After(key, rest).fields[key] == Wrap(rest[1..], Bool(true));
    } else {
      Texts();
      assert key !in Wrap(rest, Arr(items)).fields;
    }
  }

  // x among `before` elements l and `after` elements g.
  function Among(x: Value, l: Value, g: Value, before: nat, after: nat): seq<Value> {
    seq(before, _ => l) + [x] + seq(after, _ => g)
  }

  lemma AmongSorted(x: Value, l: Value, g: Value, before: nat, after: nat, key: Value -> string)
    requires Lt(key(l), key(x)) && Lt(key(x), key(g))
    ensures SortedBy(Among(x, l, g, before, after), key) && Injective(Among(x, l, g, before, after), key)
  {
    var s := Among(x, l, g, before, after);
    LtTransitive(key(l), key(x), key(g));
    LtIrreflexive(key(l));
    LtIrreflexive(key(x));
    LtIrreflexive(key(g));
    assert forall i :: 0 <= i < |s| ==> s[i] == if i < before then l else if i == before then x else g;
  }

  // The same elements with x at index a.
  function Placed(x: Value, l: Value, g: Value, a: nat, b: nat, after: nat): seq<Value>
    requires a <= b + after
  {
    var f := seq(b, _ => l) + seq(after, _ => g);
    f[..a] + [x] + f[a..]
  }

  lemma InsertedMultiset(f: seq<Value>, x: Value, a: nat)
    requires a <= |f|
    ensures multiset(f[..a] + [x] + f[a..]) == multiset(f) + multiset{x}
  {
    assert f[..a] + f[a..] == f;
  }

  lemma PlacedMoves(x: Value, l: Value, g: Value, a: nat, b: nat, after: nat, key: Value -> string)
    requires a <= b + after && Lt(key(l), key(x)) && Lt(key(x), key(g))
    ensures StableSort(Placed(x, l, g, a, b, after), key) == Among(x, l, g, b, after)
  {
    var f, s, t := seq(b, _ => l) + seq(after, _ => g), Placed(x, l, g, a, b, after), Among(x, l, g, b, after);
    AmongSorted(x, l, g, b, after, key);
    StableSortSpec(s, key);
    InsertedMultiset(f, x, a);
    InsertedMultiset(f, x, b);
    assert t == f[..b] + [x] + f[b..];
    hide Among, Placed, SortedBy, Injective, StableSort;
    SortedPermutationUnique(t, StableSort(s, key), key);
  }

  // An array whose first sorting takes its element from index a to index b, where it is
  // sorted differently the second time.
  lemma SeenMoves(rules: seq<SortRule>, path: seq<string>, a: nat, b: nat, rest: seq<string>)
    requires Sees(rules, path, a, b, rest) && SortBy(rules, path + [NatText(b)] + rest) != None
    ensures exists v :: SortArrays(SortArrays(v, rules, path), rules, path) != SortArrays(v, rules, path)
  {
    hide SortArrays, By, SortBy, NatText, Flat, Tells;
    var pa, pb := path + [NatText(a)], path + [NatText(b)];
    var ea, eb, key := SortBy(rules, pa + rest), SortBy(rules, pb + rest).value, SortBy(rules, path).value;
    NoCanonical(rules, pa + rest);
    NoCanonical(rules, pb + rest);
    var u, w := Telling(ea, eb);
    TellsFlat(u, w, ea, eb);
    PairBy(u, w, ea, eb);
    var x, y := Wrap(rest, Arr([u, w])), Wrap(rest, Arr([w, u]));
    SortPair(u, w, rules, pa + rest);
    SortPair(u, w, rules, pb + rest);
    SortWrap(rest, Arr([u, w]), rules, pa);
    SortWrap(rest, Arr([u, w]), rules, pb);
    WrapInjective(rest, Arr([u, w]), Arr([w, u]));
    assert [u, w][0] != [w, u][0];
    Moves(rules, path, a, b, key, rest, [u, w], x, y);
  }

  lemma NoCanonical(rules: seq<SortRule>, path: seq<string>)
    ensures SortBy(rules, path) != Some(CANONICAL)
  {
    assert "" != CANONICAL by { assert |CANONICAL| > 0; }
  }

  lemma TellsFlat(x: Value, y: Value, a: Option<string>, b: string)
    requires Tells(x, y, a, b)
    ensures Flat(x) && Flat(y)
  {
  }

  lemma Unsorted(key: string, rest: seq<string>, rules: seq<SortRule>, path: seq<string>)
    ensures SortArrays(After(key, rest), rules, path) == After(key, rest)
    ensures SortArrays(Str(""), rules, path) == Str("")
  {
    SortWrap(rest, Bool(true), rules, path);
  }

  lemma FirstPass(rules: seq<SortRule>, path: seq<string>, a: nat, b: nat, after: nat, key: string, rest: seq<string>,
                  x: Value)
    requires SortBy(rules, path) == Some(key) && a <= b + after
    requires Lt(SortKey(key, Str("")), SortKey(key, x)) && Lt(SortKey(key, x), SortKey(key, After(key, rest)))
    requires SortArrays(x, rules, path + [NatText(a)]) == x
    ensures SortArrays(Arr(Placed(x, Str(""), After(key, rest), a, b, after)), rules, path)
      == Arr(Among(x, Str(""), After(key, rest), b, after))
  {
    hide SortArrays, SortBy, NatText, After, SortKey;
    var l, g := Str(""), After(key, rest);
    var s := Placed(x, l, g, a, b, after);
    PlacedMoves(x, l, g, a, b, after, e => SortKey(key, e));
    SortArr(s, rules, path);
    forall i | 0 <= i < |s| ensures SortArrays(s[i], rules, path + [NatText(i)]) == s[i] {
      Unsorted(key, rest, rules, path + [NatText(i)]);
    }
    assert Children(s, rules, path) == s;
  }

  lemma SecondPass(rules: seq<SortRule>, path: seq<string>, b: nat, after: nat, key: string, rest: seq<string>,
                   x: Value, y: Value)
    requires SortBy(rules, path) == Some(key) && x != Str("") && x != After(key, rest) && y != x
    requires SortArrays(x, rules, path + [NatText(b)]) == y
    ensures SortArrays(Arr(Among(x, Str(""), After(key, rest), b, after)), rules, path)
      != Arr(Among(x, Str(""), After(key, rest), b, after))
  {
    hide SortArrays, SortBy, NatText, After, SortKey, By;
    var t := Among(x, Str(""), After(key, rest), b, after);
    var c := Children(t, rules, path);
    SortArr(t, rules, path);
    forall i | 0 <= i < |t| ensures c[i] != x {
      Unsorted(key, rest, rules, path + [NatText(i)]);
    }
    ByTwice(c, Some(key));
    assert t[b] == x;
    assert x !in c && x !in multiset(c) && x in multiset(t);
  }

  lemma Moves(rules: seq<SortRule>, path: seq<string>, a: nat, b: nat, key: string, rest: seq<string>,
              items: seq<Value>, x: Value, y: Value)
    requires SortBy(rules, path) == Some(key) && x == Wrap(rest, Arr(items)) && y != x
    requires SortArrays(x, rules, path + [NatText(a)]) == x && SortArrays(x, rules, path + [NatText(b)]) == y
    ensures exists v :: SortArrays(SortArrays(v, rules, path), rules, path) != SortArrays(v, rules, path)
  {
    hide SortArrays, SortBy, NatText, Wrap, After, SortKey, Placed, Among;
    var after := if b < a then a - b else 0;
    var v := Arr(Placed(x, Str(""), After(key, rest), a, b, after));
    NoCanonical(rules, path);
    KeyOrder(key, rest, items);
    LtIrreflexive(SortKey(key, x));
    FirstPass(rules, path, a, b, after, key, rest, x);
    SecondPass(rules, path, b, after, key, rest, x, y);
    assert SortArrays(SortArrays(v, rules, path), rules, path) != SortArrays(v, rules, path);
  }

  // Sorting twice is sorting once, for every body, exactly if no rule sees an index below an
  // array that is sorted.
  lemma SortIdempotent(rules: seq<SortRule>)
    ensures (forall v :: SortArrays(SortArrays(v, rules, []), rules, []) == SortArrays(v, rules, []))
      <==> IndexBlind(rules)
  {
    hide SortArrays;
    if IndexBlind(rules) {
      forall v ensures SortArrays(SortArrays(v, rules, []), rules, []) == SortArrays(v, rules, []) {
        SortTwice(v, rules, []);
      }
    } else {
      var path, i: nat, j: nat, rest :| Sees(rules, path, i, j, rest);
      SeenSomewhere(rules, path, i, j, rest);
    }
  }

  lemma SeenSomewhere(rules: seq<SortRule>, path: seq<string>, i: nat, j: nat, rest: seq<string>)
    requires Sees(rules, path, i, j, rest)
    ensures exists v :: SortArrays(SortArrays(v, rules, []), rules, []) != SortArrays(v, rules, [])
  {
    hide SortArrays, SortBy, NatText;
    if SortBy(rules, path + [NatText(j)] + rest) != None {
      SeenMoves(rules, path, i, j, rest);
    } else {
      SeenMoves(rules, path, j, i, rest);
    }
    var v :| SortArrays(SortArrays(v, rules, path), rules, path) != SortArrays(v, rules, path);
    var w, u := SortArrays(v, rules, path), Wrap(path, v);
    assert [] + path == path;
    SortWrap(path, v, rules, []);
    SortWrap(path, w, rules, []);
    WrapInjective(path, SortArrays(w, rules, path), w);
    assert SortArrays(SortArrays(u, rules, []), rules, []) != SortArrays(u, rules, []);
  }

  // ----- which rules these are -------------------------------------------------------------------

  // Rules are blind to indices when no segment of their paths is a number.
  ghost predicate NoNumber(pat: seq<string>) { forall s, n: nat :: s in pat ==> s != NatText(n) }

  // The first segment of a pattern takes the first k of a path.
  ghost predicate TakesFirst(pat: seq<string>, path: seq<string>, k: nat)
    requires pat != []
  {
    k <= |path| && Match(pat[1..], path[k..]) && (pat[0] == "**" || (k == 1 && (pat[0] == "*" || pat[0] == path[0])))
  }

  lemma MatchStep(pat: seq<string>, path: seq<string>)
    requires pat != []
    ensures Match(pat, path) <==> exists k: nat :: TakesFirst(pat, path, k)
  {
    if Match(pat, path) {
      var k: nat := 1;
      if pat[0] == "**" { k :| 0 <= k <= |path| && Match(pat[1..], path[k..]); }
      assert TakesFirst(pat, path, k);
    }
  }

  lemma {:induction false} MatchBlind(pat: seq<string>, path: seq<string>, i: nat, j: nat, rest: seq<string>)
    requires NoNumber(pat) && Match(pat, path + [NatText(i)] + rest)
    ensures Match(pat, path + [NatText(j)] + rest)
    decreases |pat|
  {
    if pat != [] {
      hide Match, NatText;
      var p, q := path + [NatText(i)] + rest, path + [NatText(j)] + rest;
      assert pat[0] in pat && forall s :: s in pat[1..] ==> s in pat;
      MatchStep(pat, p);
      MatchStep(pat, q);
      var k: nat :| TakesFirst(pat, p, k);
      if k <= |path| {
        assert p[k..] == path[k..] + [NatText(i)] + rest && q[k..] == path[k..] + [NatText(j)] + rest;
        MatchBlind(pat[1..], path[k..], i, j, rest);
      } else {
        assert p[k..] == rest[k - |path| - 1..] == q[k..];
      }
      assert path != [] ==> p[0] == path[0] == q[0];
      assert TakesFirst(pat, q, k);
    }
  }

  lemma {:induction false} NoNumbersBlind(rules: seq<SortRule>)
    requires forall rule :: rule in rules ==> NoNumber(Split(rule.path))
    ensures IndexBlind(rules)
  {
    forall path: seq<string>, i: nat, j: nat, rest: seq<string> ensures !Sees(rules, path, i, j, rest) {
      RulesBlind(rules, path, i, j, rest);
    }
  }

  lemma {:induction false} RulesBlind(rules: seq<SortRule>, path: seq<string>, i: nat, j: nat, rest: seq<string>)
    requires forall rule :: rule in rules ==> NoNumber(Split(rule.path))
    ensures RuleFor(rules, path + [NatText(i)] + rest) == RuleFor(rules, path + [NatText(j)] + rest)
  {
    if rules != [] {
      var pat := Split(rules[0].path);
      assert rules[0] in rules && forall rule :: rule in rules[1..] ==> rule in rules;
      if Match(pat, path + [NatText(i)] + rest) { MatchBlind(pat, path, i, j, rest); }
      if Match(pat, path + [NatText(j)] + rest) { MatchBlind(pat, path, j, i, rest); }
      RulesBlind(rules[1..], path, i, j, rest);
    }
  }

  const BY_INDEX := [SortRule("a.0", CANONICAL), SortRule("a", CANONICAL)]

  lemma TwoRules(r: SortRule, q: SortRule, path: seq<string>)
    ensures RuleFor([r, q], path)
      == if PathMatches(r.path, path) then Some(r) else if PathMatches(q.path, path) then Some(q) else None
  {
    hide PathMatches;
    assert [r, q][1..] == [q] && [q][1..] == [];
    assert RuleFor([q], path) == if PathMatches(q.path, path) then Some(q) else RuleFor([], path);
  }

  lemma IndexRules(path: seq<string>)
    ensures RuleFor(BY_INDEX, path)
      == if path == ["a", NatText(0)] then Some(BY_INDEX[0]) else if path == ["a"] then Some(BY_INDEX[1]) else None
  {
    hide PathMatches, RuleFor;
    assert NatText(0) == "0";
    assert Join(["0"]) == "0" && Join(["a", "0"]) == "a.0" && Join(["a"]) == "a";
    LiteralPattern(["a", "0"], path);
    LiteralPattern(["a"], path);
    TwoRules(BY_INDEX[0], BY_INDEX[1], path);
  }

  // Sorting `a` and, in it, the element 0 is not idempotent; the latter alone is.
  lemma IndexRule()
    ensures !IndexBlind(BY_INDEX) && IndexBlind(BY_INDEX[..1])
  {
    hide RuleFor, NatText;
    var p0, p1 := ["a"] + [NatText(0)] + [], ["a"] + [NatText(1)] + [];
    assert p0 == ["a", NatText(0)] && p1 == ["a", NatText(1)];
    if NatText(0) == NatText(1) { NatTextInjective(0, 1); }
    assert p1[1] != p0[1] && |p1| == 2;
    IndexRules(["a"]);
    IndexRules(p0);
    IndexRules(p1);
    assert Sees(BY_INDEX, ["a"], 0, 1, []);
    forall path: seq<string>, i: nat, j: nat, rest: seq<string> ensures !Sees(BY_INDEX[..1], path, i, j, rest) {
      LoneRule(path);
      LoneRule(path + [NatText(i)] + rest);
      LoneRule(path + [NatText(j)] + rest);
      if path == ["a", NatText(0)] { assert |path + [NatText(i)] + rest| > 2 && |path + [NatText(j)] + rest| > 2; }
    }
  }

  lemma LoneRule(path: seq<string>)
    ensures RuleFor(BY_INDEX[..1], path) == if path == ["a", NatText(0)] then Some(BY_INDEX[0]) else None
  {
    hide PathMatches;
    assert NatText(0) == "0" && Join(["0"]) == "0" && Join(["a", "0"]) == "a.0";
    LiteralPattern(["a", "0"], path);
    assert BY_INDEX[..1] == [BY_INDEX[0]] && [BY_INDEX[0]][1..] == [];
    assert RuleFor([], path) == None;
  }
}
