// Array sort rules, and the equivalence that sorting decides.
module Arrays {
  import opened Strings
  import opened Values
  import opened Sorting
  import opened Glob
  import opened Optional
  import opened Trees

  datatype SortRule = SortRule(path: string, key: string)

  const CANONICAL := "$canonical"

  // The first rule whose path matches decides.
  function RuleFor(rules: seq<SortRule>, path: seq<string>): Option<SortRule> {
    if rules == [] then None
    else if PathMatches(rules[0].path, path) then Some(rules[0])
    else RuleFor(rules[1..], path)
  }

  function SortKey(field: string, e: Value): string {
    if field != "" && field != CANONICAL && e.Obj? then Print(if field in e.fields then e.fields[field] else Null)
    else Print(e)
  }

  function SortItems(items: seq<Value>, rules: seq<SortRule>, path: seq<string>): seq<Value> {
    match RuleFor(rules, path)
    case None => items
    case Some(rule) => StableSort(items, e => SortKey(rule.key, e))
  }

  function SortArrays(v: Value, rules: seq<SortRule>, path: seq<string>): Value {
    match v
    case Obj(fields) => Obj(map k | k in fields :: SortArrays(fields[k], rules, path + [k]))
    case Arr(items) =>
      Arr(SortItems(seq(|items|, i requires 0 <= i < |items| => SortArrays(items[i], rules, path + [NatText(i)])),
                    rules, path))
    case _ => v
  }

  // ----- what the rules say ---------------------------------------------------------

  // Rule i is the first that matches.
  ghost predicate Decides(rules: seq<SortRule>, path: seq<string>, i: nat) {
    i < |rules| && PathMatches(rules[i].path, path) && forall j :: 0 <= j < i ==> !PathMatches(rules[j].path, path)
  }

  lemma {:induction false} RuleForExact(rules: seq<SortRule>, path: seq<string>)
    ensures RuleFor(rules, path) == None <==> forall r :: r in rules ==> !PathMatches(r.path, path)
    ensures forall i: nat :: Decides(rules, path, i) ==> RuleFor(rules, path) == Some(rules[i])
    ensures RuleFor(rules, path) != None ==> exists i: nat :: Decides(rules, path, i)
  {
    hide PathMatches;
    if rules != [] {
      RuleForExact(rules[1..], path);
      assert forall r :: r in rules <==> r == rules[0] || r in rules[1..];
      forall i: nat | Decides(rules, path, i) ensures RuleFor(rules, path) == Some(rules[i]) {
        if i > 0 { assert Decides(rules[1..], path, i - 1); }
      }
      if PathMatches(rules[0].path, path) {
        assert Decides(rules, path, 0);
      } else if i: nat :| Decides(rules[1..], path, i) {
        assert Decides(rules, path, i + 1);
      }
    }
  }

  // What an element is sorted by: itself, or for a rule with a member, that member of an
  // object, null if it has none.
  ghost function Rank(field: string, e: Value): Value {
    if field in {"", "$canonical"} || !e.Obj? then e else if field in e.fields then e.fields[field] else Null
  }

  // The elements with one rank, in order.
  ghost function Ranked(xs: seq<Value>, field: string, w: Value): seq<Value> {
    if xs == [] then [] else (if Rank(field, xs[0]) == w then [xs[0]] else []) + Ranked(xs[1..], field, w)
  }

  // The elements of every rank stand in the same order.
  ghost predicate SameRanking(xs: seq<Value>, ys: seq<Value>, field: string) {
    forall w :: Ranked(xs, field, w) == Ranked(ys, field, w)
  }

  lemma SortKeyIs(field: string, e: Value)
    ensures SortKey(field, e) == Print(Rank(field, e))
  {
  }

  // A key that gives the texts of the ranks.
  ghost predicate KeyOf(key: Value -> string, field: string) { forall e :: key(e) == SortKey(field, e) }

  lemma {:induction false} RankedIs(xs: seq<Value>, field: string, key: Value -> string, w: Value)
    requires KeyOf(key, field)
    ensures Ranked(xs, field, w) == WithKey(xs, key, Print(w))
  {
    if xs != [] {
      hide SortKey, Rank, Print;
      RankedIs(xs[1..], field, key, w);
      SortKeyIs(field, xs[0]);
      if Print(Rank(field, xs[0])) == Print(w) { PrintInjective(Rank(field, xs[0]), w); }
    }
  }

  lemma {:induction false} NoRank(xs: seq<Value>, field: string, key: Value -> string, c: string)
    requires KeyOf(key, field) && forall w :: Print(w) != c
    ensures WithKey(xs, key, c) == []
  {
    if xs != [] {
      NoRank(xs[1..], field, key, c);
      SortKeyIs(field, xs[0]);
    }
  }

  // The keys of a sort tell apart just what the ranks do.
  lemma SameRanks(xs: seq<Value>, ys: seq<Value>, field: string, key: Value -> string)
    requires KeyOf(key, field)
    ensures SameClasses(xs, ys, key) <==> SameRanking(xs, ys, field)
  {
    hide Print, SortKey, Rank, KeyOf, Ranked;
    forall w
      ensures Ranked(xs, field, w) == WithKey(xs, key, Print(w))
      ensures Ranked(ys, field, w) == WithKey(ys, key, Print(w))
    {
      RankedIs(xs, field, key, w);
      RankedIs(ys, field, key, w);
    }
    if SameClasses(xs, ys, key) {
      forall w ensures Ranked(xs, field, w) == Ranked(ys, field, w) {
        assert WithKey(xs, key, Print(w)) == WithKey(ys, key, Print(w));
      }
    }
    if SameRanking(xs, ys, field) {
      forall c ensures WithKey(xs, key, c) == WithKey(ys, key, c) {
        if w :| Print(w) == c {
          assert Ranked(xs, field, w) == Ranked(ys, field, w);
        } else {
          NoRank(xs, field, key, c);
          NoRank(ys, field, key, c);
        }
      }
      assert SameClasses(xs, ys, key);
    }
  }

  lemma SortedItems(xs: seq<Value>, rules: seq<SortRule>, path: seq<string>)
    returns (r: seq<Value>, key: Value -> string)
    requires RuleFor(rules, path) != None
    ensures KeyOf(key, RuleFor(rules, path).value.key) && SortItems(xs, rules, path) == r == StableSort(xs, key)
  {
    var rule := RuleFor(rules, path).value;
    key := e => SortKey(rule.key, e);
    r := SortItems(xs, rules, path);
    var own := StableSort(xs, e => SortKey(rule.key, e));
    assert r == own;
    SameKeySameSort(xs, e => SortKey(rule.key, e), key);
  }

  // Without a rule an array stays as it is. Otherwise its elements come in the order of the
  // texts of their ranks, those of one rank in the order they had.
  lemma SortItemsOrder(xs: seq<Value>, rules: seq<SortRule>, path: seq<string>)
    ensures var r := SortItems(xs, rules, path);
            match RuleFor(rules, path)
            case None => r == xs
            case Some(rule) =>
              && multiset(r) == multiset(xs)
              && (forall i, j :: 0 <= i < j < |r| ==> Le(Print(Rank(rule.key, r[i])), Print(Rank(rule.key, r[j]))))
              && SameRanking(r, xs, rule.key)
  {
    hide Print, SortKey, Rank;
    match RuleFor(rules, path)
    case None =>
    case Some(rule) =>
      var r, key := SortedItems(xs, rules, path);
      StableSortSpec(xs, key);
      SameRanks(r, xs, rule.key, key);
      forall i, j | 0 <= i < j < |r| ensures Le(Print(Rank(rule.key, r[i])), Print(Rank(rule.key, r[j]))) {
        SortKeyIs(rule.key, r[i]);
        SortKeyIs(rule.key, r[j]);
        assert Le(key(r[i]), key(r[j]));
      }
  }

  // Two arrays with sorted children come out equal just when: they are equal and no rule
  // applies; or the elements of every rank stand in the same order. For a rule by whole
  // element they then hold the same elements; so they do for a rule by a member that has
  // another value in each of them. A member that does not identify elements leaves their
  // order significant.
  lemma SortItemsExact(xs: seq<Value>, ys: seq<Value>, rules: seq<SortRule>, path: seq<string>)
    ensures var same := SortItems(xs, rules, path) == SortItems(ys, rules, path);
            match RuleFor(rules, path)
            case None => same <==> xs == ys
            case Some(rule) =>
              && (same <==> SameRanking(xs, ys, rule.key))
              && (Identifies(rule.key, xs) ==> (same <==> multiset(xs) == multiset(ys)))
    ensures forall key :: key in {"", "$canonical"} ==> Identifies(key, xs)
  {
    hide Print, SortKey;
    match RuleFor(rules, path)
    case None =>
    case Some(rule) =>
      var r, key := SortedItems(xs, rules, path);
      var q, other := SortedItems(ys, rules, path);
      SameKeySameSort(ys, other, key);
      StableSortEqual(xs, ys, key);
      SameRanks(xs, ys, rule.key, key);
      if Identifies(rule.key, xs) {
        forall x, y | x in xs && y in xs && key(x) == key(y) ensures x == y {
          SortKeyIs(rule.key, x);
          SortKeyIs(rule.key, y);
          PrintInjective(Rank(rule.key, x), Rank(rule.key, y));
        }
        hide Rank;
        StableSortMultiset(xs, ys, key);
      }
  }

  // Different elements have different ranks.
  ghost predicate Identifies(field: string, xs: seq<Value>) {
    forall x, y :: x in xs && y in xs && Rank(field, x) == Rank(field, y) ==> x == y
  }

  // The elements of an array, each sorted under its index.
  ghost function Children(items: seq<Value>, rules: seq<SortRule>, path: seq<string>): seq<Value> {
    seq(|items|, i requires 0 <= i < |items| => SortArrays(items[i], rules, path + [NatText(i)]))
  }

  // Sorting reaches every value under its path: a node below members only is sorted there; an
  // array then holds its elements, sorted under their index in it before, in the order above.
  lemma {:induction false} SortReaches(v: Value, rules: seq<SortRule>, path: seq<string>, addr: seq<Step>)
    requires forall i :: 0 <= i < |addr| ==> addr[i].Key?
    ensures Lookup(SortArrays(v, rules, path), addr)
      == match Lookup(v, addr)
         case None => None
         case Some(w) => Some(SortArrays(w, rules, path + Names(addr)))
    ensures v.Arr? ==> SortArrays(v, rules, path).Arr?
                       && SortArrays(v, rules, path).items == SortItems(Children(v.items, rules, path), rules, path)
    ensures !v.Arr? && !v.Obj? ==> SortArrays(v, rules, path) == v
    decreases |addr|
  {
    hide SortItems, RuleFor;
    if v.Arr? {
      assert seq(|v.items|, i requires 0 <= i < |v.items| => SortArrays(v.items[i], rules, path + [NatText(i)]))
          == Children(v.items, rules, path);
    }
    if addr == [] {
      assert path + Names(addr) == path;
    } else {
      var k := addr[0].key;
      assert addr == [addr[0]] + addr[1..];
      NamesCons(addr[0], addr[1..]);
      assert path + [k] + Names(addr[1..]) == path + Names(addr);
      match Child(v, addr[0]) {
        case None =>
        case Some(c) => SortReaches(c, rules, path + [k], addr[1..]);
      }
    }
  }

  // ----- recursive permutation equivalence ------------------------------------------

  // Equal up to the order of array elements, at every level independently.
  ghost predicate PermEq(a: Value, b: Value)
    decreases a, 1, 0
  {
    match (a, b)
    case (Obj(m), Obj(n)) => m.Keys == n.Keys && forall k :: k in m ==> PermEq(m[k], n[k])
    case (Arr(_), Arr(ys)) => PairsOff(a, 0, ys)
    case _ => a == b
  }

  // The elements of array a from index i on pair off, each with an equivalent one of ys.
  ghost predicate PairsOff(a: Value, i: nat, ys: seq<Value>)
    requires a.Arr? && i <= |a.items|
    decreases a, 0, |a.items| - i
  {
    if i == |a.items| then ys == []
    else exists j :: 0 <= j < |ys| && PermEq(a.items[i], ys[j]) && PairsOff(a, i + 1, ys[..j] + ys[j + 1..])
  }

  const EVERYWHERE := [SortRule("**", CANONICAL)]

  // Sorting every array by whole element, bottom up.
  function Canon(v: Value): Value {
    match v
    case Obj(fields) => Obj(map k | k in fields :: Canon(fields[k]))
    case Arr(items) => Arr(StableSort(seq(|items|, i requires 0 <= i < |items| => Canon(items[i])), Print))
    case _ => v
  }

  lemma EverywhereRule(path: seq<string>)
    ensures RuleFor(EVERYWHERE, path) == Some(EVERYWHERE[0])
  {
    SplitToken("**");
    AnyMatches(path);
  }

  lemma EverywhereItems(v: Value, path: seq<string>)
    requires v.Arr?
    requires forall i :: 0 <= i < |v.items| ==>
               SortArrays(v.items[i], EVERYWHERE, path + [NatText(i)]) == Canon(v.items[i])
    ensures SortArrays(v, EVERYWHERE, path) == Canon(v)
  {
    var items := v.items;
    var sorted := seq(|items|, i requires 0 <= i < |items| => SortArrays(items[i], EVERYWHERE, path + [NatText(i)]));
    var canons := seq(|items|, i requires 0 <= i < |items| => Canon(items[i]));
    assert sorted == canons;
    EverywhereRule(path);
    SameKeySameSort(sorted, e => SortKey(CANONICAL, e), Print);
  }

  // The single rule `**` by `$canonical` sorts every array, the root included.
  lemma {:induction false} EverywhereIsCanon(v: Value, path: seq<string>)
    ensures SortArrays(v, EVERYWHERE, path) == Canon(v)
  {
    match v
    case Obj(fields) =>
      forall k | k in fields ensures SortArrays(fields[k], EVERYWHERE, path + [k]) == Canon(fields[k]) {
        EverywhereIsCanon(fields[k], path + [k]);
      }
    case Arr(items) =>
      forall i | 0 <= i < |items| ensures SortArrays(items[i], EVERYWHERE, path + [NatText(i)]) == Canon(items[i]) {
        EverywhereIsCanon(items[i], path + [NatText(i)]);
      }
      EverywhereItems(v, path);
    case _ =>
  }

  ghost function Canons(xs: seq<Value>): seq<Value> { seq(|xs|, i requires 0 <= i < |xs| => Canon(xs[i])) }

  lemma CanonsWithout(xs: seq<Value>, j: nat)
    requires j < |xs|
    ensures Canons(xs[..j] + xs[j + 1..]) == Canons(xs)[..j] + Canons(xs)[j + 1..]
  {
    hide Canon;
  }

  // The bottom-up sort decides recursive permutation equivalence.
  lemma {:induction false} CanonDecides(a: Value, b: Value)
    ensures PermEq(a, b) <==> Canon(a) == Canon(b)
    decreases a, 1, 0
  {
    match (a, b)
    case (Obj(m), Obj(n)) =>
      forall k | k in m && k in n ensures PermEq(m[k], n[k]) <==> Canon(m[k]) == Canon(n[k]) {
        CanonDecides(m[k], n[k]);
      }
      var ca, cb := Canon(a).fields, Canon(b).fields;
      assert ca.Keys == m.Keys && cb.Keys == n.Keys;
      if PermEq(a, b) { assert ca == cb; }
      if Canon(a) == Canon(b) {
        forall k | k in m ensures PermEq(m[k], n[k]) { assert k in n.Keys && ca[k] == cb[k]; }
      }
    case (Arr(xs), Arr(ys)) =>
      PairsOffDecides(a, 0, ys);
      assert xs[0..] == xs;
      forall x, y | x in Canons(xs) && y in Canons(xs) && Print(x) == Print(y) ensures x == y { PrintInjective(x, y); }
      StableSortMultiset(Canons(xs), Canons(ys), Print);
    case _ =>
  }

  lemma {:induction false} PairsOffDecides(a: Value, i: nat, ys: seq<Value>)
    requires a.Arr? && i <= |a.items|
    ensures PairsOff(a, i, ys) <==> multiset(Canons(a.items[i..])) == multiset(Canons(ys))
    decreases a, 0, |a.items| - i
  {
    if i == |a.items| {
      assert |multiset(Canons(ys))| == |ys|;
    } else {
      forall j | 0 <= j < |ys|
        ensures (PermEq(a.items[i], ys[j]) && PairsOff(a, i + 1, ys[..j] + ys[j + 1..])) <==> Takes(a.items, i, ys, j)
      {
        CanonDecides(a.items[i], ys[j]);
        PairsOffDecides(a, i + 1, ys[..j] + ys[j + 1..]);
      }
      TakesDecides(a.items, i, ys);
    }
  }

  // The element i of xs goes with ys[j], and the later ones with the rest of ys.
  ghost predicate Takes(xs: seq<Value>, i: nat, ys: seq<Value>, j: nat)
    requires i < |xs| && j < |ys|
  {
    Canon(xs[i]) == Canon(ys[j]) && multiset(Canons(xs[i + 1..])) == multiset(Canons(ys[..j] + ys[j + 1..]))
  }

  lemma TakesDecides(xs: seq<Value>, i: nat, ys: seq<Value>)
    requires i < |xs|
    ensures (exists j :: 0 <= j < |ys| && Takes(xs, i, ys, j)) <==> multiset(Canons(xs[i..])) == multiset(Canons(ys))
  {
    hide Canon;
    var c, rest, zs := Canon(xs[i]), Canons(xs[i + 1..]), Canons(ys);
    assert Canons(xs[i..]) == [c] + rest;
    forall j | 0 <= j < |ys| ensures Takes(xs, i, ys, j) <==> Leaves(c, rest, zs, j) { CanonsWithout(ys, j); }
    hide Takes, Canons;
    LeavesDecides(c, rest, zs);
    if j :| 0 <= j < |ys| && Takes(xs, i, ys, j) { assert Leaves(c, rest, zs, j); }
    if j :| 0 <= j < |zs| && Leaves(c, rest, zs, j) { assert Takes(xs, i, ys, j); }
  }

  // c is element j of zs, and the others are those of rest.
  ghost predicate Leaves<T>(c: T, rest: seq<T>, zs: seq<T>, j: int) {
    0 <= j < |zs| && zs[j] == c && multiset(rest) == multiset(zs[..j] + zs[j + 1..])
  }

  lemma LeavesDecides<T>(c: T, rest: seq<T>, zs: seq<T>)
    ensures (exists j :: Leaves(c, rest, zs, j)) <==> multiset([c] + rest) == multiset(zs)
  {
    assert multiset([c] + rest) == multiset{c} + multiset(rest);
    if j :| Leaves(c, rest, zs, j) { MultisetWithout(zs, j); }
    if multiset([c] + rest) == multiset(zs) {
      assert c in multiset(zs);
      var j :| 0 <= j < |zs| && zs[j] == c;
      MultisetWithout(zs, j);
      assert multiset(rest) == multiset(zs) - multiset{c};
      assert Leaves(c, rest, zs, j);
    }
  }
}
