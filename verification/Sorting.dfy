// sort.SliceStable and sort.Slice with a string sort key. The engine's verdicts rest
// on what a sort result depends on: for a stable sort, the subsequence of every key
// class; for any sort by an injective key, the multiset alone.
module Sorting {
  import opened Strings

  ghost predicate SortedBy<T>(s: seq<T>, key: T -> string) {
    forall i, j :: 0 <= i < j < |s| ==> Le(key(s[i]), key(s[j]))
  }

  // No two different elements of s share a key.
  ghost predicate Injective<T>(s: seq<T>, key: T -> string) {
    forall x, y :: x in s && y in s && key(x) == key(y) ==> x == y
  }

  function Insert<T>(x: T, s: seq<T>, key: T -> string): (r: seq<T>) {
    if s == [] || Le(key(x), key(s[0])) then [x] + s else [s[0]] + Insert(x, s[1..], key)
  }

  function StableSort<T>(s: seq<T>, key: T -> string): (r: seq<T>) {
    if s == [] then [] else Insert(s[0], StableSort(s[1..], key), key)
  }

  // The elements whose key is c, in order.
  ghost function WithKey<T>(s: seq<T>, key: T -> string, c: string): seq<T> {
    if s == [] then []
    else (if key(s[0]) == c then [s[0]] else []) + WithKey(s[1..], key, c)
  }

  // Equal key classes, in equal order.
  ghost predicate SameClasses<T>(a: seq<T>, b: seq<T>, key: T -> string) {
    forall c :: WithKey(a, key, c) == WithKey(b, key, c)
  }

  lemma {:induction false} InsertMultiset<T>(x: T, s: seq<T>, key: T -> string)
    ensures multiset(Insert(x, s, key)) == multiset{x} + multiset(s)
  {
    if s != [] && !Le(key(x), key(s[0])) {
      InsertMultiset(x, s[1..], key);
      assert s == [s[0]] + s[1..];
    }
  }

  lemma {:induction false} InsertSorted<T>(x: T, s: seq<T>, key: T -> string)
    requires SortedBy(s, key)
    ensures SortedBy(Insert(x, s, key), key)
  {
    var r := Insert(x, s, key);
    if s != [] {
      LtTotal(key(x), key(s[0]));
      if Le(key(x), key(s[0])) {
        forall j | 0 <= j < |s| ensures Le(key(x), key(s[j])) {
          if j > 0 { LeTransitive(key(x), key(s[0]), key(s[j])); }
        }
      } else {
        InsertSorted(x, s[1..], key);
        InsertMultiset(x, s[1..], key);
        var t := Insert(x, s[1..], key);
        forall j | 0 <= j < |t| ensures Le(key(s[0]), key(t[j])) {
          assert t[j] in multiset(t);
          assert t[j] == x || t[j] in s[1..];
        }
      }
    }
  }

  lemma {:induction false} InsertWithKey<T>(x: T, s: seq<T>, key: T -> string, c: string)
    ensures WithKey(Insert(x, s, key), key, c) == (if key(x) == c then [x] else []) + WithKey(s, key, c)
  {
    if s == [] || Le(key(x), key(s[0])) {
      assert ([x] + s)[1..] == s;
    } else {
      InsertWithKey(x, s[1..], key, c);
      assert Insert(x, s, key)[1..] == Insert(x, s[1..], key);
    }
  }

  // The sort is a sorted permutation that keeps every key class in order.
  lemma {:induction false} StableSortSpec<T>(s: seq<T>, key: T -> string)
    ensures SortedBy(StableSort(s, key), key)
    ensures multiset(StableSort(s, key)) == multiset(s)
    ensures SameClasses(StableSort(s, key), s, key)
  {
    if s != [] {
      var t := StableSort(s[1..], key);
      StableSortSpec(s[1..], key);
      InsertSorted(s[0], t, key);
      InsertMultiset(s[0], t, key);
      assert s == [s[0]] + s[1..];
      forall c ensures WithKey(StableSort(s, key), key, c) == WithKey(s, key, c) {
        InsertWithKey(s[0], t, key, c);
      }
    }
  }

  lemma {:induction false} WithKeyMember<T>(s: seq<T>, key: T -> string, c: string)
    ensures WithKey(s, key, c) != [] ==> WithKey(s, key, c)[0] in s && key(WithKey(s, key, c)[0]) == c
    ensures (exists i :: 0 <= i < |s| && key(s[i]) == c) ==> WithKey(s, key, c) != []
  {
    if s != [] { WithKeyMember(s[1..], key, c); }
  }

  lemma SameClassesTail<T>(a: seq<T>, b: seq<T>, key: T -> string, c: string)
    requires a != [] && b != [] && key(a[0]) == key(b[0])
    requires WithKey(a, key, c) == WithKey(b, key, c)
    ensures WithKey(a[1..], key, c) == WithKey(b[1..], key, c)
    ensures key(a[0]) == c ==> a[0] == b[0]
  {
    var ta, tb := WithKey(a[1..], key, c), WithKey(b[1..], key, c);
    if key(a[0]) == c {
      assert ([a[0]] + ta)[1..] == ta && ([b[0]] + tb)[1..] == tb;
      assert ([a[0]] + ta)[0] == a[0] && ([b[0]] + tb)[0] == b[0];
    } else {
      assert [] + ta == ta && [] + tb == tb;
    }
  }

  // A sorted sequence is determined by its key classes.
  lemma {:induction false} SortedUnique<T>(a: seq<T>, b: seq<T>, key: T -> string)
    requires SortedBy(a, key) && SortedBy(b, key) && SameClasses(a, b, key)
    ensures a == b
  {
    if a != [] { WithKeyMember(a, key, key(a[0])); }
    if b != [] { WithKeyMember(b, key, key(b[0])); }
    assert a != [] ==> WithKey(b, key, key(a[0])) != [];
    assert b != [] ==> WithKey(a, key, key(b[0])) != [];
    if a != [] && b != [] {
      var ka, kb := key(a[0]), key(b[0]);
      SortedHeadLeast(a, b, key);
      SortedHeadLeast(b, a, key);
      LeAntisymmetric(ka, kb);
      forall c ensures WithKey(a[1..], key, c) == WithKey(b[1..], key, c) {
        SameClassesTail(a, b, key, c);
      }
      SameClassesTail(a, b, key, ka);
      SortedUnique(a[1..], b[1..], key);
      assert a == [a[0]] + a[1..] && b == [b[0]] + b[1..];
    }
  }

  lemma SortedHeadLeast<T>(a: seq<T>, b: seq<T>, key: T -> string)
    requires a != [] && b != [] && SortedBy(a, key) && SameClasses(a, b, key)
    ensures Le(key(a[0]), key(b[0]))
  {
    var c := key(b[0]);
    WithKeyMember(b, key, c);
    WithKeyMember(a, key, c);
    assert WithKey(a, key, c) == WithKey(b, key, c);
    assert WithKey(a, key, c)[0] in a;
  }

  // Keys that agree sort alike.
  lemma {:induction false} SameKeySameSort<T(!new)>(s: seq<T>, key: T -> string, other: T -> string)
    requires forall e :: key(e) == other(e)
    ensures StableSort(s, key) == StableSort(s, other)
  {
    if s != [] {
      SameKeySameSort(s[1..], key, other);
      SameKeySameInsert(s[0], StableSort(s[1..], key), key, other);
    }
  }

  lemma {:induction false} SameKeySameInsert<T(!new)>(x: T, s: seq<T>, key: T -> string, other: T -> string)
    requires forall e :: key(e) == other(e)
    ensures Insert(x, s, key) == Insert(x, s, other)
  {
    if s != [] { SameKeySameInsert(x, s[1..], key, other); }
  }

  // What a stable sort can and cannot tell apart.
  lemma StableSortEqual<T>(a: seq<T>, b: seq<T>, key: T -> string)
    ensures StableSort(a, key) == StableSort(b, key) <==> SameClasses(a, b, key)
  {
    StableSortSpec(a, key);
    StableSortSpec(b, key);
    var ra, rb := StableSort(a, key), StableSort(b, key);
    assert SameClasses(ra, a, key) && SameClasses(rb, b, key);
    if SameClasses(a, b, key) {
      forall c ensures WithKey(ra, key, c) == WithKey(rb, key, c) {
        assert WithKey(ra, key, c) == WithKey(a, key, c) == WithKey(b, key, c) == WithKey(rb, key, c);
      }
      SortedUnique(ra, rb, key);
    }
    if ra == rb {
      forall c ensures WithKey(a, key, c) == WithKey(b, key, c) {
        assert WithKey(a, key, c) == WithKey(ra, key, c) == WithKey(rb, key, c) == WithKey(b, key, c);
      }
    }
  }

  lemma SortedHeadLeastOf<T>(a: seq<T>, x: T, key: T -> string)
    requires SortedBy(a, key) && x in a
    ensures Le(key(a[0]), key(x))
  {
    var i :| 0 <= i < |a| && a[i] == x;
  }

  lemma MultisetTail<T>(a: seq<T>)
    requires a != []
    ensures multiset(a[1..]) == multiset(a) - multiset{a[0]}
  {
    assert a == [a[0]] + a[1..];
  }

  lemma MultisetWithout<T>(s: seq<T>, j: nat)
    requires j < |s|
    ensures multiset(s[..j] + s[j + 1..]) == multiset(s) - multiset{s[j]}
  {
    assert s == s[..j] + [s[j]] + s[j + 1..];
  }

  // With an injective key a multiset has one sorted arrangement, whatever the algorithm.
  lemma {:induction false} SortedPermutationUnique<T>(a: seq<T>, b: seq<T>, key: T -> string)
    requires SortedBy(a, key) && SortedBy(b, key)
    requires multiset(a) == multiset(b) && Injective(a, key)
    ensures a == b
  {
    assert |b| == |multiset(b)| == |multiset(a)| == |a|;
    if a != [] {
      assert a[0] in multiset(b) && b[0] in multiset(a);
      SortedHeadLeastOf(a, b[0], key);
      SortedHeadLeastOf(b, a[0], key);
      LeAntisymmetric(key(a[0]), key(b[0]));
      assert a[0] == b[0];
      MultisetTail(a);
      MultisetTail(b);
      SortedPermutationUnique(a[1..], b[1..], key);
      assert a == [a[0]] + a[1..] && b == [b[0]] + b[1..];
    }
  }

  lemma StableSortMultiset<T>(a: seq<T>, b: seq<T>, key: T -> string)
    requires Injective(a, key)
    ensures StableSort(a, key) == StableSort(b, key) <==> multiset(a) == multiset(b)
  {
    StableSortSpec(a, key);
    StableSortSpec(b, key);
    if multiset(a) == multiset(b) {
      var r := StableSort(a, key);
      assert forall x :: x in r ==> x in multiset(r);
      assert forall x :: x in multiset(a) ==> x in a;
      SortedPermutationUnique(r, StableSort(b, key), key);
    }
  }
}
