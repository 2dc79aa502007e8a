// The structural JSON diff: what it reports, and that the report is complete, true and
// enough to rebuild the new value.
module JsonDiff {
  import opened Strings
  import opened Values
  import opened Optional
  import opened Trees

  // One entry of a report. Absent sides are rendered as the text "<absent>".
  datatype Difference = Difference(kind: string, path: string, was: Value, now: Value)

  const ABSENT := Str("<absent>")

  class DiffLog {
    var items: seq<Difference>

    constructor ()
      ensures items == []
    {
      items := [];
    }
  }

  // ----- the report as structured changes --------------------------------------------

  datatype Side = Missing | Holds(v: Value) | Length(n: nat)
  datatype Change = Change(addr: seq<Step>, was: Side, now: Side)

  function Under(s: Step, cs: seq<Change>): (r: seq<Change>)
    ensures |r| == |cs|
  {
    seq(|cs|, i requires 0 <= i < |cs| => cs[i].(addr := [s] + cs[i].addr))
  }

  function Min(m: nat, n: nat): nat { if m < n then m else n }

  // The changes from a to b, addressed from their common root.
  function Changes(a: Value, b: Value): seq<Change>
    decreases a, 2, 0
  {
    match (a, b)
    case (Obj(m), Obj(n)) => FieldChanges(a, b, SortedKeys(m.Keys + n.Keys))
    case (Arr(xs), Arr(ys)) =>
      (if |xs| != |ys| then [Change([], Length(|xs|), Length(|ys|))] else []) + ItemChanges(a, b, 0)
    case _ => if Print(a) != Print(b) then [Change([], Holds(a), Holds(b))] else []
  }

  function FieldChange(a: Value, b: Value, k: string): seq<Change>
    requires a.Obj? && b.Obj? && (k in a.fields || k in b.fields)
    decreases a, 0, 0
  {
    if k !in a.fields then [Change([Key(k)], Missing, Holds(b.fields[k]))]
    else if k !in b.fields then [Change([Key(k)], Holds(a.fields[k]), Missing)]
    else Under(Key(k), Changes(a.fields[k], b.fields[k]))
  }

  function FieldChanges(a: Value, b: Value, keys: seq<string>): seq<Change>
    requires a.Obj? && b.Obj? && forall k :: k in keys ==> k in a.fields || k in b.fields
    decreases a, 1, |keys|
  {
    if keys == [] then [] else FieldChange(a, b, keys[0]) + FieldChanges(a, b, keys[1..])
  }

  function ItemChanges(a: Value, b: Value, i: nat): seq<Change>
    requires a.Arr? && b.Arr? && i <= Min(|a.items|, |b.items|)
    decreases a, 1, |a.items| - i
  {
    if i == Min(|a.items|, |b.items|) then []
    else Under(Index(i), Changes(a.items[i], b.items[i])) + ItemChanges(a, b, i + 1)
  }

  function SideValue(s: Side): Value {
    match s case Missing => ABSENT case Holds(v) => v case Length(n) => Int(n)
  }

  function PathText(path: seq<string>): string { if path == [] then "$" else Join(path) }

  function Render(path: seq<string>, c: Change): Difference {
    var at := PathText(path + Names(c.addr));
    Difference("response", if c.now.Length? then at + ".length" else at, SideValue(c.was), SideValue(c.now))
  }

  function RenderAll(path: seq<string>, cs: seq<Change>): seq<Difference> {
    seq(|cs|, i requires 0 <= i < |cs| => Render(path, cs[i]))
  }

  lemma RenderUnder(path: seq<string>, s: Step, cs: seq<Change>)
    ensures RenderAll(path, Under(s, cs)) == RenderAll(path + [Name(s)], cs)
  {
    forall i | 0 <= i < |cs| ensures Render(path, Under(s, cs)[i]) == Render(path + [Name(s)], cs[i]) {
      NamesCons(s, cs[i].addr);
      assert path + Names([s] + cs[i].addr) == path + [Name(s)] + Names(cs[i].addr);
    }
  }

  lemma RenderConcat(path: seq<string>, x: seq<Change>, y: seq<Change>)
    ensures RenderAll(path, x + y) == RenderAll(path, x) + RenderAll(path, y)
  {
  }

  // How the rendered report of a node is put together from those of its children.
  lemma RenderArray(a: Value, b: Value, path: seq<string>)
    requires a.Arr? && b.Arr?
    ensures RenderAll(path, Changes(a, b))
      == (if |a.items| == |b.items| then []
          else [Difference("response", PathText(path) + ".length", Int(|a.items|), Int(|b.items|))])
         + RenderAll(path, ItemChanges(a, b, 0))
  {
    var c := Change([], Length(|a.items|), Length(|b.items|));
    var cs := if |a.items| == |b.items| then [] else [c];
    RenderConcat(path, cs, ItemChanges(a, b, 0));
    assert path + Names(c.addr) == path;
    assert RenderAll(path, [c]) == [Render(path, c)];
  }

  lemma RenderLeaf(a: Value, b: Value, path: seq<string>)
    requires !(a.Obj? && b.Obj?) && !(a.Arr? && b.Arr?)
    ensures RenderAll(path, Changes(a, b))
      == if Print(a) == Print(b) then [] else [Difference("response", PathText(path), a, b)]
  {
    var c := Change([], Holds(a), Holds(b));
    assert path + Names(c.addr) == path;
    assert RenderAll(path, [c]) == [Render(path, c)];
  }

  ghost function RenderElement(a: Value, b: Value, path: seq<string>, i: nat): seq<Difference>
    requires a.Arr? && b.Arr? && i < Min(|a.items|, |b.items|)
  {
    RenderAll(path + [NatText(i)], Changes(a.items[i], b.items[i]))
  }

  // The rendered report on the first n positions.
  ghost function RenderElements(a: Value, b: Value, path: seq<string>, n: nat): seq<Difference>
    requires a.Arr? && b.Arr? && n <= Min(|a.items|, |b.items|)
  {
    if n == 0 then [] else RenderElements(a, b, path, n - 1) + RenderElement(a, b, path, n - 1)
  }

  lemma RenderItem(a: Value, b: Value, path: seq<string>, i: nat)
    requires a.Arr? && b.Arr? && i < Min(|a.items|, |b.items|)
    ensures RenderAll(path, ItemChanges(a, b, i)) == RenderElement(a, b, path, i)
      + RenderAll(path, ItemChanges(a, b, i + 1))
  {
    var cs := Changes(a.items[i], b.items[i]);
    RenderUnder(path, Index(i), cs);
    RenderConcat(path, Under(Index(i), cs), ItemChanges(a, b, i + 1));
  }

  lemma {:induction false} RenderElementsIs(a: Value, b: Value, path: seq<string>, n: nat, start: nat)
    requires a.Arr? && b.Arr? && n <= Min(|a.items|, |b.items|) && start == 0
    ensures RenderElements(a, b, path, n) + RenderAll(path, ItemChanges(a, b, n))
      == RenderAll(path, ItemChanges(a, b, start))
  {
    hide RenderElement, RenderAll, Changes, ItemChanges;
    if n > 0 {
      RenderElementsIs(a, b, path, n - 1, start);
      RenderItem(a, b, path, n - 1);
    }
  }

  lemma RenderAllElements(a: Value, b: Value, path: seq<string>, n: nat)
    requires a.Arr? && b.Arr? && n == Min(|a.items|, |b.items|)
    ensures RenderElements(a, b, path, n) == RenderAll(path, ItemChanges(a, b, 0))
  {
    hide RenderElement, Changes, RenderElements;
    RenderElementsIs(a, b, path, n, 0);
    assert ItemChanges(a, b, n) == [];
  }

  lemma RenderOne(path: seq<string>, c: Change)
    ensures RenderAll(path, [c]) == [Render(path, c)]
  {
  }

  lemma RenderMemberIs(a: Value, b: Value, path: seq<string>, k: string)
    requires a.Obj? && b.Obj? && (k in a.fields || k in b.fields)
    ensures RenderAll(path, FieldChange(a, b, k)) == RenderMember(a, b, path, k)
  {
    if k in a.fields && k in b.fields {
      RenderUnder(path, Key(k), Changes(a.fields[k], b.fields[k]));
    } else {
      assert Names([Key(k)]) == [k];
      RenderOne(path, FieldChange(a, b, k)[0]);
    }
  }

  lemma RenderField(a: Value, b: Value, path: seq<string>, keys: seq<string>)
    requires a.Obj? && b.Obj? && (forall k :: k in keys ==> k in a.fields || k in b.fields) && keys != []
    ensures RenderAll(path, FieldChanges(a, b, keys)) == RenderMember(a, b, path, keys[0])
      + RenderAll(path, FieldChanges(a, b, keys[1..]))
  {
    RenderMemberIs(a, b, path, keys[0]);
    RenderConcat(path, FieldChange(a, b, keys[0]), FieldChanges(a, b, keys[1..]));
  }

  ghost function RenderMember(a: Value, b: Value, path: seq<string>, k: string): seq<Difference>
    requires a.Obj? && b.Obj? && (k in a.fields || k in b.fields)
  {
    if k !in a.fields then [Difference("response", Join(path + [k]), ABSENT, b.fields[k])]
    else if k !in b.fields then [Difference("response", Join(path + [k]), a.fields[k], ABSENT)]
    else RenderAll(path + [k], Changes(a.fields[k], b.fields[k]))
  }

  // The rendered report on the members with the given keys.
  ghost function RenderMembers(a: Value, b: Value, path: seq<string>, keys: seq<string>): seq<Difference>
    requires a.Obj? && b.Obj? && forall k :: k in keys ==> k in a.fields || k in b.fields
  {
    if |keys| == 0 then [] else RenderMember(a, b, path, keys[0]) + RenderMembers(a, b, path, keys[1..])
  }

  lemma {:induction false} RenderMembersIs(a: Value, b: Value, path: seq<string>, keys: seq<string>)
    requires a.Obj? && b.Obj? && forall k :: k in keys ==> k in a.fields || k in b.fields
    ensures RenderMembers(a, b, path, keys) == RenderAll(path, FieldChanges(a, b, keys))
  {
    if |keys| > 0 {
      hide RenderMember, RenderAll;
      RenderField(a, b, path, keys);
      RenderMembersIs(a, b, path, keys[1..]);
    }
  }

  lemma ChangesObject(a: Value, b: Value, keys: seq<string>)
    requires a.Obj? && b.Obj? && keys == SortedKeys(a.fields.Keys + b.fields.Keys)
    ensures Changes(a, b) == FieldChanges(a, b, keys)
  {
    hide FieldChanges, ItemChanges, Print;
  }

  lemma RenderObject(a: Value, b: Value, path: seq<string>, keys: seq<string>)
    requires a.Obj? && b.Obj? && keys == SortedKeys(a.fields.Keys + b.fields.Keys)
    ensures RenderAll(path, Changes(a, b)) == RenderMembers(a, b, path, keys)
  {
    hide RenderMembers, RenderAll, Changes, FieldChanges;
    RenderMembersIs(a, b, path, keys);
    ChangesObject(a, b, keys);
  }

  // diffJSON appends exactly the rendered changes, in order, to the caller's list.
  method DiffJSON(a: Value, b: Value, path: seq<string>, out: DiffLog)
    modifies out
    ensures out.items == old(out.items) + RenderAll(path, Changes(a, b))
    decreases a, 1
  {
    hide RenderAll, Changes, RenderMembers, RenderElements, FieldChanges, ItemChanges;
    if a.Obj? && b.Obj? {
      var keys := SortedKeys(a.fields.Keys + b.fields.Keys);
      RenderObject(a, b, path, keys);
      DiffFields(a, b, keys, path, out);
    } else if a.Arr? && b.Arr? {
      RenderArray(a, b, path);
      RenderAllElements(a, b, path, Min(|a.items|, |b.items|));
      if |a.items| != |b.items| {
        out.items := out.items + [Difference("response", PathText(path) + ".length", Int(|a.items|), Int(|b.items|))];
      }
      DiffItems(a, b, path, out);
    } else {
      RenderLeaf(a, b, path);
      if Print(a) != Print(b) {
        out.items := out.items + [Difference("response", PathText(path), a, b)];
      }
    }
  }

  // The loop over the members of both objects.
  method DiffFields(a: Value, b: Value, keys: seq<string>, path: seq<string>, out: DiffLog)
    requires a.Obj? && b.Obj? && forall k :: k in keys ==> k in a.fields || k in b.fields
    modifies out
    ensures out.items == old(out.items) + RenderMembers(a, b, path, keys)
    decreases a, 0, 1
  {
    hide RenderMember, RenderAll, Changes;
    ghost var goal := out.items + RenderMembers(a, b, path, keys);
    var i := 0;
    assert keys[0..] == keys;
    while i < |keys|
      invariant i <= |keys| && out.items + RenderMembers(a, b, path, keys[i..]) == goal
    {
      assert keys[i..][1..] == keys[i + 1..] && keys[i] in keys;
      DiffMember(a, b, path, keys[i], out);
      i := i + 1;
    }
  }

  method DiffMember(a: Value, b: Value, path: seq<string>, k: string, out: DiffLog)
    requires a.Obj? && b.Obj? && (k in a.fields || k in b.fields)
    modifies out
    ensures out.items == old(out.items) + RenderMember(a, b, path, k)
    decreases a, 0, 0
  {
    if k !in a.fields {
      out.items := out.items + [Difference("response", Join(path + [k]), ABSENT, b.fields[k])];
    } else if k !in b.fields {
      out.items := out.items + [Difference("response", Join(path + [k]), a.fields[k], ABSENT)];
    } else {
      DiffJSON(a.fields[k], b.fields[k], path + [k], out);
    }
  }

  // The loop over the positions both arrays have.
  method DiffItems(a: Value, b: Value, path: seq<string>, out: DiffLog)
    requires a.Arr? && b.Arr?
    modifies out
    ensures out.items == old(out.items) + RenderElements(a, b, path, Min(|a.items|, |b.items|))
    decreases a, 0, 1
  {
    hide RenderElement, RenderAll, Changes;
    var n := Min(|a.items|, |b.items|);
    var i := 0;
    while i < n
      invariant i <= n && out.items == old(out.items) + RenderElements(a, b, path, i)
    {
      DiffElement(a, b, path, i, out);
      i := i + 1;
    }
  }

  method DiffElement(a: Value, b: Value, path: seq<string>, i: nat, out: DiffLog)
    requires a.Arr? && b.Arr? && i < Min(|a.items|, |b.items|)
    modifies out
    ensures out.items == old(out.items) + RenderElement(a, b, path, i)
    decreases a, 0, 0
  {
    DiffJSON(a.items[i], b.items[i], path + [NatText(i)], out);
  }

  // ----- complete --------------------------------------------------------------------

  // Nothing is reported exactly when the values are equal.
  lemma {:induction false} ChangesComplete(a: Value, b: Value)
    ensures Changes(a, b) == [] <==> a == b
    decreases a, 2, 0
  {
    hide Changes, FieldChanges, ItemChanges, Print;
    match (a, b)
    case (Obj(m), Obj(n)) =>
      FieldChangesComplete(a, b, SortedKeys(m.Keys + n.Keys));
      SameObjects(a, b, SortedKeys(m.Keys + n.Keys));
    case (Arr(xs), Arr(ys)) =>
      ItemChangesComplete(a, b, 0);
      SameItems(a, b);
    case _ => SameLeaves(a, b);
  }

  lemma SameLeaves(a: Value, b: Value)
    requires !(a.Obj? && b.Obj?) && !(a.Arr? && b.Arr?)
    ensures Changes(a, b) == [] <==> a == b
  {
    hide Print;
    if Print(a) == Print(b) { PrintInjective(a, b); }
  }

  lemma SameObjects(a: Value, b: Value, keys: seq<string>)
    requires a.Obj? && b.Obj? && keys == SortedKeys(a.fields.Keys + b.fields.Keys)
    requires FieldChanges(a, b, keys) == []
      <==> forall k :: k in keys ==> k in a.fields && k in b.fields && a.fields[k] == b.fields[k]
    ensures Changes(a, b) == [] <==> a == b
  {
    ChangesObject(a, b, keys);
    hide Changes, FieldChanges, Print;
    SameFields(a.fields, b.fields, keys);
  }

  lemma SameItems(a: Value, b: Value)
    requires a.Arr? && b.Arr?
    requires ItemChanges(a, b, 0) == [] <==> forall j :: 0 <= j < Min(|a.items|, |b.items|) ==> a.items[j] == b.items[j]
    ensures Changes(a, b) == [] <==> a == b
  {
    hide ItemChanges, Print;
    assert a.items == b.items
      <==> |a.items| == |b.items| && forall j :: 0 <= j < |a.items| ==> a.items[j] == b.items[j];
  }

  lemma SameFields(m: map<string, Value>, n: map<string, Value>, keys: seq<string>)
    requires forall k :: k in keys <==> k in m || k in n
    ensures m == n <==> forall k :: k in keys ==> k in m && k in n && m[k] == n[k]
  {
  }

  lemma {:induction false} FieldChangesComplete(a: Value, b: Value, keys: seq<string>)
    requires a.Obj? && b.Obj? && forall k :: k in keys ==> k in a.fields || k in b.fields
    ensures FieldChanges(a, b, keys) == []
      <==> forall k :: k in keys ==> k in a.fields && k in b.fields && a.fields[k] == b.fields[k]
    decreases a, 1, |keys|
  {
    if keys != [] {
      var k := keys[0];
      if k in a.fields && k in b.fields { ChangesComplete(a.fields[k], b.fields[k]); }
      FieldChangesComplete(a, b, keys[1..]);
    }
  }

  lemma {:induction false} ItemChangesComplete(a: Value, b: Value, i: nat)
    requires a.Arr? && b.Arr? && i <= Min(|a.items|, |b.items|)
    ensures ItemChanges(a, b, i) == []
      <==> forall j :: i <= j < Min(|a.items|, |b.items|) ==> a.items[j] == b.items[j]
    decreases a, 1, |a.items| - i
  {
    hide Changes, Print;
    if i < Min(|a.items|, |b.items|) {
      ChangesComplete(a.items[i], b.items[i]);
      ItemChangesComplete(a, b, i + 1);
    }
  }

  // ----- true ------------------------------------------------------------------------

  // The value v shows this side at this address.
  ghost predicate Shows(v: Value, addr: seq<Step>, side: Side) {
    match side
    case Missing => Lookup(v, addr) == None
    case Holds(w) => Lookup(v, addr) == Some(w)
    case Length(n) => Lookup(v, addr).Some? && Lookup(v, addr).value.Arr? && |Lookup(v, addr).value.items| == n
  }

  ghost predicate TrueOf(c: Change, a: Value, b: Value) {
    Shows(a, c.addr, c.was) && Shows(b, c.addr, c.now) && c.was != c.now
    && (c.addr == [] ==> !c.now.Missing?)
  }

  // Every reported change is real: the old value shows its old side at that address, the
  // new value its new side, and the two differ.
  lemma {:induction false} ChangesTrue(a: Value, b: Value)
    ensures forall c :: c in Changes(a, b) ==> TrueOf(c, a, b)
    decreases a, 2, 0
  {
    match (a, b)
    case (Obj(m), Obj(n)) =>
      hide TrueOf, FieldChanges;
      FieldChangesTrue(a, b, SortedKeys(m.Keys + n.Keys));
    case (Arr(xs), Arr(ys)) =>
      hide TrueOf, ItemChanges;
      ItemChangesTrue(a, b, 0);
      LengthTrue(a, b);
    case _ =>
      assert Print(a) != Print(b) ==> TrueOf(Change([], Holds(a), Holds(b)), a, b);
  }

  lemma LengthTrue(a: Value, b: Value)
    requires a.Arr? && b.Arr?
    ensures |a.items| != |b.items| ==> TrueOf(Change([], Length(|a.items|), Length(|b.items|)), a, b)
  {
  }

  lemma UnderTrue(a: Value, b: Value, s: Step, cs: seq<Change>, a': Value, b': Value)
    requires Child(a, s) == Some(a') && Child(b, s) == Some(b')
    requires forall c :: c in cs ==> TrueOf(c, a', b')
    ensures forall c :: c in Under(s, cs) ==> TrueOf(c, a, b)
  {
    forall c | c in Under(s, cs) ensures TrueOf(c, a, b) {
      var i :| 0 <= i < |cs| && c == Under(s, cs)[i];
      assert TrueOf(cs[i], a', b');
      assert ([s] + cs[i].addr)[1..] == cs[i].addr;
    }
  }

  lemma {:induction false} FieldChangesTrue(a: Value, b: Value, keys: seq<string>)
    requires a.Obj? && b.Obj? && forall k :: k in keys ==> k in a.fields || k in b.fields
    ensures forall c :: c in FieldChanges(a, b, keys) ==> TrueOf(c, a, b)
    decreases a, 1, |keys|
  {
    if keys != [] {
      var k := keys[0];
      if k in a.fields && k in b.fields {
        ChangesTrue(a.fields[k], b.fields[k]);
        UnderTrue(a, b, Key(k), Changes(a.fields[k], b.fields[k]), a.fields[k], b.fields[k]);
      } else {
        OneSidedTrue(a, b, k);
      }
      FieldChangesTrue(a, b, keys[1..]);
    }
  }

  lemma LookupChild(v: Value, s: Step)
    ensures Lookup(v, [s]) == Child(v, s)
  {
    assert [s][1..] == [];
    match Child(v, s)
    case None =>
    case Some(c) => assert Lookup(c, []) == Some(c);
  }

  lemma OneSidedTrue(a: Value, b: Value, k: string)
    requires a.Obj? && b.Obj? && (k in a.fields) != (k in b.fields)
    ensures |FieldChange(a, b, k)| == 1 && TrueOf(FieldChange(a, b, k)[0], a, b)
  {
    var c := FieldChange(a, b, k)[0];
    LookupChild(a, Key(k));
    LookupChild(b, Key(k));
    assert c.addr == [Key(k)];
  }

  lemma {:induction false} ItemChangesTrue(a: Value, b: Value, i: nat)
    requires a.Arr? && b.Arr? && i <= Min(|a.items|, |b.items|)
    ensures forall c :: c in ItemChanges(a, b, i) ==> TrueOf(c, a, b)
    decreases a, 1, |a.items| - i
  {
    if i < Min(|a.items|, |b.items|) {
      ChangesTrue(a.items[i], b.items[i]);
      UnderTrue(a, b, Index(i), Changes(a.items[i], b.items[i]), a.items[i], b.items[i]);
      ItemChangesTrue(a, b, i + 1);
    }
  }

  // A change is between two lengths or between two values, one of which may be missing.
  lemma {:induction false} LengthsTogether(a: Value, b: Value)
    ensures forall c :: c in Changes(a, b) ==> (c.was.Length? <==> c.now.Length?)
    decreases a, 2, 0
  {
    hide Changes, FieldChanges, ItemChanges, Print, SortedKeys;
    match (a, b)
    case (Obj(m), Obj(n)) =>
      FieldLengths(a, b, SortedKeys(m.Keys + n.Keys));
      ChangesObject(a, b, SortedKeys(m.Keys + n.Keys));
    case (Arr(xs), Arr(ys)) =>
      ItemLengths(a, b, 0);
      ChangesArray(a, b);
    case _ => LeafLengths(a, b);
  }

  lemma ChangesArray(a: Value, b: Value)
    requires a.Arr? && b.Arr?
    ensures Changes(a, b) == (if |a.items| != |b.items| then [Change([], Length(|a.items|), Length(|b.items|))] else [])
                               + ItemChanges(a, b, 0)
  {
    hide ItemChanges, FieldChanges, Print;
  }

  lemma LeafLengths(a: Value, b: Value)
    requires !(a.Obj? && b.Obj?) && !(a.Arr? && b.Arr?)
    ensures forall c :: c in Changes(a, b) ==> c.was.Holds? && c.now.Holds?
  {
    hide Print;
  }

  lemma {:induction false} FieldLengths(a: Value, b: Value, keys: seq<string>)
    requires a.Obj? && b.Obj? && forall k :: k in keys ==> k in a.fields || k in b.fields
    ensures forall c :: c in FieldChanges(a, b, keys) ==> (c.was.Length? <==> c.now.Length?)
    decreases a, 1, |keys|
  {
    if keys != [] {
      var k := keys[0];
      if k in a.fields && k in b.fields { LengthsTogether(a.fields[k], b.fields[k]); }
      FieldLengths(a, b, keys[1..]);
    }
  }

  lemma {:induction false} ItemLengths(a: Value, b: Value, i: nat)
    requires a.Arr? && b.Arr? && i <= Min(|a.items|, |b.items|)
    ensures forall c :: c in ItemChanges(a, b, i) ==> (c.was.Length? <==> c.now.Length?)
    decreases a, 1, |a.items| - i
  {
    if i < Min(|a.items|, |b.items|) {
      hide Changes;
      LengthsTogether(a.items[i], b.items[i]);
      ItemLengths(a, b, i + 1);
    }
  }

  // ----- in order --------------------------------------------------------------------

  // A value comes before its parts, members in the order of their keys, elements by index.
  ghost predicate Earlier(x: seq<Step>, y: seq<Step>)
    decreases |x|
  {
    y != [] && (x == []
      || (x[0] == y[0] && Earlier(x[1..], y[1..]))
      || (x[0].Key? && y[0].Key? && Lt(x[0].key, y[0].key))
      || (x[0].Index? && y[0].Index? && x[0].index < y[0].index))
  }

  ghost predicate Ordered(cs: seq<Change>) { forall i, j :: 0 <= i < j < |cs| ==> Earlier(cs[i].addr, cs[j].addr) }

  lemma UnderOrdered(s: Step, cs: seq<Change>)
    requires Ordered(cs)
    ensures Ordered(Under(s, cs)) && forall c :: c in Under(s, cs) ==> c.addr != [] && c.addr[0] == s
  {
    var us := Under(s, cs);
    forall i, j | 0 <= i < j < |us| ensures Earlier(us[i].addr, us[j].addr) {
      assert us[i].addr[1..] == cs[i].addr && us[j].addr[1..] == cs[j].addr;
    }
  }

  lemma ConcatOrdered(x: seq<Change>, y: seq<Change>)
    requires Ordered(x) && Ordered(y) && forall c, d :: c in x && d in y ==> Earlier(c.addr, d.addr)
    ensures Ordered(x + y)
  {
    hide Earlier;
  }

  // The report has at most one change at each address, and they come in order.
  lemma {:induction false} ChangesInOrder(a: Value, b: Value)
    ensures Ordered(Changes(a, b))
    decreases a, 2, 0
  {
    hide Changes, FieldChanges, ItemChanges, Earlier, Print, SortedKeys;
    match (a, b)
    case (Obj(m), Obj(n)) =>
      SortedKeysOrder(m.Keys + n.Keys);
      FieldChangesInOrder(a, b, SortedKeys(m.Keys + n.Keys));
      ChangesObject(a, b, SortedKeys(m.Keys + n.Keys));
    case (Arr(xs), Arr(ys)) =>
      ItemChangesInOrder(a, b, 0);
      LengthFirst(a, b);
    case _ => LeafInOrder(a, b);
  }

  lemma LeafInOrder(a: Value, b: Value)
    requires !(a.Obj? && b.Obj?) && !(a.Arr? && b.Arr?)
    ensures Ordered(Changes(a, b))
  {
    hide Earlier, Print;
  }

  lemma LengthFirst(a: Value, b: Value)
    requires a.Arr? && b.Arr? && Ordered(ItemChanges(a, b, 0))
    requires forall c :: c in ItemChanges(a, b, 0) ==> c.addr != []
    ensures Ordered(Changes(a, b))
  {
    hide ItemChanges, Print;
    var first := if |a.items| != |b.items| then [Change([], Length(|a.items|), Length(|b.items|))] else [];
    ConcatOrdered(first, ItemChanges(a, b, 0));
  }

  lemma FieldChangeInOrder(a: Value, b: Value, k: string)
    requires a.Obj? && b.Obj? && (k in a.fields || k in b.fields)
    ensures Ordered(FieldChange(a, b, k))
    ensures forall c :: c in FieldChange(a, b, k) ==> c.addr != [] && c.addr[0] == Key(k)
    decreases a, 0, 0
  {
    if k in a.fields && k in b.fields {
      ChangesInOrder(a.fields[k], b.fields[k]);
      UnderOrdered(Key(k), Changes(a.fields[k], b.fields[k]));
    }
  }

  lemma {:induction false} FieldChangesInOrder(a: Value, b: Value, keys: seq<string>)
    requires a.Obj? && b.Obj? && forall k :: k in keys ==> k in a.fields || k in b.fields
    requires forall i, j :: 0 <= i < j < |keys| ==> Lt(keys[i], keys[j])
    ensures Ordered(FieldChanges(a, b, keys))
    ensures forall c :: c in FieldChanges(a, b, keys) ==> c.addr != [] && c.addr[0].Key? && c.addr[0].key in keys
    decreases a, 1, |keys|
  {
    if keys != [] {
      hide FieldChange;
      FieldChangeInOrder(a, b, keys[0]);
      FieldChangesInOrder(a, b, keys[1..]);
      ConcatOrdered(FieldChange(a, b, keys[0]), FieldChanges(a, b, keys[1..]));
    }
  }

  lemma {:induction false} ItemChangesInOrder(a: Value, b: Value, i: nat)
    requires a.Arr? && b.Arr? && i <= Min(|a.items|, |b.items|)
    ensures Ordered(ItemChanges(a, b, i))
    ensures forall c :: c in ItemChanges(a, b, i) ==> c.addr != [] && c.addr[0].Index? && c.addr[0].index >= i
    decreases a, 1, |a.items| - i
  {
    if i < Min(|a.items|, |b.items|) {
      hide Changes;
      ChangesInOrder(a.items[i], b.items[i]);
      UnderOrdered(Index(i), Changes(a.items[i], b.items[i]));
      ItemChangesInOrder(a, b, i + 1);
      ConcatOrdered(Under(Index(i), Changes(a.items[i], b.items[i])), ItemChanges(a, b, i + 1));
    }
  }

  // ----- patchable -------------------------------------------------------------------

  // Put a side at an address; a length cuts an array short but cannot lengthen it.
  function Update(v: Value, addr: seq<Step>, side: Side): Value {
    if addr == [] then
      match (side, v)
      case (Holds(w), _) => w
      case (Length(n), Arr(items)) => if n <= |items| then Arr(items[..n]) else v
      case _ => v
    else
      match (v, addr[0])
      case (Obj(fields), Key(k)) =>
        if |addr| == 1 && side.Missing? then Obj(fields - {k})
        else if k in fields then Obj(fields[k := Update(fields[k], addr[1..], side)])
        else if |addr| == 1 && side.Holds? then Obj(fields[k := side.v])
        else v
      case (Arr(items), Index(i)) =>
        if i < |items| then Arr(items[i := Update(items[i], addr[1..], side)]) else v
      case _ => v
  }

  function Patch(v: Value, cs: seq<Change>): Value
    decreases |cs|
  {
    if cs == [] then v else Patch(Update(v, cs[0].addr, cs[0].now), cs[1..])
  }

  // No array faces a longer one.
  ghost predicate NoGrowth(a: Value, b: Value) {
    match (a, b)
    case (Obj(m), Obj(n)) => forall k :: k in m && k in n ==> NoGrowth(m[k], n[k])
    case (Arr(xs), Arr(ys)) => |ys| <= |xs| && forall i :: 0 <= i < |ys| ==> NoGrowth(xs[i], ys[i])
    case _ => true
  }

  lemma {:induction false} PatchConcat(v: Value, x: seq<Change>, y: seq<Change>)
    ensures Patch(v, x + y) == Patch(Patch(v, x), y)
    decreases |x|
  {
    if x == [] {
      assert x + y == y;
    } else {
      assert (x + y)[1..] == x[1..] + y;
      PatchConcat(Update(v, x[0].addr, x[0].now), x[1..], y);
    }
  }

  ghost predicate KeepsRoot(cs: seq<Change>) { forall c :: c in cs && c.addr == [] ==> !c.now.Missing? }

  // Changes below one child patch that child and nothing else.
  lemma {:induction false} PatchUnderKey(m: map<string, Value>, k: string, cs: seq<Change>)
    requires k in m && KeepsRoot(cs)
    ensures Patch(Obj(m), Under(Key(k), cs)) == Obj(m[k := Patch(m[k], cs)])
    decreases |cs|
  {
    if cs == [] {
      assert m[k := m[k]] == m;
    } else {
      var c := cs[0];
      var w := Update(m[k], c.addr, c.now);
      assert ([Key(k)] + c.addr)[1..] == c.addr && c in cs;
      assert Under(Key(k), cs)[1..] == Under(Key(k), cs[1..]);
      assert Update(Obj(m), [Key(k)] + c.addr, c.now) == Obj(m[k := w]);
      PatchUnderKey(m[k := w], k, cs[1..]);
      assert m[k := w][k := Patch(w, cs[1..])] == m[k := Patch(w, cs[1..])];
    }
  }

  lemma {:induction false} PatchUnderIndex(items: seq<Value>, i: nat, cs: seq<Change>)
    requires i < |items|
    ensures Patch(Arr(items), Under(Index(i), cs)) == Arr(items[i := Patch(items[i], cs)])
    decreases |cs|
  {
    if cs == [] {
      assert items[i := items[i]] == items;
    } else {
      var c := cs[0];
      var w := Update(items[i], c.addr, c.now);
      assert ([Index(i)] + c.addr)[1..] == c.addr;
      assert Under(Index(i), cs)[1..] == Under(Index(i), cs[1..]);
      PatchUnderIndex(items[i := w], i, cs[1..]);
      assert items[i := w][i := Patch(w, cs[1..])] == items[i := Patch(w, cs[1..])];
    }
  }

  function Get(m: map<string, Value>, k: string): Option<Value> { if k in m then Some(m[k]) else None }

  // What the member k becomes.
  ghost function FieldTarget(a: Value, b: Value, k: string): Option<Value>
    requires a.Obj? && b.Obj?
  {
    if k in a.fields && k in b.fields then Some(Patch(a.fields[k], Changes(a.fields[k], b.fields[k])))
    else Get(b.fields, k)
  }

  lemma {:induction false} FieldChangesPatch(a: Value, b: Value, keys: seq<string>, cur: map<string, Value>)
    requires a.Obj? && b.Obj? && forall k :: k in keys ==> k in a.fields || k in b.fields
    requires forall i, j :: 0 <= i < j < |keys| ==> keys[i] != keys[j]
    requires forall k :: k in keys ==> Get(cur, k) == Get(a.fields, k)
    ensures var r := Patch(Obj(cur), FieldChanges(a, b, keys));
            r.Obj? && forall k :: Get(r.fields, k) == if k in keys then FieldTarget(a, b, k) else Get(cur, k)
    decreases |keys|
  {
    if keys != [] {
      var k, cs := keys[0], FieldChange(a, b, keys[0]);
      PatchConcat(Obj(cur), cs, FieldChanges(a, b, keys[1..]));
      assert Get(cur, k) == Get(a.fields, k);
      if k in a.fields && k in b.fields {
        ChangesTrue(a.fields[k], b.fields[k]);
        PatchUnderKey(cur, k, Changes(a.fields[k], b.fields[k]));
      } else {
        assert Patch(Obj(cur), cs) == Update(Obj(cur), cs[0].addr, cs[0].now);
      }
      var next := Patch(Obj(cur), cs);
      assert next.Obj? && forall x :: Get(next.fields, x) == if x == k then FieldTarget(a, b, k) else Get(cur, x);
      assert forall x :: x in keys[1..] ==> x != k;
      FieldChangesPatch(a, b, keys[1..], next.fields);
      assert forall x :: x in keys <==> x == k || x in keys[1..];
    }
  }

  // What the element j becomes when positions from i on are patched.
  ghost function ItemTarget(a: Value, b: Value, i: nat, was: Value, j: nat): Value
    requires a.Arr? && b.Arr?
  {
    if i <= j < Min(|a.items|, |b.items|) then Patch(a.items[j], Changes(a.items[j], b.items[j])) else was
  }

  lemma {:induction false} ItemChangesPatch(a: Value, b: Value, i: nat, cur: seq<Value>)
    requires a.Arr? && b.Arr? && i <= Min(|a.items|, |b.items|) <= |cur|
    requires forall j :: i <= j < Min(|a.items|, |b.items|) ==> cur[j] == a.items[j]
    ensures var r := Patch(Arr(cur), ItemChanges(a, b, i));
            r.Arr? && |r.items| == |cur| && forall j :: 0 <= j < |cur| ==> r.items[j] == ItemTarget(a, b, i, cur[j], j)
    decreases |a.items| - i
  {
    if i < Min(|a.items|, |b.items|) {
      var cs := Changes(a.items[i], b.items[i]);
      PatchConcat(Arr(cur), Under(Index(i), cs), ItemChanges(a, b, i + 1));
      PatchUnderIndex(cur, i, cs);
      ItemChangesPatch(a, b, i + 1, cur[i := Patch(cur[i], cs)]);
    }
  }

  // Applying the report to the old value gives the new value, exactly unless some array
  // faces a longer one (whose extra elements the report does not carry).
  lemma {:induction false} PatchExact(a: Value, b: Value)
    ensures Patch(a, Changes(a, b)) == b <==> NoGrowth(a, b)
    decreases a, 1
  {
    match (a, b)
    case (Obj(m), Obj(n)) =>
      SortedKeysDistinct(m.Keys + n.Keys);
      FieldsPatchExact(a, b, SortedKeys(m.Keys + n.Keys));
    case (Arr(_), Arr(_)) => ItemsPatchExact(a, b);
    case _ => if Print(a) == Print(b) { PrintInjective(a, b); }
  }

  lemma FieldsPatch(a: Value, b: Value, keys: seq<string>)
    requires a.Obj? && b.Obj? && forall k :: k in keys <==> k in a.fields || k in b.fields
    requires forall i, j :: 0 <= i < j < |keys| ==> keys[i] != keys[j]
    ensures Patch(a, FieldChanges(a, b, keys)).Obj?
    ensures forall k :: Get(Patch(a, FieldChanges(a, b, keys)).fields, k) == FieldTarget(a, b, k)
  {
    FieldChangesPatch(a, b, keys, a.fields);
    forall k | k !in keys ensures Get(a.fields, k) == FieldTarget(a, b, k) {
      assert k !in a.fields && k !in b.fields;
    }
  }

  lemma {:induction false} FieldsPatchExact(a: Value, b: Value, keys: seq<string>)
    requires a.Obj? && b.Obj? && forall k :: k in keys <==> k in a.fields || k in b.fields
    requires forall i, j :: 0 <= i < j < |keys| ==> keys[i] != keys[j]
    ensures Patch(a, FieldChanges(a, b, keys)) == b <==> NoGrowth(a, b)
    decreases a, 0
  {
    hide Patch, Changes, FieldChanges;
    FieldsPatch(a, b, keys);
    var m, n, r := a.fields, b.fields, Patch(a, FieldChanges(a, b, keys)).fields;
    forall k | k in m && k in n ensures Get(r, k) == Get(n, k) <==> NoGrowth(m[k], n[k]) {
      PatchExact(m[k], n[k]);
      assert Get(r, k) == FieldTarget(a, b, k);
    }
    forall k | !(k in m && k in n) ensures Get(r, k) == Get(n, k) {
      assert Get(r, k) == FieldTarget(a, b, k);
    }
    GetExtensional(r, n);
  }

  lemma GetExtensional(m: map<string, Value>, n: map<string, Value>)
    ensures m == n <==> forall k :: Get(m, k) == Get(n, k)
  {
    if forall k :: Get(m, k) == Get(n, k) {
      forall k ensures k in m <==> k in n { assert Get(m, k) == Get(n, k); }
      forall k | k in m ensures m[k] == n[k] { assert Get(m, k) == Get(n, k); }
    }
  }

  // The patched array, element by element.
  lemma ItemsPatched(a: Value, b: Value)
    requires a.Arr? && b.Arr?
    ensures var r, n := Patch(a, Changes(a, b)), Min(|a.items|, |b.items|);
            && r.Arr? && |r.items| == (if |b.items| <= |a.items| then |b.items| else |a.items|)
            && forall i :: 0 <= i < n ==> r.items[i] == Patch(a.items[i], Changes(a.items[i], b.items[i]))
  {
    hide Patch, Changes, ItemChanges;
    var cur := if |b.items| <= |a.items| then a.items[..|b.items|] else a.items;
    PatchAfterLength(a, b, cur);
    ItemChangesPatch(a, b, 0, cur);
  }

  lemma {:induction false} ItemsPatchExact(a: Value, b: Value)
    requires a.Arr? && b.Arr?
    ensures Patch(a, Changes(a, b)) == b <==> NoGrowth(a, b)
    decreases a, 0
  {
    hide Patch, Changes;
    var xs, ys := a.items, b.items;
    ItemsPatched(a, b);
    var r := Patch(a, Changes(a, b)).items;
    forall i | 0 <= i < Min(|xs|, |ys|) ensures r[i] == ys[i] <==> NoGrowth(xs[i], ys[i]) {
      PatchExact(xs[i], ys[i]);
    }
    if |ys| <= |xs| {
      assert r == ys <==> forall i :: 0 <= i < |ys| ==> r[i] == ys[i];
    }
  }

  lemma PatchAfterLength(a: Value, b: Value, cur: seq<Value>)
    requires a.Arr? && b.Arr?
    requires cur == if |b.items| <= |a.items| then a.items[..|b.items|] else a.items
    ensures Patch(a, Changes(a, b)) == Patch(Arr(cur), ItemChanges(a, b, 0))
  {
    hide Patch, ItemChanges;
    var rest := ItemChanges(a, b, 0);
    if |a.items| != |b.items| {
      var c := Change([], Length(|a.items|), Length(|b.items|));
      PatchFirst(a, c, rest);
      assert Update(a, [], Length(|b.items|)) == Arr(cur);
    } else {
      assert a.items[..|b.items|] == a.items;
      assert [] + rest == rest;
    }
  }

  lemma PatchFirst(v: Value, c: Change, rest: seq<Change>)
    ensures Patch(v, [c] + rest) == Patch(Update(v, c.addr, c.now), rest)
  {
    assert ([c] + rest)[1..] == rest;
  }
}
