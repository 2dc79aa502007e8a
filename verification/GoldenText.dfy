// What the text of a golden line reads back as: the same members, with broken text mended.
module GoldenText {
  import opened Golden
  import opened Json
  import opened Optional
  import opened Values
  import opened Writesets

  function SeenMap(m: map<string, Value>): map<string, Value> { map k | k in m :: Seen(m[k]) }

  function SeenChange(e: WriteEntry): WriteEntry {
    e.(pk := Seen(e.pk), values := SeenMap(e.values), changed := SeenMap(e.changed))
  }

  function SeenChanges(es: seq<WriteEntry>): seq<WriteEntry> {
    seq(|es|, i requires 0 <= i < |es| => SeenChange(es[i]))
  }

  function SeenEntry(e: Entry): Entry {
    e.(body := Seen(e.body),
       expected := e.expected.(writeset :=
         match e.expected.writeset case None => None case Some(ws) => Some(SeenChanges(ws))))
  }

  // Decoding mends text anyway.
  lemma {:induction false} SeenDecoded(v: Value)
    ensures Decoded(Seen(v)) == Decoded(v)
  {
    match v
    case Arr(items) =>
      forall i | 0 <= i < |items| ensures Decoded(Seen(items[i])) == Decoded(items[i]) { SeenDecoded(items[i]); }
      assert Decoded(Seen(v)).items == Decoded(v).items;
    case Obj(fields) =>
      forall k | k in fields ensures Decoded(Seen(fields[k])) == Decoded(fields[k]) { SeenDecoded(fields[k]); }
      assert Decoded(Seen(v)).fields == Decoded(v).fields;
    case _ =>
  }

  lemma SeenMapDecoded(m: map<string, Value>)
    ensures DecodedMap(SeenMap(m)) == DecodedMap(m)
  {
    forall k | k in m ensures Decoded(Seen(m[k])) == Decoded(m[k]) { SeenDecoded(m[k]); }
  }

  lemma SeenRounded(e: Entry)
    ensures Rounded(SeenEntry(e)) == Rounded(e)
  {
    hide Decoded, Seen, DecodedMap, SeenMap;
    SeenDecoded(e.body);
    if e.expected.writeset != None {
      var ws := e.expected.writeset.value;
      forall i | 0 <= i < |ws| ensures RoundedEntry(SeenChange(ws[i])) == RoundedEntry(ws[i]) {
        SeenDecoded(ws[i].pk);
        SeenMapDecoded(ws[i].values);
        SeenMapDecoded(ws[i].changed);
      }
      assert RoundedWriteset(SeenChanges(ws)) == RoundedWriteset(ws);
    }
  }

  lemma SeenAdd(m: map<string, Value>, omit: bool, key: string, v: Value)
    ensures SeenMap(Add(m, omit, key, v)) == Add(SeenMap(m), omit, key, Seen(v))
  {
    hide Seen;
  }

  lemma ObjSeen(m: map<string, Value>)
    ensures Seen(Obj(m)) == Obj(SeenMap(m)) && (SeenMap(m) == map[] <==> m == map[])
  {
    if m != map[] {
      var k :| k in m;
      assert k in SeenMap(m);
    }
  }

  lemma ChangeSeen(e: WriteEntry)
    ensures Seen(WriteEntryValue(e)) == WriteEntryValue(SeenChange(e))
  {
    var m := map["table" := Str(e.table), "op" := Str(OpText(e.op)), "pk" := e.pk];
    var withValues := Add(m, e.values == map[], "values", Obj(e.values));
    var head := map["table" := Str(e.table), "op" := Str(OpText(e.op)), "pk" := Seen(e.pk)];
    assert SeenMap(m) == head;
    ObjSeen(e.values);
    ObjSeen(e.changed);
    SeenAdd(m, e.values == map[], "values", Obj(e.values));
    SeenAdd(withValues, e.changed == map[], "changed", Obj(e.changed));
    ObjSeen(WriteEntryValue(e).fields);
    hide Seen, SeenMap, Add, OpText;
  }

  lemma {:induction false} ChangesSeen(es: seq<WriteEntry>)
    ensures SeenAll(EntryValues(es)) == EntryValues(SeenChanges(es))
  {
    hide WriteEntryValue, Seen, SeenChange;
    if es != [] {
      var v, vs := WriteEntryValue(es[0]), EntryValues(es[1..]);
      ChangeSeen(es[0]);
      ChangesSeen(es[1..]);
      assert SeenChanges(es)[0] == SeenChange(es[0]) && SeenChanges(es)[1..] == SeenChanges(es[1..]);
      assert EntryValues(es) == [v] + vs;
      hide EntryValues, SeenChanges;
      assert SeenAll([v] + vs) == [Seen(v)] + SeenAll(vs);
    }
  }

  function SeenAll(vs: seq<Value>): seq<Value> { seq(|vs|, i requires 0 <= i < |vs| => Seen(vs[i])) }

  lemma ArrSeen(vs: seq<Value>)
    ensures Seen(Arr(vs)) == Arr(SeenAll(vs))
  {
  }

  lemma ScalarSeen(v: Value)
    requires !v.Torn? && !v.Arr? && !v.Obj?
    ensures Seen(v) == v
  {
  }

  lemma ExpectedSeen(x: Expected, y: Expected)
    requires y == x.(writeset := match x.writeset case None => None case Some(ws) => Some(SeenChanges(ws)))
    ensures Seen(ExpectedValue(x)) == ExpectedValue(y)
  {
    hide Seen, EntryValues, SeenChanges, SeenAll;
    if x.writeset != None {
      ChangesSeen(x.writeset.value);
      ArrSeen(EntryValues(x.writeset.value));
    }
    ScalarSeen(Null);
    ScalarSeen(Int(x.status));
    ScalarSeen(Str(x.body));
    ObjSeen(ExpectedValue(x).fields);
  }

  lemma HeadersSeen(h: map<string, string>)
    ensures Seen(HeadersValue(h)) == HeadersValue(h)
  {
    assert Seen(HeadersValue(h)).fields == HeadersValue(h).fields;
  }

  lemma HeadSeen(e: Entry)
    ensures SeenMap(EntryHead(e)) == EntryHead(SeenEntry(e))
  {
    hide Seen, ExpectedValue;
    ExpectedSeen(e.expected, SeenEntry(e).expected);
    ScalarSeen(Str("entry"));
    ScalarSeen(Str(e.name));
    ScalarSeen(Str(e.verb));
    ScalarSeen(Str(e.path));
  }

  // The text of an entry reads back as an entry whose texts are mended.
  lemma EntrySeen(e: Entry)
    ensures Seen(EntryValue(e)) == EntryValue(SeenEntry(e))
  {
    var seen := SeenEntry(e);
    assert e.body == Null <==> seen.body == Null;
    HeadSeen(e);
    HeadersSeen(e.headers);
    ScalarSeen(Str(e.ts));
    hide Seen, SeenMap, EntryHead, HeadersValue, Add;
    var h := EntryHead(e);
    var withTs := Add(h, e.ts == "", "ts", Str(e.ts));
    var withHeaders := Add(withTs, e.headers == map[], "headers", HeadersValue(e.headers));
    SeenAdd(h, e.ts == "", "ts", Str(e.ts));
    SeenAdd(withTs, e.headers == map[], "headers", HeadersValue(e.headers));
    SeenAdd(withHeaders, e.body == Null, "body", e.body);
    ObjSeen(EntryValue(e).fields);
  }

  lemma MetaSeen(meta: Meta)
    ensures Seen(MetaValue(meta)) == MetaValue(meta)
  {
    assert Seen(MetaValue(meta)).fields == MetaValue(meta).fields;
  }
}
