// The golden file: one JSON line per recorded exchange, written by the recorder and read
// back by the verifier.
module Golden {
  import opened Doubles
  import opened Numbers
  import opened Optional
  import opened Utf8
  import opened Values
  import opened Writesets

  // ----- values written and decoded into `any` ---------------------------------------------

  // Integers are read as float64, and broken text as what was written for it.
  function Decoded(v: Value): Value {
    match v
    case Int(i) => FloatValue(OfInt(i))
    case Torn(t) => Str(Mended(t))
    case Arr(items) => Arr(seq(|items|, i requires 0 <= i < |items| => Decoded(items[i])))
    case Obj(fields) => Obj(map k | k in fields :: Decoded(fields[k]))
    case _ => v
  }

  function DecodedMap(m: map<string, Value>): map<string, Value> { map k | k in m :: Decoded(m[k]) }

  // Every int64 in v fits 53 bits, every larger integer is a float64 as printed, and all text
  // is well formed.
  ghost predicate Representable(v: Value) {
    match v
    case Int(i) => if InInt64(i) then Holds(i) else Int(i) == FloatValue(OfInt(i))
    case Torn(_) => false
    case Arr(items) => forall i :: 0 <= i < |items| ==> Representable(items[i])
    case Obj(fields) => forall k :: k in fields ==> Representable(fields[k])
    case _ => true
  }

  lemma {:induction false} DecodedExact(v: Value)
    ensures Decoded(v) == v <==> Representable(v)
  {
    hide FloatValue, OfInt, Holds;
    match v
    case Int(i) => if InInt64(i) { IntReads(i); }
    case Arr(items) =>
      forall i | 0 <= i < |items| ensures Decoded(items[i]) == items[i] <==> Representable(items[i]) {
        DecodedExact(items[i]);
      }
      if Representable(v) { assert Decoded(v).items == items; }
      if Decoded(v) == v {
        forall i | 0 <= i < |items| ensures Representable(items[i]) { assert Decoded(v).items[i] == items[i]; }
      }
    case Obj(fields) =>
      forall k | k in fields ensures Decoded(fields[k]) == fields[k] <==> Representable(fields[k]) {
        DecodedExact(fields[k]);
      }
      if Representable(v) { assert Decoded(v).fields == fields; }
      if Decoded(v) == v {
        forall k | k in fields ensures Representable(fields[k]) { assert Decoded(v).fields[k] == fields[k]; }
      }
    case _ =>
  }

  // ----- entries ---------------------------------------------------------------------------

  // A missing write-set: not attributable when it was captured.
  datatype Expected = Expected(status: int, body: string, writeset: Option<seq<WriteEntry>>)

  datatype Entry = Entry(
    name: string, ts: string, verb: string, path: string, headers: map<string, string>, body: Value, expected: Expected)

  datatype Meta = Meta(version: int, createdAt: string, upstream: string, serialized: bool, source: string)

  // A line of the file: its text, and what json.Unmarshal makes of it.
  datatype Line = Line(text: string, json: Option<Value>)

  // A member that is left out when it is empty.
  function Add(m: map<string, Value>, omit: bool, key: string, v: Value): map<string, Value> {
    if omit then m else m[key := v]
  }

  function WriteEntryValue(e: WriteEntry): Value {
    var m := map["table" := Str(e.table), "op" := Str(OpText(e.op)), "pk" := e.pk];
    Obj(Add(Add(m, e.values == map[], "values", Obj(e.values)), e.changed == map[], "changed", Obj(e.changed)))
  }

  function WritesetValue(ws: Option<seq<WriteEntry>>): Value {
    match ws
    case None => Null
    case Some(es) => Arr(EntryValues(es))
  }

  function EntryValues(es: seq<WriteEntry>): seq<Value> {
    if es == [] then [] else [WriteEntryValue(es[0])] + EntryValues(es[1..])
  }

  function ExpectedValue(x: Expected): Value {
    Obj(map["status" := Int(x.status), "body" := Str(x.body), "writeset" := WritesetValue(x.writeset)])
  }

  function HeadersValue(h: map<string, string>): Value { Obj(map k | k in h :: Str(h[k])) }

  function EntryHead(e: Entry): map<string, Value> {
    map["type" := Str("entry"), "name" := Str(e.name), "method" := Str(e.verb), "path" := Str(e.path),
        "expected" := ExpectedValue(e.expected)]
  }

  function EntryValue(e: Entry): Value {
    var withTs := Add(EntryHead(e), e.ts == "", "ts", Str(e.ts));
    var withHeaders := Add(withTs, e.headers == map[], "headers", HeadersValue(e.headers));
    Obj(Add(withHeaders, e.body == Null, "body", e.body))
  }

  function MetaValue(m: Meta): Value {
    var head := map["type" := Str("meta"), "version" := Int(m.version), "created_at" := Str(m.createdAt),
                    "serialized" := Bool(m.serialized)];
    Obj(Add(Add(head, m.upstream == "", "upstream", Str(m.upstream)), m.source == "", "source", Str(m.source)))
  }

  // ----- decoding; a member of the wrong type is an error, a missing or null one is zero ------

  function At(m: map<string, Value>, k: string): Option<Value> { if k in m then Some(m[k]) else None }

  function StrOr(m: map<string, Value>, k: string, unset: string): Option<string> {
    if k !in m || m[k] == Null then Some(unset) else if m[k].Str? then Some(m[k].s) else None
  }

  function IntOr(m: map<string, Value>, k: string, unset: int): Option<int> {
    if k !in m || m[k] == Null then Some(unset) else if m[k].Int? then Some(m[k].i) else None
  }

  function BoolOr(m: map<string, Value>, k: string, unset: bool): Option<bool> {
    if k !in m || m[k] == Null then Some(unset) else if m[k].Bool? then Some(m[k].b) else None
  }

  function StrAt(m: map<string, Value>, k: string): Option<string> { StrOr(m, k, "") }

  function AnyAt(m: map<string, Value>, k: string): Value { if k in m then Decoded(m[k]) else Null }

  function MapAt(m: map<string, Value>, k: string): Option<map<string, Value>> {
    if k !in m || m[k] == Null then Some(map[]) else if m[k].Obj? then Some(DecodedMap(m[k].fields)) else None
  }

  function HeadersAt(m: map<string, Value>, k: string): Option<map<string, string>> {
    if k !in m || m[k] == Null then Some(map[])
    else if m[k].Obj? && forall h :: h in m[k].fields ==> m[k].fields[h].Str? || m[k].fields[h] == Null then
      Some(map h | h in m[k].fields :: if m[k].fields[h].Str? then m[k].fields[h].s else "")
    else None
  }

  function ParseOp(s: string): Option<Op> {
    if s == "INSERT" then Some(INSERT)
    else if s == "UPDATE" then Some(UPDATE)
    else if s == "DELETE" then Some(DELETE)
    else None
  }

  function DecodeWriteEntry(v: Value): Option<WriteEntry> {
    if !v.Obj? then None
    else
      var m := v.fields;
      match (StrAt(m, "table"), StrAt(m, "op"), MapAt(m, "values"), MapAt(m, "changed"))
      case (Some(table), Some(op), Some(values), Some(changed)) =>
        (match ParseOp(op)
         case None => None
         case Some(o) => Some(WriteEntry(table, o, AnyAt(m, "pk"), values, changed)))
      case _ => None
  }

  function DecodeWriteEntries(vs: seq<Value>): Option<seq<WriteEntry>> {
    if vs == [] then Some([])
    else match (DecodeWriteEntry(vs[0]), DecodeWriteEntries(vs[1..]))
      case (Some(e), Some(es)) => Some([e] + es)
      case _ => None
  }

  // null and [] stay apart.
  function WritesetAt(m: map<string, Value>, k: string): Option<Option<seq<WriteEntry>>> {
    if k !in m || m[k] == Null then Some(None)
    else if m[k].Arr? then
      match DecodeWriteEntries(m[k].items) case None => None case Some(es) => Some(Some(es))
    else None
  }

  function DecodeExpected(v: Value): Option<Expected> {
    if !v.Obj? then None
    else match (IntOr(v.fields, "status", 0), StrAt(v.fields, "body"), WritesetAt(v.fields, "writeset"))
      case (Some(status), Some(body), Some(ws)) => Some(Expected(status, body, ws))
      case _ => None
  }

  function DecodeEntry(v: Value): Option<Entry>
    requires v.Obj?
  {
    var m := v.fields;
    var x :=
      if "expected" !in m || m["expected"] == Null then Some(Expected(0, "", None)) else DecodeExpected(m["expected"]);
    match (StrAt(m, "name"), StrAt(m, "ts"), StrAt(m, "method"), StrAt(m, "path"), HeadersAt(m, "headers"), x)
    case (Some(name), Some(ts), Some(verb), Some(path), Some(headers), Some(expected)) =>
      Some(Entry(name, ts, verb, path, headers, AnyAt(m, "body"), expected))
    case _ => None
  }

  // A meta line is decoded over the meta read so far.
  function DecodeMeta(v: Value, meta: Meta): Option<Meta>
    requires v.Obj?
  {
    var m := v.fields;
    match (IntOr(m, "version", meta.version), StrOr(m, "created_at", meta.createdAt),
           StrOr(m, "upstream", meta.upstream),
           BoolOr(m, "serialized", meta.serialized), StrOr(m, "source", meta.source))
    case (Some(version), Some(at), Some(up), Some(serialized), Some(source)) =>
      Some(Meta(version, at, up, serialized, source))
    case _ => None
  }

  // ----- what reading accepts, and what it gives -------------------------------------------

  // A member that may be missing or null.
  ghost predicate Absent(m: map<string, Value>, k: string) { k !in m || m[k] == Null }

  ghost predicate TextOk(m: map<string, Value>, k: string) { Absent(m, k) || m[k].Str? }

  ghost function TextAt(m: map<string, Value>, k: string): string { if Absent(m, k) || !m[k].Str? then "" else m[k].s }

  ghost predicate MapOk(m: map<string, Value>, k: string) { Absent(m, k) || m[k].Obj? }

  ghost predicate SameMap(d: map<string, Value>, m: map<string, Value>, k: string) {
    if Absent(m, k) || !m[k].Obj? then d == map[]
    else d.Keys == m[k].fields.Keys && forall x :: x in d ==> d[x] == Decoded(m[k].fields[x])
  }

  ghost predicate HeadersOk(m: map<string, Value>) {
    Absent(m, "headers")
    || (m["headers"].Obj? && forall h :: h in m["headers"].fields ==> TextOk(m["headers"].fields, h))
  }

  ghost predicate ChangeOk(v: Value) {
    v.Obj? && TextOk(v.fields, "table") && MapOk(v.fields, "values") && MapOk(v.fields, "changed")
    && "op" in v.fields && v.fields["op"] in {Str("INSERT"), Str("UPDATE"), Str("DELETE")}
  }

  ghost predicate ExpectedOk(v: Value) {
    v == Null || (v.Obj? && TextOk(v.fields, "body") && (Absent(v.fields, "status") || v.fields["status"].Int?)
                  && (Absent(v.fields, "writeset")
                      || (v.fields["writeset"].Arr? && forall w :: w in v.fields["writeset"].items ==> ChangeOk(w))))
  }

  ghost predicate EntryOk(m: map<string, Value>) {
    && TextOk(m, "name") && TextOk(m, "ts") && TextOk(m, "method") && TextOk(m, "path") && HeadersOk(m)
    && ("expected" in m ==> ExpectedOk(m["expected"]))
  }

  ghost predicate ReadsChange(e: WriteEntry, v: Value) {
    && ChangeOk(v) && e.table == TextAt(v.fields, "table") && OpText(e.op) == TextAt(v.fields, "op")
    && e.pk == (if "pk" in v.fields then Decoded(v.fields["pk"]) else Null)
    && SameMap(e.values, v.fields, "values") && SameMap(e.changed, v.fields, "changed")
  }

  ghost predicate ReadsExpected(x: Expected, m: map<string, Value>) {
    if Absent(m, "expected") || !m["expected"].Obj? then x == Expected(0, "", None)
    else
      var f := m["expected"].fields;
      && x.status == (if Absent(f, "status") || !f["status"].Int? then 0 else f["status"].i)
      && x.body == TextAt(f, "body")
      && (if Absent(f, "writeset") || !f["writeset"].Arr? then x.writeset == None
          else x.writeset != None && |x.writeset.value| == |f["writeset"].items|
               && forall i :: 0 <= i < |x.writeset.value| ==> ReadsChange(x.writeset.value[i], f["writeset"].items[i]))
  }

  ghost predicate ReadsEntry(e: Entry, m: map<string, Value>) {
    && e.name == TextAt(m, "name") && e.ts == TextAt(m, "ts") && e.verb == TextAt(m, "method")
    && e.path == TextAt(m, "path") && e.body == (if "body" in m then Decoded(m["body"]) else Null)
    && (if Absent(m, "headers") || !m["headers"].Obj? then e.headers == map[]
        else e.headers.Keys == m["headers"].fields.Keys
             && forall h :: h in e.headers ==> e.headers[h] == TextAt(m["headers"].fields, h))
    && ReadsExpected(e.expected, m)
  }

  lemma ChangeReads(v: Value)
    ensures DecodeWriteEntry(v) != None <==> ChangeOk(v)
    ensures DecodeWriteEntry(v) != None ==> ReadsChange(DecodeWriteEntry(v).value, v)
  {
    hide Decoded;
  }

  lemma {:induction false} ChangesRead(vs: seq<Value>)
    ensures DecodeWriteEntries(vs) != None <==> forall w :: w in vs ==> ChangeOk(w)
    ensures DecodeWriteEntries(vs) != None ==>
              var es := DecodeWriteEntries(vs).value;
              |es| == |vs| && forall i :: 0 <= i < |es| ==> ReadsChange(es[i], vs[i])
  {
    hide DecodeWriteEntry, ChangeOk, ReadsChange;
    if vs != [] {
      ChangeReads(vs[0]);
      ChangesRead(vs[1..]);
      assert forall w :: w in vs <==> w == vs[0] || w in vs[1..];
    }
  }

  lemma ExpectedReads(m: map<string, Value>)
    requires "expected" in m && m["expected"] != Null
    ensures DecodeExpected(m["expected"]) != None <==> ExpectedOk(m["expected"])
    ensures DecodeExpected(m["expected"]) != None ==> ReadsExpected(DecodeExpected(m["expected"]).value, m)
  {
    hide DecodeWriteEntries, ChangeOk, ReadsChange;
    var v := m["expected"];
    if v.Obj? && "writeset" in v.fields && v.fields["writeset"].Arr? { ChangesRead(v.fields["writeset"].items); }
  }

  // An entry line is read exactly if its members have the types of an entry; a missing or
  // null one is zero, and values are decoded.
  lemma EntryReads(v: Value)
    requires v.Obj?
    ensures DecodeEntry(v) != None <==> EntryOk(v.fields)
    ensures DecodeEntry(v) != None ==> ReadsEntry(DecodeEntry(v).value, v.fields)
  {
    hide DecodeExpected, ExpectedOk, ReadsExpected, Decoded;
    var m := v.fields;
    if "expected" in m && m["expected"] != Null {
      ExpectedReads(m);
    } else {
      NothingExpected(m);
    }
  }

  lemma NothingExpected(m: map<string, Value>)
    requires Absent(m, "expected")
    ensures ReadsExpected(Expected(0, "", None), m) && ("expected" in m ==> ExpectedOk(m["expected"]))
  {
  }

  // A meta line changes the members it gives.
  ghost predicate ReadsMeta(now: Meta, was: Meta, m: map<string, Value>) {
    && now.version == (if Absent(m, "version") || !m["version"].Int? then was.version else m["version"].i)
    && now.createdAt == (if Absent(m, "created_at") then was.createdAt else TextAt(m, "created_at"))
    && now.upstream == (if Absent(m, "upstream") then was.upstream else TextAt(m, "upstream"))
    && now.serialized
         == (if Absent(m, "serialized") || !m["serialized"].Bool? then was.serialized else m["serialized"].b)
    && now.source == (if Absent(m, "source") then was.source else TextAt(m, "source"))
  }

  lemma MetaReads(v: Value, was: Meta)
    requires v.Obj?
    ensures DecodeMeta(v, was) != None
      <==> TextOk(v.fields, "created_at") && TextOk(v.fields, "upstream") && TextOk(v.fields, "source")
           && (Absent(v.fields, "version") || v.fields["version"].Int?)
           && (Absent(v.fields, "serialized") || v.fields["serialized"].Bool?)
    ensures DecodeMeta(v, was) != None ==> ReadsMeta(DecodeMeta(v, was).value, was, v.fields)
  {
  }

  // Broken bytes come back as replacement characters.
  lemma TornDecoded(t: Broken)
    ensures Decoded(Torn(t)).Str? && |Decoded(Torn(t)).s| == |t|
    ensures forall i :: 0 <= i < |t| ==> Decoded(Torn(t)).s[i] == if t[i] == None then '\U{FFFD}' else t[i].value
  {
  }

  // ----- one entry there and back --------------------------------------------------------------

  function RoundedEntry(e: WriteEntry): WriteEntry {
    e.(pk := Decoded(e.pk), values := DecodedMap(e.values), changed := DecodedMap(e.changed))
  }

  function RoundedWriteset(es: seq<WriteEntry>): seq<WriteEntry> {
    seq(|es|, i requires 0 <= i < |es| => RoundedEntry(es[i]))
  }

  function Rounded(e: Entry): Entry {
    e.(body := Decoded(e.body),
       expected := e.expected.(writeset :=
         match e.expected.writeset case None => None case Some(ws) => Some(RoundedWriteset(ws))))
  }

  lemma WriteEntryBack(e: WriteEntry)
    ensures DecodeWriteEntry(WriteEntryValue(e)) == Some(RoundedEntry(e))
  {
    var m := WriteEntryValue(e).fields;
    assert StrAt(m, "table") == Some(e.table) && StrAt(m, "op") == Some(OpText(e.op));
    assert AnyAt(m, "pk") == Decoded(e.pk);
    assert MapAt(m, "values") == Some(DecodedMap(e.values)) && MapAt(m, "changed") == Some(DecodedMap(e.changed));
    assert ParseOp(OpText(e.op)) == Some(e.op);
  }

  lemma DecodeCons(v: Value, vs: seq<Value>, e: WriteEntry, es: seq<WriteEntry>)
    requires DecodeWriteEntry(v) == Some(e) && DecodeWriteEntries(vs) == Some(es)
    ensures DecodeWriteEntries([v] + vs) == Some([e] + es)
  {
    assert ([v] + vs)[1..] == vs;
  }

  lemma RoundedCons(es: seq<WriteEntry>)
    requires es != []
    ensures RoundedWriteset(es) == [RoundedEntry(es[0])] + RoundedWriteset(es[1..])
  {
  }

  lemma {:induction false} WritesetBack(es: seq<WriteEntry>)
    ensures DecodeWriteEntries(EntryValues(es)) == Some(RoundedWriteset(es))
  {
    if es == [] {
      assert RoundedWriteset(es) == [];
    } else {
      WriteEntryBack(es[0]);
      WritesetBack(es[1..]);
      DecodeCons(WriteEntryValue(es[0]), EntryValues(es[1..]), RoundedEntry(es[0]), RoundedWriteset(es[1..]));
      RoundedCons(es);
    }
  }

  lemma ExpectedBack(x: Expected)
    ensures DecodeExpected(ExpectedValue(x)) == Some(x.(writeset :=
              match x.writeset case None => None case Some(ws) => Some(RoundedWriteset(ws))))
  {
    match x.writeset
    case None =>
    case Some(ws) => WritesetBack(ws);
  }

  lemma HeadersBack(m: map<string, Value>, h: map<string, string>)
    requires At(m, "headers") == if h == map[] then None else Some(HeadersValue(h))
    ensures HeadersAt(m, "headers") == Some(h)
  {
    if h != map[] {
      var fs := m["headers"].fields;
      var back := map k | k in fs :: if fs[k].Str? then fs[k].s else "";
      assert back == h;
    }
  }

  lemma AddAt(m: map<string, Value>, omit: bool, key: string, v: Value)
    ensures forall k :: At(Add(m, omit, key, v), k) == if k == key && !omit then Some(v) else At(m, k)
  {
  }

  lemma EntryHeadAt(e: Entry)
    ensures var h := EntryHead(e);
      && At(h, "type") == Some(Str("entry")) && At(h, "name") == Some(Str(e.name))
      && At(h, "method") == Some(Str(e.verb))
      && At(h, "path") == Some(Str(e.path)) && At(h, "expected") == Some(ExpectedValue(e.expected))
      && At(h, "ts") == None && At(h, "headers") == None && At(h, "body") == None
  {
  }

  lemma EntryMembers(e: Entry, m: map<string, Value>)
    requires m == EntryValue(e).fields
    ensures At(m, "type") == Some(Str("entry")) && At(m, "name") == Some(Str(e.name))
    ensures At(m, "method") == Some(Str(e.verb))
    ensures At(m, "path") == Some(Str(e.path)) && At(m, "expected") == Some(ExpectedValue(e.expected))
    ensures At(m, "ts") == if e.ts == "" then None else Some(Str(e.ts))
    ensures At(m, "headers") == if e.headers == map[] then None else Some(HeadersValue(e.headers))
    ensures At(m, "body") == if e.body == Null then None else Some(e.body)
  {
    hide EntryHead, HeadersValue, ExpectedValue;
    EntryHeadAt(e);
    HeadMember(e, "type");
    HeadMember(e, "name");
    HeadMember(e, "method");
    HeadMember(e, "path");
    HeadMember(e, "expected");
    AddedMembers(e);
    hide EntryValue;
  }

  // The members that are always there.
  lemma HeadMember(e: Entry, k: string)
    requires k != "ts" && k != "headers" && k != "body"
    ensures At(EntryValue(e).fields, k) == At(EntryHead(e), k)
  {
    hide EntryHead, HeadersValue;
  }

  lemma AddedMembers(e: Entry)
    requires At(EntryHead(e), "ts") == None && At(EntryHead(e), "headers") == None && At(EntryHead(e), "body") == None
    ensures var m := EntryValue(e).fields;
            && At(m, "ts") == (if e.ts == "" then None else Some(Str(e.ts)))
            && At(m, "headers") == (if e.headers == map[] then None else Some(HeadersValue(e.headers)))
            && At(m, "body") == (if e.body == Null then None else Some(e.body))
  {
    var h := EntryHead(e);
    var withTs := Add(h, e.ts == "", "ts", Str(e.ts));
    var withHeaders := Add(withTs, e.headers == map[], "headers", HeadersValue(e.headers));
    assert |"ts"| == 2 && |"headers"| == 7 && |"body"| == 4;
    hide Add, EntryHead, HeadersValue;
    AddAt(h, e.ts == "", "ts", Str(e.ts));
    AddAt(withTs, e.headers == map[], "headers", HeadersValue(e.headers));
    AddAt(withHeaders, e.body == Null, "body", e.body);
  }

  lemma DecodeMembers(m: map<string, Value>, e: Entry)
    requires StrAt(m, "name") == Some(e.name) && StrAt(m, "ts") == Some(e.ts)
    requires StrAt(m, "method") == Some(e.verb) && StrAt(m, "path") == Some(e.path)
    requires AnyAt(m, "body") == e.body && HeadersAt(m, "headers") == Some(e.headers)
    requires "expected" in m && DecodeExpected(m["expected"]) == Some(e.expected)
    ensures DecodeEntry(Obj(m)) == Some(e)
  {
  }

  // The members of an entry of a write-set and of the meta line, by name.
  lemma ChangeMembers(e: WriteEntry)
    ensures var m := WriteEntryValue(e).fields;
            && At(m, "table") == Some(Str(e.table)) && At(m, "op") == Some(Str(OpText(e.op)))
            && At(m, "pk") == Some(e.pk)
            && At(m, "values") == (if e.values == map[] then None else Some(Obj(e.values)))
            && At(m, "changed") == (if e.changed == map[] then None else Some(Obj(e.changed)))
  {
    hide OpText;
    var m := map["table" := Str(e.table), "op" := Str(OpText(e.op)), "pk" := e.pk];
    var withValues := Add(m, e.values == map[], "values", Obj(e.values));
    assert At(m, "table") == Some(Str(e.table)) && At(m, "op") == Some(Str(OpText(e.op))) && At(m, "pk") == Some(e.pk);
    assert At(m, "values") == None && At(m, "changed") == None;
    assert WriteEntryValue(e).fields == Add(withValues, e.changed == map[], "changed", Obj(e.changed));
    hide Add, At, WriteEntryValue;
    AddAt(m, e.values == map[], "values", Obj(e.values));
    AddAt(withValues, e.changed == map[], "changed", Obj(e.changed));
  }

  lemma MetaMembers(meta: Meta)
    ensures var m := MetaValue(meta).fields;
            && At(m, "type") == Some(Str("meta")) && At(m, "version") == Some(Int(meta.version))
            && At(m, "created_at") == Some(Str(meta.createdAt)) && At(m, "serialized") == Some(Bool(meta.serialized))
            && At(m, "upstream") == (if meta.upstream == "" then None else Some(Str(meta.upstream)))
            && At(m, "source") == (if meta.source == "" then None else Some(Str(meta.source)))
  {
    var head := map["type" := Str("meta"), "version" := Int(meta.version), "created_at" := Str(meta.createdAt),
                    "serialized" := Bool(meta.serialized)];
    AddAt(head, meta.upstream == "", "upstream", Str(meta.upstream));
    var withUpstream := Add(head, meta.upstream == "", "upstream", Str(meta.upstream));
    AddAt(withUpstream, meta.source == "", "source", Str(meta.source));
    hide Add;
  }

  // Writing and reading an entry keeps everything but integers a float64 cannot hold; in
  // particular a missing write-set stays missing and an empty one stays empty.
  lemma EntryBack(e: Entry)
    ensures DecodeEntry(EntryValue(e)) == Some(Rounded(e))
  {
    var m := EntryValue(e).fields;
    EntryMembers(e, m);
    hide EntryValue, Decoded, ExpectedValue, DecodeExpected, HeadersValue;
    assert StrAt(m, "name") == Some(e.name) && StrAt(m, "ts") == Some(e.ts);
    assert StrAt(m, "method") == Some(e.verb) && StrAt(m, "path") == Some(e.path);
    assert AnyAt(m, "body") == Decoded(e.body);
    HeadersBack(m, e.headers);
    ExpectedBack(e.expected);
    DecodeMembers(m, Rounded(e));
  }

  const NOMETA := Meta(0, "", "", false, "")

  lemma MetaBack(meta: Meta)
    ensures DecodeMeta(MetaValue(meta), NOMETA) == Some(meta)
    ensures At(MetaValue(meta).fields, "type") == Some(Str("meta"))
  {
    var m := MetaValue(meta).fields;
    MetaMembers(meta);
    hide MetaValue;
    assert IntOr(m, "version", 0) == Some(meta.version) && StrOr(m, "created_at", "") == Some(meta.createdAt);
    assert StrOr(m, "upstream", "") == Some(meta.upstream) && BoolOr(m, "serialized", false) == Some(meta.serialized);
    assert StrOr(m, "source", "") == Some(meta.source);
  }
}
