// Write-sets: the canonical, order-insensitive form of a request's row changes.
module Writesets {
  import opened Strings
  import opened Values
  import opened Norm
  import opened Sorting
  import opened Optional

  datatype Op = INSERT | UPDATE | DELETE

  function OpText(op: Op): string {
    match op case INSERT => "INSERT" case UPDATE => "UPDATE" case DELETE => "DELETE"
  }

  type Row = map<string, Raw>

  datatype RowChange = RowChange(table: string, op: Op, before: Option<Row>, after: Option<Row>, query: string)

  // INSERT and DELETE carry values, UPDATE carries changed: column -> {before, after}.
  // An absent map and an empty one are the same: both are left out of JSON.
  datatype WriteEntry = WriteEntry(
    table: string, op: Op, pk: Value, values: map<string, Value>, changed: map<string, Value>)
  {
    function Payload(): map<string, Value> { if changed != map[] then changed else values }
  }

  // ----- noise columns ------------------------------------------------------------

  // The table name without its schema: what follows the last dot.
  function Bare(table: string): string {
    if '.' in table then Bare(table[1..]) else table
  }

  // strings.Cut(s, ".")
  function Cut(s: string): Option<(string, string)> {
    if s == [] then None
    else if s[0] == '.' then Some(("", s[1..]))
    else match Cut(s[1..]) case None => None case Some((l, r)) => Some(([s[0]] + l, r))
  }

  predicate ColIsNoise(table: string, column: string, patterns: seq<string>) {
    exists p :: p in patterns && match Cut(p)
      case None => false
      case Some((t, c)) => (t == "*" || t == Bare(table) || t == table) && (c == "*" || c == column)
  }

  lemma {:induction false} CutAtFirstDot(l: string, r: string)
    requires NoDot(l)
    ensures Cut(l + "." + r) == Some((l, r))
  {
    var s := l + "." + r;
    if l == [] {
      assert s[1..] == r;
    } else {
      assert s[1..] == l[1..] + "." + r && s[0] == l[0];
      CutAtFirstDot(l[1..], r);
      assert [l[0]] + l[1..] == l;
    }
  }

  lemma {:induction false} BareAfterLastDot(schema: string, t: string)
    requires NoDot(t)
    ensures Bare(t) == t && Bare(schema + "." + t) == t
  {
    var s := schema + "." + t;
    assert s[|schema|] == '.';
    assert '.' !in t;
    if schema == [] {
      assert s[1..] == t;
    } else {
      assert s[1..] == schema[1..] + "." + t;
      BareAfterLastDot(schema[1..], t);
    }
  }

  // A pattern t.c covers the column c (or any, for `*`) of the table t in every schema (or
  // of any table, for `*`).
  lemma NoisePattern(t: string, c: string, schema: string, table: string, column: string)
    requires NoDot(t) && NoDot(table)
    ensures ColIsNoise(schema + "." + table, column, [t + "." + c])
      <==> (t == "*" || t == table) && (c == "*" || c == column)
  {
    CutAtFirstDot(t, c);
    BareAfterLastDot(schema, table);
    var p, full := t + "." + c, schema + "." + table;
    assert full[|schema|] == '.' && t != full;
    assert p in [p];
  }

  // A pattern cannot name the schema: schema.table.column is read as the column
  // "table.column" of the table "schema", so it never covers the column it spells out.
  lemma QualifiedPattern(schema: string, table: string, column: string)
    requires NoDot(schema) && NoDot(table) && NoDot(column)
    ensures !ColIsNoise(schema + "." + table, column, [schema + "." + (table + "." + column)])
  {
    var rest := table + "." + column;
    assert rest[|table|] == '.' && rest != column && rest != "*";
    NoisePattern(schema, rest, schema, table, column);
  }

  // t is the name of the table, without its schema.
  ghost predicate NameOf(table: string, t: string) {
    NoDot(t) && (table == t || exists schema :: table == schema + "." + t)
  }

  // The pattern t.c, cut at its first dot, covers the column.
  ghost predicate Covered(p: string, table: string, column: string) {
    exists t, c :: p == t + "." + c && NoDot(t) && (t == "*" || NameOf(table, t)) && (c == "*" || c == column)
  }

  lemma {:induction false} CutIs(s: string)
    ensures Cut(s) == None ==> NoDot(s)
    ensures Cut(s) != None ==> s == Cut(s).value.0 + "." + Cut(s).value.1 && NoDot(Cut(s).value.0)
  {
    if s != [] {
      CutIs(s[1..]);
      assert s == [s[0]] + s[1..];
    }
  }

  lemma {:induction false} BareIs(table: string)
    ensures NameOf(table, Bare(table))
  {
    if '.' in table {
      var rest := table[1..];
      BareIs(rest);
      assert table == [table[0]] + rest;
      if rest == Bare(rest) {
        assert '.' !in rest;
        assert table == [] + "." + rest;
      } else {
        var schema :| rest == schema + "." + Bare(rest);
        assert table == ([table[0]] + schema) + "." + Bare(rest);
      }
    }
  }

  lemma NameIsBare(table: string, t: string)
    ensures NameOf(table, t) <==> t == Bare(table)
  {
    BareIs(table);
    if NameOf(table, t) {
      if table == t {
        BareAfterLastDot([], t);
      } else {
        var schema :| table == schema + "." + t;
        BareAfterLastDot(schema, t);
      }
    }
  }

  // For any patterns: a column is noise exactly if one of them covers it.
  lemma NoiseColumn(table: string, column: string, patterns: seq<string>)
    ensures ColIsNoise(table, column, patterns) <==> exists p :: p in patterns && Covered(p, table, column)
  {
    hide Cut, Bare, NameOf;
    forall p
      ensures Covered(p, table, column) <==>
                match Cut(p)
                case None => false
                case Some((t, c)) => (t == "*" || t == Bare(table) || t == table) && (c == "*" || c == column)
    {
      OnePattern(p, table, column);
    }
  }

  lemma OnePattern(p: string, table: string, column: string)
    ensures Covered(p, table, column) <==>
              Cut(p) != None && (Cut(p).value.0 == "*" || Cut(p).value.0 == Bare(table) || Cut(p).value.0 == table)
              && (Cut(p).value.1 == "*" || Cut(p).value.1 == column)
  {
    CutIs(p);
    if Cut(p) != None {
      var t := Cut(p).value.0;
      NameIsBare(table, t);
      if t == table { BareAfterLastDot([], t); }
    }
    if t, c :| p == t + "." + c && NoDot(t) && (t == "*" || NameOf(table, t)) && (c == "*" || c == column) {
      CutAtFirstDot(t, c);
      NameIsBare(table, t);
    }
  }

  // ----- one change ----------------------------------------------------------------

  function Columns(row: Option<Row>): Row { match row case None => map[] case Some(r) => r }

  function Clean(table: string, row: Row, noise: seq<string>): map<string, Value> {
    map k | k in row && !ColIsNoise(table, k, noise) :: NormValue(row[k])
  }

  // A missing column reads as null.
  function Col(row: map<string, Value>, k: string): Value { if k in row then row[k] else Null }

  function PrimaryKey(c: RowChange): Value {
    var row := Columns(if c.op.DELETE? then c.before else c.after);
    if "id" in row then NormValue(row["id"]) else Null
  }

  function Delta(before: Value, after: Value): Value { Obj(map["before" := before, "after" := after]) }

  predicate Differs(before: map<string, Value>, after: map<string, Value>, k: string) {
    Print(Col(before, k)) != Print(Col(after, k))
  }

  // The columns among `keys` whose canonical text changed.
  function ChangedAmong(before: map<string, Value>, after: map<string, Value>, keys: set<string>): map<string, Value> {
    map k | k in keys && Differs(before, after, k) :: Delta(Col(before, k), Col(after, k))
  }

  function ChangedColumns(before: map<string, Value>, after: map<string, Value>): map<string, Value> {
    ChangedAmong(before, after, before.Keys + after.Keys)
  }

  predicate Ignored(table: string, ignore: seq<string>) { Bare(table) in ignore || table in ignore }

  // A table is ignored by its name or by its full name.
  lemma IgnoredExact(table: string, ignore: seq<string>)
    ensures Ignored(table, ignore) <==> exists x :: x in ignore && (x == table || NameOf(table, x))
  {
    hide Bare, NameOf;
    forall x ensures NameOf(table, x) <==> x == Bare(table) { NameIsBare(table, x); }
  }

  // What one change contributes to the write-set, if anything.
  function Effect(c: RowChange, noise: seq<string>, ignore: seq<string>): Option<WriteEntry> {
    var before, after := Clean(c.table, Columns(c.before), noise), Clean(c.table, Columns(c.after), noise);
    if Ignored(c.table, ignore) then None
    else match c.op
      case UPDATE =>
        var changed := ChangedColumns(before, after);
        if changed == map[] then None else Some(WriteEntry(Bare(c.table), UPDATE, PrimaryKey(c), map[], changed))
      case INSERT => Some(WriteEntry(Bare(c.table), INSERT, PrimaryKey(c), after, map[]))
      case DELETE => Some(WriteEntry(Bare(c.table), DELETE, PrimaryKey(c), before, map[]))
  }

  // The value of a column before normal forms are built: missing reads as null.
  ghost function Reads(row: Row, k: string): Value { if k in row then NormValue(row[k]) else Null }

  // The columns of an image; a missing one has none.
  ghost function Image(row: Option<Row>): Row { if row == None then map[] else row.value }

  // An UPDATE lists exactly the columns off noise whose value changed, with both values; an
  // INSERT the columns of the new row off noise, a DELETE those of the old one; the key is
  // the new row's (for a DELETE the old one's) id, noise or not.
  ghost predicate Says(e: WriteEntry, c: RowChange, before: Row, after: Row, noise: seq<string>) {
    && NameOf(c.table, e.table) && e.op == c.op
    && e.pk == Reads(if c.op.DELETE? then before else after, "id")
    && (if c.op.UPDATE? then e.values == map[] && ListsChanges(e.changed, c.table, before, after, noise)
        else e.changed == map[] && ListsRow(e.values, c.table, if c.op.INSERT? then after else before, noise))
  }

  ghost predicate ListsChanges(changed: map<string, Value>, table: string, before: Row, after: Row, noise: seq<string>)
  {
    forall k ::
      && (k in changed <==> !ColIsNoise(table, k, noise) && Reads(before, k) != Reads(after, k))
      && (k in changed ==> changed[k] == Obj(map["before" := Reads(before, k), "after" := Reads(after, k)]))
  }

  ghost predicate ListsRow(values: map<string, Value>, table: string, row: Row, noise: seq<string>) {
    forall k ::
      && (k in values <==> k in row && !ColIsNoise(table, k, noise))
      && (k in values ==> values[k] == NormValue(row[k]))
  }

  lemma EffectMeaning(c: RowChange, noise: seq<string>, ignore: seq<string>)
    requires !Ignored(c.table, ignore) && Effect(c, noise, ignore) != None
    ensures Says(Effect(c, noise, ignore).value, c, Image(c.before), Image(c.after), noise)
  {
    BareIs(c.table);
    var b, a := Columns(c.before), Columns(c.after);
    var cb, ca := Clean(c.table, b, noise), Clean(c.table, a, noise);
    if c.op.UPDATE? {
      var e := Effect(c, noise, ignore).value;
      forall k
        ensures k in e.changed <==> !ColIsNoise(c.table, k, noise) && Reads(b, k) != Reads(a, k)
        ensures k in e.changed ==> e.changed[k] == Delta(Reads(b, k), Reads(a, k))
      {
        if Print(Col(cb, k)) == Print(Col(ca, k)) { PrintInjective(Col(cb, k), Col(ca, k)); }
      }
    }
  }

  function Effects(cs: seq<RowChange>, noise: seq<string>, ignore: seq<string>): seq<WriteEntry> {
    if cs == [] then [] else Listed(Effect(cs[0], noise, ignore)) + Effects(cs[1..], noise, ignore)
  }

  function Listed(e: Option<WriteEntry>): seq<WriteEntry> { match e case None => [] case Some(w) => [w] }

  // ----- the sort key ---------------------------------------------------------------

  // canonical(entry): the JSON of the struct, empty maps omitted.
  function EntryText(e: WriteEntry): string {
    var pk := ",\"pk\":" + PrintThen(e.pk, ValuesTail(e));
    "{\"table\":" + QuoteThen(e.table, ",\"op\":" + QuoteThen(OpText(e.op), pk))
  }

  function ValuesTail(e: WriteEntry): string {
    if e.values != map[] then ",\"values\":" + PrintThen(Obj(e.values), ChangedTail(e)) else ChangedTail(e)
  }

  function ChangedTail(e: WriteEntry): string {
    if e.changed != map[] then ",\"changed\":" + PrintThen(Obj(e.changed), "}") else "}"
  }

  // The text of an entry: its members in the order of the struct, empty maps left out.
  lemma EntryTextIs(e: WriteEntry)
    ensures EntryText(e) == "{\"table\":" + Print(Str(e.table)) + ",\"op\":" + Print(Str(OpText(e.op)))
      + ",\"pk\":" + Print(e.pk)
      + (if e.values == map[] then "" else ",\"values\":" + Print(Obj(e.values)))
      + (if e.changed == map[] then "" else ",\"changed\":" + Print(Obj(e.changed))) + "}"
  {
    hide PrintThen, QuoteThen, OpText;
    var changed := if e.changed == map[] then "" else ",\"changed\":" + Print(Obj(e.changed));
    var values := if e.values == map[] then "" else ",\"values\":" + Print(Obj(e.values));
    PrintTail(Obj(e.changed), "}");
    assert ChangedTail(e) == changed + "}";
    PrintTail(Obj(e.values), ChangedTail(e));
    assert ValuesTail(e) == values + changed + "}";
    PrintTail(e.pk, ValuesTail(e));
    var pk := ",\"pk\":" + PrintThen(e.pk, ValuesTail(e));
    PrintTail(Str(OpText(e.op)), pk);
    var op := ",\"op\":" + QuoteThen(OpText(e.op), pk);
    PrintTail(Str(e.table), op);
  }

  lemma PrintTail(v: Value, x: string)
    ensures PrintThen(v, x) == Print(v) + x
    ensures v.Str? ==> QuoteThen(v.s, x) == Print(v) + x
  {
    PrintSplit(v, "", x);
    assert "" + x == x;
  }

  lemma ChangedTailInjective(e: WriteEntry, f: WriteEntry)
    requires ChangedTail(e) == ChangedTail(f)
    ensures e.changed == f.changed
  {
    assert (ChangedTail(e)[0] == ',') == (e.changed != map[]) && (ChangedTail(f)[0] == ',') == (f.changed != map[]);
    if e.changed != map[] {
      DropPrefix(",\"changed\":", PrintThen(Obj(e.changed), "}"), ",\"changed\":", PrintThen(Obj(f.changed), "}"));
      PrintPrefix(Obj(e.changed), "}", Obj(f.changed), "}");
    }
  }

  lemma ValuesTailStart(e: WriteEntry)
    ensures ValuesTail(e) != [] && ChangedTail(e) != [] && Ends(ValuesTail(e)) && Ends(ChangedTail(e))
    ensures e.values != map[] <==> |ValuesTail(e)| > 2 && ValuesTail(e)[2] == 'v'
  {
    if e.values != map[] {
      assert ValuesTail(e)[2] == 'v';
    } else if e.changed != map[] {
      assert ValuesTail(e)[2] == 'c';
    }
  }

  lemma OpTextInjective(a: Op, b: Op)
    requires OpText(a) == OpText(b)
    ensures a == b
  {
    assert OpText(a)[0] == OpText(b)[0];
  }

  lemma EntryTextInjective(e: WriteEntry, f: WriteEntry)
    requires EntryText(e) == EntryText(f)
    ensures e == f
  {
    var ve, vf := ValuesTail(e), ValuesTail(f);
    var pe, pf := ",\"pk\":" + PrintThen(e.pk, ve), ",\"pk\":" + PrintThen(f.pk, vf);
    var oe, of := ",\"op\":" + QuoteThen(OpText(e.op), pe), ",\"op\":" + QuoteThen(OpText(f.op), pf);
    ValuesTailStart(e);
    ValuesTailStart(f);
    DropPrefix("{\"table\":", QuoteThen(e.table, oe), "{\"table\":", QuoteThen(f.table, of));
    QuotePrefix(e.table, oe, f.table, of);
    DropPrefix(",\"op\":", QuoteThen(OpText(e.op), pe), ",\"op\":", QuoteThen(OpText(f.op), pf));
    QuotePrefix(OpText(e.op), pe, OpText(f.op), pf);
    OpTextInjective(e.op, f.op);
    DropPrefix(",\"pk\":", PrintThen(e.pk, ve), ",\"pk\":", PrintThen(f.pk, vf));
    PrintPrefix(e.pk, ve, f.pk, vf);
    if e.values != map[] {
      DropPrefix(",\"values\":", PrintThen(Obj(e.values), ChangedTail(e)),
                 ",\"values\":", PrintThen(Obj(f.values), ChangedTail(f)));
      PrintPrefix(Obj(e.values), ChangedTail(e), Obj(f.values), ChangedTail(f));
    }
    ChangedTailInjective(e, f);
  }

  // ----- the normal form --------------------------------------------------------------

  function Normalized(cs: seq<RowChange>, noise: seq<string>, ignore: seq<string>): seq<WriteEntry> {
    StableSort(Effects(cs, noise, ignore), EntryText)
  }

  lemma EntryTextUnique(a: seq<WriteEntry>)
    ensures Injective(a, EntryText)
  {
    forall x, y | x in a && y in a && EntryText(x) == EntryText(y) ensures x == y { EntryTextInjective(x, y); }
  }

  // sort.Slice, which promises order but not stability.
  method SortSlice(entries: seq<WriteEntry>) returns (sorted: seq<WriteEntry>)
    ensures SortedBy(sorted, EntryText) && multiset(sorted) == multiset(entries)
  {
    StableSortSpec(entries, EntryText);
    sorted := StableSort(entries, EntryText);
  }

  method CleanRow(table: string, row: Row, noise: seq<string>) returns (m: map<string, Value>)
    ensures m == Clean(table, row, noise)
  {
    m := map[];
    var keys := row.Keys;
    while keys != {}
      invariant keys <= row.Keys
      invariant m == map k | k in row && k !in keys && !ColIsNoise(table, k, noise) :: NormValue(row[k])
      decreases |keys|
    {
      var k :| k in keys;
      keys := keys - {k};
      if !ColIsNoise(table, k, noise) { m := m[k := NormValue(row[k])]; }
    }
  }

  lemma ChangedStep(before: map<string, Value>, after: map<string, Value>, done: set<string>, k: string)
    ensures ChangedAmong(before, after, done + {k})
      == if Differs(before, after, k) then ChangedAmong(before, after, done)[k := Delta(Col(before, k), Col(after, k))]
         else ChangedAmong(before, after, done)
  {
  }

  method CompareRows(before: map<string, Value>, after: map<string, Value>) returns (changed: map<string, Value>)
    ensures changed == ChangedColumns(before, after)
  {
    hide Differs, Delta, Col;
    changed := map[];
    var union := before.Keys + after.Keys;
    var keys := union;
    while keys != {}
      invariant keys <= union && changed == ChangedAmong(before, after, union - keys)
      decreases |keys|
    {
      var k :| k in keys;
      ChangedStep(before, after, union - keys, k);
      assert union - (keys - {k}) == (union - keys) + {k};
      keys := keys - {k};
      if Differs(before, after, k) { changed := changed[k := Delta(Col(before, k), Col(after, k))]; }
    }
    assert union - {} == union;
  }

  // The order in which maps are walked and the instability of the sort leave no trace.
  method NormalizeWriteset(changes: seq<RowChange>, noise: seq<string>, ignore: seq<string>)
    returns (out: seq<WriteEntry>)
    ensures out == Normalized(changes, noise, ignore)
  {
    out := [];
    var i := 0;
    while i < |changes|
      invariant i <= |changes| && out == Effects(changes[..i], noise, ignore)
    {
      var c := changes[i];
      EffectsSnoc(changes[..i], c, noise, ignore);
      assert changes[..i + 1] == changes[..i] + [c];
      i := i + 1;
      if !Ignored(c.table, ignore) {
        var before := CleanRow(c.table, Columns(c.before), noise);
        var after := CleanRow(c.table, Columns(c.after), noise);
        match c.op
        case UPDATE =>
          var changed := CompareRows(before, after);
          if changed != map[] {
            out := out + [WriteEntry(Bare(c.table), UPDATE, PrimaryKey(c), map[], changed)];
          }
        case INSERT => out := out + [WriteEntry(Bare(c.table), INSERT, PrimaryKey(c), after, map[])];
        case DELETE => out := out + [WriteEntry(Bare(c.table), DELETE, PrimaryKey(c), before, map[])];
      }
    }
    assert changes[..i] == changes;
    StableSortSpec(out, EntryText);
    EntryTextUnique(StableSort(out, EntryText));
    ghost var unsorted := out;
    out := SortSlice(out);
    SortedPermutationUnique(StableSort(unsorted, EntryText), out, EntryText);
  }

  lemma EffectsSnoc(cs: seq<RowChange>, c: RowChange, noise: seq<string>, ignore: seq<string>)
    ensures Effects(cs + [c], noise, ignore) == Effects(cs, noise, ignore) + Listed(Effect(c, noise, ignore))
  {
    EffectsConcat(cs, [c], noise, ignore);
    assert [c][1..] == [];
  }

  // Two write-sets normalise to the same sequence exactly when their effects are the same
  // multiset.
  lemma NormalizedExact(xs: seq<RowChange>, ys: seq<RowChange>, noise: seq<string>, ignore: seq<string>)
    ensures Normalized(xs, noise, ignore) == Normalized(ys, noise, ignore)
      <==> multiset(Effects(xs, noise, ignore)) == multiset(Effects(ys, noise, ignore))
  {
    EntryTextUnique(Effects(xs, noise, ignore));
    StableSortMultiset(Effects(xs, noise, ignore), Effects(ys, noise, ignore), EntryText);
  }

  // ----- observable effect only ---------------------------------------------------------

  // Both rows have the same columns off noise, with the same normalised values.
  ghost predicate RowsAgree(table: string, r: Option<Row>, s: Option<Row>, noise: seq<string>) {
    forall k :: !ColIsNoise(table, k, noise) ==>
      (k in Image(r) <==> k in Image(s))
      && (k in Image(r) && k in Image(s) ==> Reads(Image(r), k) == Reads(Image(s), k))
  }

  // The two changes may differ in SQL text and in noise columns other than the key.
  ghost predicate SameEffect(c: RowChange, d: RowChange, noise: seq<string>) {
    c.table == d.table && c.op == d.op && PrimaryKey(c) == PrimaryKey(d)
    && RowsAgree(c.table, c.before, d.before, noise) && RowsAgree(c.table, c.after, d.after, noise)
  }

  // On an ignored table, or an UPDATE that touches noise columns only.
  ghost predicate Silent(c: RowChange, noise: seq<string>, ignore: seq<string>) {
    Ignored(c.table, ignore) || (c.op.UPDATE? && forall k :: !ColIsNoise(c.table, k, noise) ==>
      Reads(Image(c.before), k) == Reads(Image(c.after), k))
  }

  // xs and ys have the same observable effect: silent changes aside, they pair off.
  ghost predicate SameObservable(xs: seq<RowChange>, ys: seq<RowChange>, noise: seq<string>, ignore: seq<string>) {
    if xs == [] then forall y :: y in ys ==> Silent(y, noise, ignore)
    else if Silent(xs[0], noise, ignore) then SameObservable(xs[1..], ys, noise, ignore)
    else exists j :: 0 <= j < |ys| && SameEffect(xs[0], ys[j], noise)
                     && SameObservable(xs[1..], ys[..j] + ys[j + 1..], noise, ignore)
  }

  lemma SilentExact(c: RowChange, noise: seq<string>, ignore: seq<string>)
    ensures Silent(c, noise, ignore) <==> Effect(c, noise, ignore) == None
  {
    var b, a := Columns(c.before), Columns(c.after);
    var cb, ca := Clean(c.table, b, noise), Clean(c.table, a, noise);
    forall k | !ColIsNoise(c.table, k, noise)
      ensures Col(cb, k) == Reads(b, k) && Col(ca, k) == Reads(a, k)
      ensures !Differs(cb, ca, k) <==> Reads(b, k) == Reads(a, k)
    {
      if Print(Col(cb, k)) == Print(Col(ca, k)) { PrintInjective(Col(cb, k), Col(ca, k)); }
    }
    if c.op.UPDATE? && !Ignored(c.table, ignore) {
      var changed := ChangedColumns(cb, ca);
      if Silent(c, noise, ignore) {
        assert changed.Keys == {};
      } else {
        var k :| !ColIsNoise(c.table, k, noise) && Reads(b, k) != Reads(a, k);
        assert k in changed;
      }
    }
  }

  lemma SameEffectSame(c: RowChange, d: RowChange, noise: seq<string>, ignore: seq<string>)
    requires SameEffect(c, d, noise)
    ensures Effect(c, noise, ignore) == Effect(d, noise, ignore)
  {
    assert Clean(c.table, Columns(c.before), noise) == Clean(d.table, Columns(d.before), noise);
    assert Clean(c.table, Columns(c.after), noise) == Clean(d.table, Columns(d.after), noise);
  }

  lemma EffectsRemove(ys: seq<RowChange>, j: nat, noise: seq<string>, ignore: seq<string>)
    requires j < |ys|
    ensures multiset(Effects(ys, noise, ignore))
      == multiset(Effects(ys[..j] + ys[j + 1..], noise, ignore)) + multiset(Listed(Effect(ys[j], noise, ignore)))
  {
    var before, after := ys[..j], ys[j + 1..];
    assert ys == before + ([ys[j]] + after);
    EffectsConcat(before, [ys[j]] + after, noise, ignore);
    EffectsConcat(before, after, noise, ignore);
    assert ([ys[j]] + after)[1..] == after;
  }

  lemma {:induction false} EffectsConcat(x: seq<RowChange>, y: seq<RowChange>, noise: seq<string>, ignore: seq<string>)
    ensures Effects(x + y, noise, ignore) == Effects(x, noise, ignore) + Effects(y, noise, ignore)
  {
    if x == [] {
      assert x + y == y;
    } else {
      assert (x + y)[1..] == x[1..] + y;
      EffectsConcat(x[1..], y, noise, ignore);
    }
  }

  lemma {:induction false} SilentEffects(ys: seq<RowChange>, noise: seq<string>, ignore: seq<string>)
    requires forall y :: y in ys ==> Silent(y, noise, ignore)
    ensures Effects(ys, noise, ignore) == []
  {
    if ys != [] {
      SilentExact(ys[0], noise, ignore);
      SilentEffects(ys[1..], noise, ignore);
    }
  }

  // The order in which changes were captured does not matter.
  lemma {:induction false} AnyOrder(xs: seq<RowChange>, ys: seq<RowChange>, noise: seq<string>, ignore: seq<string>)
    requires multiset(xs) == multiset(ys)
    ensures multiset(Effects(xs, noise, ignore)) == multiset(Effects(ys, noise, ignore))
    ensures Normalized(xs, noise, ignore) == Normalized(ys, noise, ignore)
  {
    hide Effect, EntryText;
    if xs == [] {
      assert |multiset(ys)| == |ys|;
    } else {
      assert xs[0] in multiset(ys);
      var j :| 0 <= j < |ys| && ys[j] == xs[0];
      MultisetWithout(ys, j);
      MultisetTail(xs);
      AnyOrder(xs[1..], ys[..j] + ys[j + 1..], noise, ignore);
      EffectsRemove(ys, j, noise, ignore);
    }
    NormalizedExact(xs, ys, noise, ignore);
  }

  // Reordering changes, rewriting their SQL, altering noise columns and inserting
  // noise-only updates leave the normal form as it is.
  lemma {:induction false} ObservableOnly(xs: seq<RowChange>, ys: seq<RowChange>, noise: seq<string>,
                                          ignore: seq<string>)
    requires SameObservable(xs, ys, noise, ignore)
    ensures multiset(Effects(xs, noise, ignore)) == multiset(Effects(ys, noise, ignore))
    ensures Normalized(xs, noise, ignore) == Normalized(ys, noise, ignore)
    decreases |xs|
  {
    if xs == [] {
      SilentEffects(ys, noise, ignore);
    } else {
      SilentExact(xs[0], noise, ignore);
      if Silent(xs[0], noise, ignore) {
        ObservableOnly(xs[1..], ys, noise, ignore);
      } else {
        var j :| 0 <= j < |ys| && SameEffect(xs[0], ys[j], noise)
                 && SameObservable(xs[1..], ys[..j] + ys[j + 1..], noise, ignore);
        ObservableOnly(xs[1..], ys[..j] + ys[j + 1..], noise, ignore);
        SameEffectSame(xs[0], ys[j], noise, ignore);
        EffectsRemove(ys, j, noise, ignore);
      }
    }
    NormalizedExact(xs, ys, noise, ignore);
  }
}
