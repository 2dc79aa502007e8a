// The write-set diff: entries are grouped by (table, op, pk), paired by position inside a
// group, and compared column by column.
module WritesetDiff {
  import opened Strings
  import opened Values
  import opened Sorting
  import opened Writesets
  import opened JsonDiff
  import opened Optional
  import opened Utf8

  function Key(e: WriteEntry): string { e.table + "|" + OpText(e.op) + "|" + Print(e.pk) }

  function Label(e: WriteEntry): string { e.table + "[" + OpText(e.op) + " pk=" + Print(e.pk) + "]" }

  // A missing column is compared as the text "<absent>".
  function Shown(p: map<string, Value>, k: string): Value { if k in p then p[k] else ABSENT }

  function ColDiff(tag: string, p: map<string, Value>, q: map<string, Value>, k: string): Difference {
    Difference("writeset", tag + "." + k, Shown(p, k), Shown(q, k))
  }

  ghost function ColDiffs(tag: string, p: map<string, Value>, q: map<string, Value>, keys: set<string>): set<Difference>
  {
    set k | k in keys && Print(Shown(p, k)) != Print(Shown(q, k)) :: ColDiff(tag, p, q, k)
  }

  ghost function PairDiffs(o: WriteEntry, n: WriteEntry): multiset<Difference> {
    if Print(Obj(o.Payload())) == Print(Obj(n.Payload())) then multiset{}
    else multiset(ColDiffs(Label(o), o.Payload(), n.Payload(), o.Payload().Keys + n.Payload().Keys))
  }

  function Gone(e: WriteEntry): Difference { Difference("writeset", Label(e), Obj(e.Payload()), ABSENT) }

  function Extra(e: WriteEntry): Difference { Difference("writeset", Label(e), ABSENT, Obj(e.Payload())) }

  // The report for one group. Its order is left open: columns come in map order, and
  // every paired entry re-sorts the report by path with an unstable sort.
  ghost function GroupDiffs(olds: seq<WriteEntry>, news: seq<WriteEntry>): multiset<Difference> {
    if olds == [] && news == [] then multiset{}
    else if news == [] then multiset{Gone(olds[0])} + GroupDiffs(olds[1..], news)
    else if olds == [] then multiset{Extra(news[0])} + GroupDiffs(olds, news[1..])
    else PairDiffs(olds[0], news[0]) + GroupDiffs(olds[1..], news[1..])
  }

  ghost function Group(ws: seq<WriteEntry>, k: string): seq<WriteEntry> { WithKey(ws, Key, k) }

  ghost function KeysOf(ws: seq<WriteEntry>): set<string> { set e | e in ws :: Key(e) }

  ghost function DiffsFor(keys: seq<string>, olds: seq<WriteEntry>, news: seq<WriteEntry>): multiset<Difference> {
    if keys == [] then multiset{}
    else GroupDiffs(Group(olds, keys[0]), Group(news, keys[0])) + DiffsFor(keys[1..], olds, news)
  }

  ghost function WritesetDiffs(olds: seq<WriteEntry>, news: seq<WriteEntry>): multiset<Difference> {
    DiffsFor(SortedKeys(KeysOf(olds) + KeysOf(news)), olds, news)
  }

  // ----- the key tells (table, op, pk) apart --------------------------------------------

  // Reading a text, outside or inside a string literal or after a backslash; Bad once a bar
  // or a backslash was read outside a literal, or a bar after a backslash.
  datatype State = Out | In | Esc | Bad

  ghost function Next(s: State, c: char): State {
    match s
    case Out => if c == '"' then In else if c == '|' || c == '\\' then Bad else Out
    case In => if c == '"' then Out else if c == '\\' then Esc else In
    case Esc => if c == '|' then Bad else In
    case Bad => Bad
  }

  ghost function Scan(s: State, t: string): State
    decreases |t|
  {
    if t == [] then s else Scan(Next(s, t[0]), t[1..])
  }

  lemma {:induction false} ScanConcat(s: State, a: string, b: string)
    ensures Scan(s, a + b) == Scan(Scan(s, a), b)
    decreases |a|
  {
    if a == [] {
      assert a + b == b;
    } else {
      assert (a + b)[1..] == a[1..] + b;
      ScanConcat(Next(s, a[0]), a[1..], b);
    }
  }

  lemma {:induction false} ScanBad(t: string)
    ensures Scan(Bad, t) == Bad
  {
    if t != [] { ScanBad(t[1..]); }
  }

  ghost predicate Plain(t: string) { forall i :: 0 <= i < |t| ==> t[i] != '"' && t[i] != '\\' && t[i] != '|' }

  // Text without quotes, backslashes and bars does not change the state.
  lemma {:induction false} ScanPlain(s: State, t: string)
    requires Plain(t) && s != Esc
    ensures Scan(s, t) == s
  {
    if t != [] { ScanPlain(s, t[1..]); }
  }

  lemma ScanPlainThen(s: State, t: string, x: string)
    requires Plain(t) && s != Esc
    ensures Scan(s, t + x) == Scan(s, x)
  {
    ScanConcat(s, t, x);
    ScanPlain(s, t);
  }

  lemma HexPlain(n: nat)
    requires n < 0x10000
    ensures Plain(Hex4(n))
  {
  }

  lemma ScanPiece(p: Option<char>, x: string)
    ensures Scan(In, Piece(p) + x) == Scan(In, x)
    ensures Scan(Out, Piece(p) + x) in {Scan(Out, x), Bad}
  {
    var e := Piece(p);
    ScanConcat(In, e, x);
    ScanConcat(Out, e, x);
    if e[0] == '\\' {
      assert Scan(Out, e) == Scan(Bad, e[1..]) && Scan(In, e) == Scan(Esc, e[1..]) == Scan(In, e[1..][1..]);
      ScanBad(e[1..]);
      ScanBad(x);
      assert Plain(e[1..][1..]) by {
        if |e| == 6 { HexPlain(Code(p)); assert e[1..][1..] == Hex4(Code(p)); }
      }
      ScanPlain(In, e[1..][1..]);
    } else {
      assert |e| == 1 && e[1..] == [];
      ScanBad(x);
    }
  }

  lemma ScanTorn(t: seq<Option<char>>, x: string)
    ensures Scan(Out, TornThen(t, x)) == Scan(Out, x)
    ensures Scan(In, TornThen(t, x)) in {Scan(In, x), Bad}
  {
    ScanLiteral(t, x);
    assert TornThen(t, x)[1..] == PiecesThen(t, ['"'] + x);
  }

  lemma {:induction false} ScanLiteral(t: seq<Option<char>>, x: string)
    ensures Scan(In, PiecesThen(t, ['"'] + x)) == Scan(Out, x)
    ensures Scan(Out, PiecesThen(t, ['"'] + x)) in {Scan(In, x), Bad}
  {
    if t == [] {
      assert (['"'] + x)[1..] == x;
    } else {
      ScanLiteral(t[1..], x);
      ScanPiece(t[0], PiecesThen(t[1..], ['"'] + x));
    }
  }

  lemma ScanQuote(s: string, x: string)
    ensures Scan(Out, QuoteThen(s, x)) == Scan(Out, x)
    ensures Scan(In, QuoteThen(s, x)) in {Scan(In, x), Bad}
  {
    QuoteIsTorn(s, x);
    ScanTorn(Sound(s), x);
  }

  // A printed value leaves the reader outside literals as it found it, with every bar
  // inside a literal; read from inside a literal, it cannot end outside one.
  lemma {:induction false} ScanPrint(v: Value, x: string)
    ensures Scan(Out, PrintThen(v, x)) == Scan(Out, x)
    ensures Scan(In, PrintThen(v, x)) in {Scan(In, x), Bad}
    decreases v, 1, 0
  {
    match v
    case Null => ScanPlainThen(Out, "null", x); ScanPlainThen(In, "null", x);
    case Bool(b) =>
      var t := if b then "true" else "false";
      ScanPlainThen(Out, t, x); ScanPlainThen(In, t, x);
    case Int(i) =>
      NumberTextNumeric(v);
      ScanPlainThen(Out, IntText(i), x); ScanPlainThen(In, IntText(i), x);
    case Frac(f) =>
      NumberTextNumeric(v);
      ScanPlainThen(Out, FracText(f), x); ScanPlainThen(In, FracText(f), x);
    case Str(s) => ScanQuote(s, x);
    case Torn(t) => ScanTorn(t, x);
    case Arr(_) =>
      ScanPlainThen(Out, ['['], ItemsThen(v, 0, x)); ScanPlainThen(In, ['['], ItemsThen(v, 0, x));
      ScanItems(v, 0, x);
    case Obj(fields) =>
      var ks := SortedKeys(fields.Keys);
      ScanPlainThen(Out, ['{'], FieldsThen(v, ks, x)); ScanPlainThen(In, ['{'], FieldsThen(v, ks, x));
      ScanFields(v, ks, x);
  }

  lemma {:induction false} ScanItems(v: Value, i: nat, x: string)
    requires v.Arr? && i <= |v.items|
    ensures Scan(Out, ItemsThen(v, i, x)) == Scan(Out, x)
    ensures Scan(In, ItemsThen(v, i, x)) in {Scan(In, x), Bad}
    decreases v, 0, |v.items| - i
  {
    ScanPlainThen(Out, [']'], x); ScanPlainThen(In, [']'], x);
    if i < |v.items| {
      var more := if i + 1 == |v.items| then [']'] + x else [','] + ItemsThen(v, i + 1, x);
      ScanPrint(v.items[i], more);
      if i + 1 < |v.items| {
        ScanPlainThen(Out, [','], ItemsThen(v, i + 1, x)); ScanPlainThen(In, [','], ItemsThen(v, i + 1, x));
        ScanItems(v, i + 1, x);
      }
    }
  }

  lemma {:induction false} ScanFields(v: Value, keys: seq<string>, x: string)
    requires v.Obj? && forall k :: k in keys ==> k in v.fields
    ensures Scan(Out, FieldsThen(v, keys, x)) == Scan(Out, x)
    ensures Scan(In, FieldsThen(v, keys, x)) in {Scan(In, x), Bad}
    decreases v, 0, |keys|
  {
    ScanPlainThen(Out, ['}'], x); ScanPlainThen(In, ['}'], x);
    if keys != [] {
      var more := if |keys| == 1 then ['}'] + x else [','] + FieldsThen(v, keys[1..], x);
      var value := PrintThen(v.fields[keys[0]], more);
      ScanQuote(keys[0], [':'] + value);
      ScanPlainThen(Out, [':'], value); ScanPlainThen(In, [':'], value);
      ScanPrint(v.fields[keys[0]], more);
      if |keys| > 1 {
        ScanPlainThen(Out, [','], FieldsThen(v, keys[1..], x)); ScanPlainThen(In, [','], FieldsThen(v, keys[1..], x));
        ScanFields(v, keys[1..], x);
      }
    }
  }

  ghost predicate NotBar(c: char) { c != '|' }

  lemma OpTextPlain(op: Op)
    ensures Plain(OpText(op))
  {
  }

  // Inside the canonical text of a value there is no bar followed by an operation, a bar
  // and another canonical text.
  lemma PrintHoldsNoKey(p: Value, z: string, op: Op, q: Value)
    ensures Print(p) != z + ("|" + (OpText(op) + ("|" + Print(q))))
  {
    hide PrintThen, OpText;
    ScanPrint(p, "");
    ScanPrint(q, "");
    OpTextPlain(op);
    var tail := OpText(op) + ("|" + Print(q));
    ScanConcat(Out, z, "|" + tail);
    assert ("|" + tail)[1..] == tail && ("|" + Print(q))[1..] == Print(q);
    ScanPlainThen(In, OpText(op), "|" + Print(q));
    ScanBad(tail);
  }

  // Two ways to read a text as a part, a bar and the rest: the longer part holds the
  // shorter one, a bar, and what is between the bars.
  lemma BarSplit(s: string, x: string, t: string, y: string) returns (z: string)
    requires s + ("|" + x) == t + ("|" + y) && |s| < |t|
    ensures t == s + ("|" + z) && x == z + ("|" + y) && t[|s|] == '|'
  {
    var u := s + ("|" + x);
    z := t[|s| + 1..];
    assert t[..|s|] == u[..|s|] == s && t[|s|] == u[|s|] == '|';
    assert t == s + ("|" + z);
    assert u == s + ("|" + (z + ("|" + y)));
    DropPrefix(s, "|" + x, s, "|" + (z + ("|" + y)));
    DropPrefix("|", x, "|", z + ("|" + y));
  }

  // The key without its table.
  ghost function Rest(e: WriteEntry): string { OpText(e.op) + ("|" + Print(e.pk)) }

  lemma KeyParts(e: WriteEntry)
    ensures Key(e) == e.table + ("|" + Rest(e))
    ensures Rest(e) != [] && Rest(e)[0] in "IUD" && All(OpText(e.op), NotBar)
  {
  }

  lemma RestInjective(e: WriteEntry, f: WriteEntry)
    requires Rest(e) == Rest(f)
    ensures e.op == f.op && e.pk == f.pk
  {
    TokenUnique(OpText(e.op), "|" + Print(e.pk), OpText(f.op), "|" + Print(f.pk), NotBar);
    DropPrefix("|", Print(e.pk), "|", Print(f.pk));
    OpTextInjective(e.op, f.op);
    PrintInjective(e.pk, f.pk);
  }

  lemma RestHoldsNoKey(e: WriteEntry, z: string, f: WriteEntry)
    ensures Rest(e) != z + ("|" + Rest(f))
  {
    KeyParts(e);
    KeyParts(f);
    PrintStart(e.pk, "");
    var o, p := OpText(e.op), Print(e.pk);
    assert p[0] !in "IUD" && |o| > 0;
    if Rest(e) == z + ("|" + Rest(f)) {
      if |z| < |o| {
        var w := BarSplit(z, Rest(f), o, p);
      } else if |z| == |o| {
        DropPrefix(o, "|" + p, z, "|" + Rest(f));
        DropPrefix("|", p, "|", Rest(f));
      } else {
        var w := BarSplit(o, p, z, Rest(f));
        PrintHoldsNoKey(e.pk, w, f.op, f.pk);
      }
    }
  }

  lemma KeyInjectiveOrdered(e: WriteEntry, f: WriteEntry)
    requires Key(e) == Key(f) && |e.table| <= |f.table|
    ensures e.table == f.table && e.op == f.op && e.pk == f.pk
  {
    KeyParts(e);
    KeyParts(f);
    if |e.table| == |f.table| {
      DropPrefix(e.table, "|" + Rest(e), f.table, "|" + Rest(f));
      DropPrefix("|", Rest(e), "|", Rest(f));
      RestInjective(e, f);
    } else {
      var z := BarSplit(e.table, Rest(e), f.table, Rest(f));
      RestHoldsNoKey(e, z, f);
    }
  }

  // The grouping key is unambiguous, bars in table names and in keys included.
  lemma KeyInjective(e: WriteEntry, f: WriteEntry)
    ensures Key(e) == Key(f) <==> e.table == f.table && e.op == f.op && e.pk == f.pk
  {
    if Key(e) == Key(f) {
      if |e.table| <= |f.table| { KeyInjectiveOrdered(e, f); } else { KeyInjectiveOrdered(f, e); }
    }
  }

  // ----- the diff computes the report -----------------------------------------------------

  lemma ColDiffsStep(tag: string, p: map<string, Value>, q: map<string, Value>, done: set<string>, k: string)
    requires k !in done
    ensures multiset(ColDiffs(tag, p, q, done + {k}))
      == multiset(ColDiffs(tag, p, q, done))
         + (if Print(Shown(p, k)) != Print(Shown(q, k)) then multiset{ColDiff(tag, p, q, k)} else multiset{})
  {
    var before, d := ColDiffs(tag, p, q, done), ColDiff(tag, p, q, k);
    forall x | x in done ensures ColDiff(tag, p, q, x) != d {
      if tag + "." + x == tag + "." + k { DropPrefix(tag + ".", x, tag + ".", k); }
    }
    assert d !in before;
    if Print(Shown(p, k)) != Print(Shown(q, k)) {
      assert ColDiffs(tag, p, q, done + {k}) == before + {d};
    } else {
      assert ColDiffs(tag, p, q, done + {k}) == before;
    }
  }

  lemma NoColDiffs(tag: string, p: map<string, Value>, q: map<string, Value>)
    ensures forall none: set<string> :: none == {} ==> ColDiffs(tag, p, q, none) == {}
  {
  }

  ghost function PathOf(d: Difference): string { d.path }

  // sort.Slice by path: any arrangement in path order.
  method SortByPath(ds: seq<Difference>) returns (sorted: seq<Difference>)
    ensures multiset(sorted) == multiset(ds) && SortedBy(sorted, PathOf)
  {
    var key := (d: Difference) => d.path;
    StableSortSpec(ds, key);
    sorted := StableSort(ds, key);
    forall i, j | 0 <= i < j < |sorted| ensures Le(PathOf(sorted[i]), PathOf(sorted[j])) {
      assert Le(key(sorted[i]), key(sorted[j]));
    }
  }

  // The differences of all columns but these are found.
  ghost predicate Listed(found: seq<Difference>, start: seq<Difference>, tag: string, p: map<string, Value>,
                         q: map<string, Value>, rest: set<string>)
  {
    multiset(found) == multiset(start) + multiset(ColDiffs(tag, p, q, p.Keys + q.Keys - rest))
  }

  lemma ListedNone(found: seq<Difference>, tag: string, p: map<string, Value>, q: map<string, Value>)
    ensures Listed(found, found, tag, p, q, p.Keys + q.Keys)
  {
    hide ColDiffs;
    NoColDiffs(tag, p, q);
    assert p.Keys + q.Keys - (p.Keys + q.Keys) == {};
  }

  lemma ListedAll(found: seq<Difference>, start: seq<Difference>, tag: string, p: map<string, Value>,
                  q: map<string, Value>)
    requires Listed(found, start, tag, p, q, {})
    ensures multiset(found) == multiset(start) + multiset(ColDiffs(tag, p, q, p.Keys + q.Keys))
  {
    hide ColDiffs;
    assert p.Keys + q.Keys - {} == p.Keys + q.Keys;
  }

  lemma ListedStep(found: seq<Difference>, start: seq<Difference>, tag: string, p: map<string, Value>,
                   q: map<string, Value>, rest: set<string>, k: string)
    requires Listed(found, start, tag, p, q, rest) && k in rest && rest <= p.Keys + q.Keys
    ensures Listed(if Print(Shown(p, k)) != Print(Shown(q, k)) then found + [ColDiff(tag, p, q, k)] else found,
                   start, tag, p, q, rest - {k})
  {
    hide ColDiffs, Shown, ColDiff, Print;
    var union := p.Keys + q.Keys;
    ColDiffsStep(tag, p, q, union - rest, k);
    assert union - (rest - {k}) == (union - rest) + {k};
  }

  method ListColumns(tag: string, p: map<string, Value>, q: map<string, Value>, out: DiffLog)
    modifies out
    ensures multiset(out.items) == multiset(old(out.items)) + multiset(ColDiffs(tag, p, q, p.Keys + q.Keys))
  {
    hide ColDiffs, Shown, ColDiff, Print, Listed;
    var keys := p.Keys + q.Keys;
    ListedNone(out.items, tag, p, q);
    while keys != {}
      invariant keys <= p.Keys + q.Keys && Listed(out.items, old(out.items), tag, p, q, keys)
      decreases |keys|
    {
      var k :| k in keys;
      ListedStep(out.items, old(out.items), tag, p, q, keys, k);
      if Print(Shown(p, k)) != Print(Shown(q, k)) {
        out.items := out.items + [ColDiff(tag, p, q, k)];
      }
      keys := keys - {k};
    }
    ListedAll(out.items, old(out.items), tag, p, q);
  }

  method DiffPayload(tag: string, p: map<string, Value>, q: map<string, Value>, out: DiffLog)
    modifies out
    ensures multiset(out.items) == multiset(old(out.items)) + multiset(ColDiffs(tag, p, q, p.Keys + q.Keys))
    ensures SortedBy(out.items, PathOf)
  {
    ListColumns(tag, p, q, out);
    out.items := SortByPath(out.items);
  }

  method DiffPair(o: WriteEntry, n: WriteEntry, out: DiffLog)
    modifies out
    ensures multiset(out.items) == multiset(old(out.items)) + PairDiffs(o, n)
  {
    if Print(Obj(o.Payload())) != Print(Obj(n.Payload())) {
      DiffPayload(Label(o), o.Payload(), n.Payload(), out);
    }
  }

  lemma GroupStep(olds: seq<WriteEntry>, news: seq<WriteEntry>, i: nat)
    requires i < |olds| && i < |news|
    ensures GroupDiffs(olds[i..], news[i..]) == PairDiffs(olds[i], news[i]) + GroupDiffs(olds[i + 1..], news[i + 1..])
  {
    assert olds[i..][1..] == olds[i + 1..] && news[i..][1..] == news[i + 1..];
  }

  method AddGone(olds: seq<WriteEntry>, out: DiffLog)
    modifies out
    ensures multiset(out.items) == multiset(old(out.items)) + GroupDiffs(olds, [])
  {
    ghost var goal := multiset(out.items) + GroupDiffs(olds, []);
    var j := 0;
    while j < |olds|
      invariant j <= |olds| && multiset(out.items) + GroupDiffs(olds[j..], []) == goal
    {
      assert olds[j..][1..] == olds[j + 1..];
      out.items := out.items + [Gone(olds[j])];
      j := j + 1;
    }
  }

  method AddExtra(news: seq<WriteEntry>, out: DiffLog)
    modifies out
    ensures multiset(out.items) == multiset(old(out.items)) + GroupDiffs([], news)
  {
    ghost var goal := multiset(out.items) + GroupDiffs([], news);
    var j := 0;
    while j < |news|
      invariant j <= |news| && multiset(out.items) + GroupDiffs([], news[j..]) == goal
    {
      assert news[j..][1..] == news[j + 1..];
      out.items := out.items + [Extra(news[j])];
      j := j + 1;
    }
  }

  method AddRest(olds: seq<WriteEntry>, news: seq<WriteEntry>, out: DiffLog)
    requires olds == [] || news == []
    modifies out
    ensures multiset(out.items) == multiset(old(out.items)) + GroupDiffs(olds, news)
  {
    AddGone(olds, out);
    AddExtra(news, out);
  }

  // Positional pairing, then what is left on either side.
  method DiffGroup(olds: seq<WriteEntry>, news: seq<WriteEntry>, out: DiffLog)
    modifies out
    ensures multiset(out.items) == multiset(old(out.items)) + GroupDiffs(olds, news)
  {
    hide GroupDiffs, PairDiffs;
    ghost var goal := multiset(out.items) + GroupDiffs(olds, news);
    var n := Min(|olds|, |news|);
    var i := 0;
    assert olds[0..] == olds && news[0..] == news;
    while i < n
      invariant i <= n && multiset(out.items) + GroupDiffs(olds[i..], news[i..]) == goal
    {
      GroupStep(olds, news, i);
      DiffPair(olds[i], news[i], out);
      i := i + 1;
    }
    AddRest(olds[n..], news[n..], out);
  }

  lemma {:induction false} WithKeySnoc(ws: seq<WriteEntry>, e: WriteEntry, k: string)
    ensures Group(ws + [e], k) == Group(ws, k) + (if Key(e) == k then [e] else [])
  {
    if ws == [] {
      assert ws + [e] == [e] && [e][1..] == [];
    } else {
      assert (ws + [e])[1..] == ws[1..] + [e];
      WithKeySnoc(ws[1..], e, k);
    }
  }

  function Bucket(m: map<string, seq<WriteEntry>>, k: string): seq<WriteEntry> { if k in m then m[k] else [] }

  // The buckets hold every group of ws, in order.
  ghost predicate Buckets(m: map<string, seq<WriteEntry>>, ws: seq<WriteEntry>) {
    m.Keys == KeysOf(ws) && forall k :: Bucket(m, k) == Group(ws, k)
  }

  function Put(m: map<string, seq<WriteEntry>>, e: WriteEntry): map<string, seq<WriteEntry>> {
    m[Key(e) := Bucket(m, Key(e)) + [e]]
  }

  lemma BucketsEmpty()
    ensures Buckets(map[], [])
  {
  }

  lemma BucketsSnoc(m: map<string, seq<WriteEntry>>, ws: seq<WriteEntry>, i: nat)
    requires i < |ws| && Buckets(m, ws[..i])
    ensures Buckets(Put(m, ws[i]), ws[..i + 1])
  {
    assert ws[..i + 1] == ws[..i] + [ws[i]];
    BucketsPut(m, ws[..i], ws[i]);
  }

  lemma BucketsPut(m: map<string, seq<WriteEntry>>, ws: seq<WriteEntry>, e: WriteEntry)
    requires Buckets(m, ws)
    ensures Buckets(Put(m, e), ws + [e])
  {
    forall k ensures Bucket(Put(m, e), k) == Group(ws + [e], k) {
      WithKeySnoc(ws, e, k);
      assert Bucket(m, k) == Group(ws, k);
    }
    assert KeysOf(ws + [e]) == KeysOf(ws) + {Key(e)} by {
      assert forall x :: x in ws + [e] <==> x in ws || x == e;
    }
  }

  method GroupBy(ws: seq<WriteEntry>) returns (m: map<string, seq<WriteEntry>>)
    ensures Buckets(m, ws)
  {
    m := map[];
    var i := 0;
    BucketsEmpty();
    while i < |ws|
      invariant i <= |ws| && Buckets(m, ws[..i])
    {
      BucketsSnoc(m, ws, i);
      m := Put(m, ws[i]);
      i := i + 1;
    }
    assert ws[..i] == ws;
  }

  lemma DiffsForStep(keys: seq<string>, olds: seq<WriteEntry>, news: seq<WriteEntry>, i: nat)
    requires i < |keys|
    ensures DiffsFor(keys[i..], olds, news)
      == GroupDiffs(Group(olds, keys[i]), Group(news, keys[i])) + DiffsFor(keys[i + 1..], olds, news)
  {
    hide GroupDiffs, Group;
    assert keys[i..][1..] == keys[i + 1..];
  }

  method DiffKeys(keys: seq<string>, oldBy: map<string, seq<WriteEntry>>, newBy: map<string, seq<WriteEntry>>,
                  out: DiffLog, ghost olds: seq<WriteEntry>, ghost news: seq<WriteEntry>)
    requires Buckets(oldBy, olds) && Buckets(newBy, news)
    modifies out
    ensures multiset(out.items) == multiset(old(out.items)) + DiffsFor(keys, olds, news)
  {
    hide GroupDiffs, Group;
    ghost var goal := multiset(out.items) + DiffsFor(keys, olds, news);
    var i := 0;
    assert keys[0..] == keys;
    while i < |keys|
      invariant i <= |keys| && multiset(out.items) + DiffsFor(keys[i..], olds, news) == goal
    {
      hide DiffsFor;
      DiffsForStep(keys, olds, news, i);
      DiffGroup(Bucket(oldBy, keys[i]), Bucket(newBy, keys[i]), out);
      i := i + 1;
    }
  }

  method DiffWritesets(olds: seq<WriteEntry>, news: seq<WriteEntry>) returns (diffs: seq<Difference>)
    ensures multiset(diffs) == WritesetDiffs(olds, news)
  {
    var oldBy := GroupBy(olds);
    var newBy := GroupBy(news);
    var out := new DiffLog();
    DiffKeys(SortedKeys(oldBy.Keys + newBy.Keys), oldBy, newBy, out, olds, news);
    diffs := out.items;
  }

  // ----- what an empty report means ---------------------------------------------------------

  // A payload as the comparison sees it: a column holding the text "<absent>" is as good
  // as missing.
  ghost function View(p: map<string, Value>): map<string, Value> { map k | k in p && p[k] != ABSENT :: p[k] }

  ghost predicate GroupsAgree(olds: seq<WriteEntry>, news: seq<WriteEntry>) {
    |olds| == |news| && forall i :: 0 <= i < |olds| ==> View(olds[i].Payload()) == View(news[i].Payload())
  }

  lemma ColDiffsExact(tag: string, p: map<string, Value>, q: map<string, Value>)
    ensures ColDiffs(tag, p, q, p.Keys + q.Keys) == {} <==> View(p) == View(q)
  {
    var ds := ColDiffs(tag, p, q, p.Keys + q.Keys);
    forall k ensures Print(Shown(p, k)) == Print(Shown(q, k)) <==> Shown(p, k) == Shown(q, k) {
      if Print(Shown(p, k)) == Print(Shown(q, k)) { PrintInjective(Shown(p, k), Shown(q, k)); }
    }
    if ds == {} {
      forall k ensures Shown(p, k) == Shown(q, k) {
        assert k in p.Keys + q.Keys && Print(Shown(p, k)) != Print(Shown(q, k)) ==> ColDiff(tag, p, q, k) in ds;
      }
      forall k ensures k in View(p) <==> k in View(q) { assert Shown(p, k) == Shown(q, k); }
      forall k | k in View(p) ensures View(p)[k] == View(q)[k] { assert Shown(p, k) == Shown(q, k); }
    }
    if View(p) == View(q) {
      forall k ensures Shown(p, k) == Shown(q, k) {
        assert k in View(p) <==> k in View(q);
        assert k in View(p) ==> View(p)[k] == View(q)[k];
      }
    }
  }

  lemma PairDiffsExact(o: WriteEntry, n: WriteEntry)
    ensures PairDiffs(o, n) == multiset{} <==> View(o.Payload()) == View(n.Payload())
  {
    var p, q := o.Payload(), n.Payload();
    var ds := ColDiffs(Label(o), p, q, p.Keys + q.Keys);
    ColDiffsExact(Label(o), p, q);
    if Print(Obj(p)) == Print(Obj(q)) {
      PrintInjective(Obj(p), Obj(q));
    } else {
      if ds != {} { var d :| d in ds; assert d in multiset(ds); }
      assert ds == {} ==> multiset(ds) == multiset{};
    }
  }

  lemma {:induction false} GroupDiffsExact(olds: seq<WriteEntry>, news: seq<WriteEntry>)
    ensures GroupDiffs(olds, news) == multiset{} <==> GroupsAgree(olds, news)
  {
    hide PairDiffs, View, Gone, Extra, GroupsAgree;
    AgreeCons(olds, news);
    if olds == [] && news == [] {
    } else if news == [] {
      assert Gone(olds[0]) in GroupDiffs(olds, news);
    } else if olds == [] {
      assert Extra(news[0]) in GroupDiffs(olds, news);
    } else {
      PairDiffsExact(olds[0], news[0]);
      GroupDiffsExact(olds[1..], news[1..]);
      UnionEmpty(PairDiffs(olds[0], news[0]), GroupDiffs(olds[1..], news[1..]));
    }
  }

  lemma AgreeCons(olds: seq<WriteEntry>, news: seq<WriteEntry>)
    ensures olds == [] || news == [] ==> (GroupsAgree(olds, news) <==> olds == news)
    ensures olds != [] && news != [] ==>
              (GroupsAgree(olds, news)
               <==> View(olds[0].Payload()) == View(news[0].Payload()) && GroupsAgree(olds[1..], news[1..]))
  {
    hide View;
    if olds != [] && news != [] && GroupsAgree(olds[1..], news[1..]) {
      assert forall i :: 0 < i < |olds| ==> olds[i] == olds[1..][i - 1] && news[i] == news[1..][i - 1];
    }
  }

  lemma UnionEmpty<T>(a: multiset<T>, b: multiset<T>)
    ensures a + b == multiset{} <==> a == multiset{} && b == multiset{}
  {
    assert |a + b| == |a| + |b|;
  }

  lemma {:induction false} DiffsForExact(keys: seq<string>, olds: seq<WriteEntry>, news: seq<WriteEntry>)
    ensures DiffsFor(keys, olds, news) == multiset{}
      <==> forall k :: k in keys ==> GroupsAgree(Group(olds, k), Group(news, k))
  {
    if keys != [] {
      GroupDiffsExact(Group(olds, keys[0]), Group(news, keys[0]));
      DiffsForExact(keys[1..], olds, news);
      UnionEmpty(GroupDiffs(Group(olds, keys[0]), Group(news, keys[0])), DiffsFor(keys[1..], olds, news));
    }
  }

  lemma {:induction false} GroupEmpty(ws: seq<WriteEntry>, k: string)
    requires k !in KeysOf(ws)
    ensures Group(ws, k) == []
  {
    if ws != [] {
      assert Key(ws[0]) in KeysOf(ws);
      assert KeysOf(ws[1..]) <= KeysOf(ws);
      GroupEmpty(ws[1..], k);
    }
  }

  // For all write-sets: the report is empty exactly when in every (table, op, pk) group the
  // entries agree position by position, up to columns holding the text "<absent>".
  lemma DiffExact(olds: seq<WriteEntry>, news: seq<WriteEntry>)
    ensures WritesetDiffs(olds, news) == multiset{} <==> forall k :: GroupsAgree(Group(olds, k), Group(news, k))
  {
    var keys := SortedKeys(KeysOf(olds) + KeysOf(news));
    DiffsForExact(keys, olds, news);
    forall k | k !in keys ensures GroupsAgree(Group(olds, k), Group(news, k)) {
      GroupEmpty(olds, k);
      GroupEmpty(news, k);
    }
  }

  // The columns an entry is compared by: those changed, or if there are none, its values.
  ghost function Compared(e: WriteEntry): map<string, Value> { if |e.changed| > 0 then e.changed else e.values }

  ghost function Place(e: WriteEntry): string { e.table + "[" + OpText(e.op) + " pk=" + Print(e.pk) + "]" }

  // The column k is shown on both sides, "<absent>" where it is missing.
  ghost predicate ShowsColumn(d: Difference, o: WriteEntry, n: WriteEntry, k: string) {
    && d.kind == "writeset" && d.path == Place(o) + "." + k
    && d.was == (if k in Compared(o) then Compared(o)[k] else Str("<absent>"))
    && d.now == (if k in Compared(n) then Compared(n)[k] else Str("<absent>"))
  }

  // What the entries at position i of two groups have to report: a column they show
  // differently, or an entry without a partner.
  ghost predicate Reports(olds: seq<WriteEntry>, news: seq<WriteEntry>, i: nat, d: Difference) {
    if i < |olds| && i < |news| then
      (exists k :: ShowsColumn(d, olds[i], news[i], k)) && d.was != d.now
    else
      || (i < |olds| && d == Difference("writeset", Place(olds[i]), Obj(Compared(olds[i])), Str("<absent>")))
      || (i < |news| && d == Difference("writeset", Place(news[i]), Str("<absent>"), Obj(Compared(news[i]))))
  }

  lemma ComparedIs(e: WriteEntry)
    ensures Compared(e) == e.Payload() && Place(e) == Label(e)
  {
    if |e.changed| == 0 { assert e.changed.Keys == {}; }
  }

  lemma ColumnIs(d: Difference, o: WriteEntry, n: WriteEntry, k: string)
    ensures ShowsColumn(d, o, n, k) <==> d == ColDiff(Label(o), o.Payload(), n.Payload(), k)
  {
    ComparedIs(o);
    ComparedIs(n);
  }

  lemma PairReports(o: WriteEntry, n: WriteEntry, d: Difference)
    ensures d in PairDiffs(o, n) <==> (exists k :: ShowsColumn(d, o, n, k)) && d.was != d.now
    ensures PairDiffs(o, n)[d] <= 1
  {
    var p, q := o.Payload(), n.Payload();
    forall k ensures Print(Shown(p, k)) != Print(Shown(q, k)) <==> Shown(p, k) != Shown(q, k) {
      if Print(Shown(p, k)) == Print(Shown(q, k)) { PrintInjective(Shown(p, k), Shown(q, k)); }
    }
    forall k ensures ShowsColumn(d, o, n, k) <==> d == ColDiff(Label(o), p, q, k) { ColumnIs(d, o, n, k); }
    hide ShowsColumn, Label;
    if Print(Obj(p)) == Print(Obj(q)) { PrintInjective(Obj(p), Obj(q)); }
    if k :| d == ColDiff(Label(o), p, q, k) && d.was != d.now {
      assert k in p.Keys + q.Keys;
      assert d in ColDiffs(Label(o), p, q, p.Keys + q.Keys);
    }
  }

  ghost function Later(ws: seq<WriteEntry>): seq<WriteEntry> { if ws == [] then [] else ws[1..] }

  lemma LaterReports(olds: seq<WriteEntry>, news: seq<WriteEntry>, i: nat, d: Difference)
    ensures Reports(olds, news, i + 1, d) <==> Reports(Later(olds), Later(news), i, d)
  {
    hide ShowsColumn, Place, Compared;
  }

  // The positions of a group that report d.
  ghost function Positions(olds: seq<WriteEntry>, news: seq<WriteEntry>, d: Difference): set<nat> {
    set i: nat | 0 <= i < |olds| + |news| && Reports(olds, news, i, d)
  }

  lemma FirstReports(olds: seq<WriteEntry>, news: seq<WriteEntry>, d: Difference)
    requires olds != [] || news != []
    ensures GroupDiffs(olds, news)[d]
      == GroupDiffs(Later(olds), Later(news))[d] + (if Reports(olds, news, 0, d) then 1 else 0)
  {
    if olds != [] { ComparedIs(olds[0]); }
    if news != [] { ComparedIs(news[0]); }
    if olds != [] && news != [] { PairReports(olds[0], news[0], d); }
    hide ShowsColumn, Label, Place, Compared, PairDiffs;
  }

  lemma PositionsStep(olds: seq<WriteEntry>, news: seq<WriteEntry>, d: Difference)
    requires olds != [] || news != []
    ensures |Positions(olds, news, d)|
      == |Positions(Later(olds), Later(news), d)| + (if Reports(olds, news, 0, d) then 1 else 0)
  {
    hide Reports;
    var here, later := Positions(olds, news, d), Positions(Later(olds), Later(news), d);
    var moved := set i | i in here && i > 0;
    forall i: nat ensures Reports(olds, news, i + 1, d) <==> Reports(Later(olds), Later(news), i, d) {
      LaterReports(olds, news, i, d);
    }
    assert forall i: nat :: Reports(olds, news, i, d) ==> i < |olds| || i < |news| by {
      forall i: nat | Reports(olds, news, i, d) ensures i < |olds| || i < |news| { Inside(olds, news, i, d); }
    }
    assert forall i: nat :: Reports(Later(olds), Later(news), i, d) ==> i + 1 < |olds| || i + 1 < |news| by {
      forall i: nat | Reports(Later(olds), Later(news), i, d) ensures i + 1 < |olds| || i + 1 < |news| {
        Inside(Later(olds), Later(news), i, d);
      }
    }
    Moved(later, moved);
    assert here == moved + (if Reports(olds, news, 0, d) then {0} else {});
  }

  lemma Inside(olds: seq<WriteEntry>, news: seq<WriteEntry>, i: nat, d: Difference)
    requires Reports(olds, news, i, d)
    ensures i < |olds| || i < |news|
  {
  }

  lemma {:induction false} Moved(s: set<nat>, t: set<nat>)
    requires forall i: nat :: i in t <==> i > 0 && i - 1 in s
    ensures |t| == |s|
  {
    if s != {} {
      var x :| x in s;
      assert x + 1 in t;
      Moved(s - {x}, t - {x + 1});
    } else {
      assert t == {};
    }
  }

  // Each position reports each of its differences once.
  lemma {:induction false} GroupReports(olds: seq<WriteEntry>, news: seq<WriteEntry>, d: Difference)
    ensures GroupDiffs(olds, news)[d] == |Positions(olds, news, d)|
    decreases |olds| + |news|
  {
    if olds != [] || news != [] {
      hide GroupDiffs, Reports, Positions;
      GroupReports(Later(olds), Later(news), d);
      FirstReports(olds, news, d);
      PositionsStep(olds, news, d);
    }
  }

  // The places of the whole report that hold d: a group and a position in it.
  ghost function Places(keys: set<string>, olds: seq<WriteEntry>, news: seq<WriteEntry>, d: Difference)
    : set<(string, nat)>
  {
    set k, i | k in keys && i in Positions(Group(olds, k), Group(news, k), d) :: (k, i)
  }

  lemma PlacesStep(k: string, rest: set<string>, olds: seq<WriteEntry>, news: seq<WriteEntry>, d: Difference)
    requires k !in rest
    ensures |Places(rest + {k}, olds, news, d)|
      == |Places(rest, olds, news, d)| + |Positions(Group(olds, k), Group(news, k), d)|
  {
    hide Group, Positions;
    var ps := Positions(Group(olds, k), Group(news, k), d);
    var here := set i | i in ps :: (k, i);
    Paired(k, ps, here);
    assert Places(rest + {k}, olds, news, d) == Places(rest, olds, news, d) + here;
  }

  lemma {:induction false} Paired(k: string, ps: set<nat>, here: set<(string, nat)>)
    requires here == set i | i in ps :: (k, i)
    ensures |here| == |ps|
  {
    if ps != {} {
      var x :| x in ps;
      Paired(k, ps - {x}, here - {(k, x)});
      assert here == (here - {(k, x)}) + {(k, x)};
    }
  }

  lemma {:induction false} KeysReport(keys: seq<string>, olds: seq<WriteEntry>, news: seq<WriteEntry>, d: Difference)
    requires forall i, j :: 0 <= i < j < |keys| ==> keys[i] != keys[j]
    ensures DiffsFor(keys, olds, news)[d] == |Places((set k | k in keys), olds, news, d)|
  {
    if keys != [] {
      hide Group, GroupDiffs, Positions, Places;
      var rest := set k | k in keys[1..];
      KeysReport(keys[1..], olds, news, d);
      GroupReports(Group(olds, keys[0]), Group(news, keys[0]), d);
      PlacesStep(keys[0], rest, olds, news, d);
      assert (set k | k in keys) == rest + {keys[0]};
    } else {
      assert Places((set k | k in keys), olds, news, d) == {};
    }
  }

  // The report is true and complete: it holds each difference as often as there are positions
  // that have it to report, old sides under old and new sides under new.
  lemma ReportExact(olds: seq<WriteEntry>, news: seq<WriteEntry>, d: Difference)
    ensures WritesetDiffs(olds, news)[d] == |Places(KeysOf(olds) + KeysOf(news), olds, news, d)|
  {
    hide Group, GroupDiffs, Reports, Key, Places;
    var keys := SortedKeys(KeysOf(olds) + KeysOf(news));
    SortedKeysDistinct(KeysOf(olds) + KeysOf(news));
    KeysReport(keys, olds, news, d);
    assert (set k | k in keys) == KeysOf(olds) + KeysOf(news);
  }

  // Entries as NormalizeWriteset makes them: exactly UPDATEs carry changes, and some.
  ghost predicate Formed(e: WriteEntry) {
    if e.op.UPDATE? then e.values == map[] && e.changed != map[] else e.changed == map[]
  }

  ghost predicate NoAbsentText(ws: seq<WriteEntry>) {
    forall e, k :: e in ws && k in e.Payload() ==> e.Payload()[k] != ABSENT
  }

  ghost predicate NormalForm(ws: seq<WriteEntry>) {
    SortedBy(ws, EntryText) && forall e :: e in ws ==> Formed(e)
  }

  lemma {:induction false} GroupMembers(ws: seq<WriteEntry>, k: string)
    ensures forall e :: e in Group(ws, k) ==> e in ws && Key(e) == k
  {
    if ws != [] { GroupMembers(ws[1..], k); }
  }

  lemma SameEntry(e: WriteEntry, f: WriteEntry)
    requires Formed(e) && Formed(f) && Key(e) == Key(f) && e.Payload() == f.Payload()
    ensures e == f
  {
    KeyInjective(e, f);
  }

  lemma ViewWhole(p: map<string, Value>)
    requires forall k :: k in p ==> p[k] != ABSENT
    ensures View(p) == p
  {
  }

  lemma SameGroups(olds: seq<WriteEntry>, news: seq<WriteEntry>, k: string)
    requires NormalForm(olds) && NormalForm(news) && NoAbsentText(olds) && NoAbsentText(news)
    requires GroupsAgree(Group(olds, k), Group(news, k))
    ensures Group(olds, k) == Group(news, k)
  {
    var a, b := Group(olds, k), Group(news, k);
    GroupMembers(olds, k);
    GroupMembers(news, k);
    forall i | 0 <= i < |a| ensures a[i] == b[i] {
      assert a[i] in a && b[i] in b;
      ViewWhole(a[i].Payload());
      ViewWhole(b[i].Payload());
      SameEntry(a[i], b[i]);
    }
  }

  // For two normalised write-sets with no column value equal to the text "<absent>", the
  // report is empty exactly when they are equal as multisets of entries: positional
  // pairing loses nothing, because the canonical sort fixes every group's order.
  lemma NormalDiffExact(olds: seq<WriteEntry>, news: seq<WriteEntry>)
    requires NormalForm(olds) && NormalForm(news) && NoAbsentText(olds) && NoAbsentText(news)
    ensures WritesetDiffs(olds, news) == multiset{} <==> multiset(olds) == multiset(news)
    ensures multiset(olds) == multiset(news) <==> olds == news
  {
    DiffExact(olds, news);
    if WritesetDiffs(olds, news) == multiset{} {
      forall k ensures WithKey(olds, Key, k) == WithKey(news, Key, k) {
        assert GroupsAgree(Group(olds, k), Group(news, k));
        SameGroups(olds, news, k);
      }
      assert SameClasses(olds, news, Key);
      StableSortEqual(olds, news, Key);
      StableSortSpec(olds, Key);
      StableSortSpec(news, Key);
    }
    if multiset(olds) == multiset(news) {
      EntryTextUnique(olds);
      SortedPermutationUnique(olds, news, EntryText);
    }
  }

  // Equal write-sets give an empty report, whatever they hold.
  lemma SelfDiffEmpty(ws: seq<WriteEntry>)
    ensures WritesetDiffs(ws, ws) == multiset{}
  {
    DiffExact(ws, ws);
  }

  lemma SingletonsHidden(o: WriteEntry, n: WriteEntry)
    requires Key(o) == Key(n) && View(o.Payload()) == View(n.Payload())
    ensures WritesetDiffs([o], [n]) == multiset{}
  {
    forall k ensures GroupsAgree(Group([o], k), Group([n], k)) {
      WithKeySnoc([], o, k);
      WithKeySnoc([], n, k);
      assert [] + [o] == [o] && [] + [n] == [n];
    }
    DiffExact([o], [n]);
  }

  // The condition is needed: a column that holds the text "<absent>" hides a missing column.
  lemma AbsentHides(table: string, pk: Value)
    ensures var o := WriteEntry(table, INSERT, pk, map["note" := ABSENT], map[]);
            var n := WriteEntry(table, INSERT, pk, map[], map[]);
            NormalForm([o]) && NormalForm([n]) && o != n && WritesetDiffs([o], [n]) == multiset{}
  {
    var o := WriteEntry(table, INSERT, pk, map["note" := ABSENT], map[]);
    var n := WriteEntry(table, INSERT, pk, map[], map[]);
    assert "note" in o.values && "note" !in n.values;
    KeyInjective(o, n);
    assert View(o.Payload()) == map[] && View(n.Payload()) == map[];
    SingletonsHidden(o, n);
  }

  // NormalizeWriteset produces write-sets in this form.
  lemma {:induction false} EffectsFormed(cs: seq<RowChange>, noise: seq<string>, ignore: seq<string>)
    ensures forall e :: e in Effects(cs, noise, ignore) ==> Formed(e)
  {
    if cs != [] { EffectsFormed(cs[1..], noise, ignore); }
  }

  lemma NormalizedForm(cs: seq<RowChange>, noise: seq<string>, ignore: seq<string>)
    ensures NormalForm(Normalized(cs, noise, ignore))
  {
    var es, ws := Effects(cs, noise, ignore), Normalized(cs, noise, ignore);
    StableSortSpec(es, EntryText);
    EffectsFormed(cs, noise, ignore);
    forall e | e in ws ensures Formed(e) { assert e in multiset(ws) && e in multiset(es); }
  }
}
