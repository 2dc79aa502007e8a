// Writing a golden file and reading it back.
module GoldenFile {
  import opened Values
  import opened Sorting
  import opened Optional
  import opened Utf8
  import opened Golden
  import opened GoldenText
  import Json
  import opened Strings
  import opened Timestamps

  const BUFFER := 4 * 1024 * 1024

  // The scanner's buffer must hold the line and its newline.
  predicate Fits(l: Line) { |Encode(l.text)| < BUFFER }

  predicate IsSpace(c: char) {
    c in "\t\n\U{000B}\U{000C}\r \U{0085}\U{00A0}\U{1680}\U{2028}\U{2029}\U{202F}\U{205F}\U{3000}"
    || 0x2000 <= c as int <= 0x200A
  }

  predicate Blank(text: string) { forall c :: c in text ==> IsSpace(c) }

  // The line that holds a value: its canonical text, and what that reads back as.
  function LineOf(v: Value): Line { Line(Print(v), Some(Json.Seen(v))) }

  lemma LineParses(v: Value)
    ensures LineOf(v).json == Json.Parse(LineOf(v).text)
  {
    Json.ParsePrinted(v);
  }

  // The type tag of a line; a value that is neither an object nor null has none.
  function Probe(v: Value): Option<string> {
    if v == Null then Some("") else if v.Obj? then StrAt(v.fields, "type") else None
  }

  datatype ReadResult = Loaded(meta: Meta, entries: seq<Entry>) | TooLong | BadLine(number: nat)

  // ----- reading --------------------------------------------------------------------------

  // What one line does to the reader: nothing, new meta or entry, or an error.
  datatype Effect = Skip | SetMeta(meta: Meta) | AddEntry(entry: Entry) | Reject

  function LineEffect(l: Line, meta: Meta): Effect {
    if Blank(l.text) then Skip
    else match l.json
      case None => Reject
      case Some(v) =>
        match Probe(v)
        case None => Reject
        case Some(tag) =>
          if tag == "meta" && v.Obj? then (match DecodeMeta(v, meta) case None => Reject case Some(m) => SetMeta(m))
          else if tag == "entry" && v.Obj? then (match DecodeEntry(v) case None => Reject case Some(e) => AddEntry(e))
          else Skip
  }

  // The white space of Unicode.
  ghost const WHITE := {
    '\t', '\n', '\U{000B}', '\U{000C}', '\r', ' ', '\U{0085}', '\U{00A0}', '\U{1680}', '\U{2000}', '\U{2001}',
    '\U{2002}', '\U{2003}', '\U{2004}', '\U{2005}', '\U{2006}', '\U{2007}', '\U{2008}', '\U{2009}', '\U{200A}',
    '\U{2028}', '\U{2029}', '\U{202F}', '\U{205F}', '\U{3000}'}

  // An object with this type; without one it is empty.
  ghost predicate Typed(v: Value, tag: string) { v.Obj? && TextOk(v.fields, "type") && TextAt(v.fields, "type") == tag }

  lemma SpaceIs(c: char)
    ensures IsSpace(c) <==> c in WHITE
  {
  }

  // What each line does: white space is skipped; a text that is not JSON, a value that is no
  // object, and a type or a member of another type than expected are errors; null and
  // objects of another type are skipped.
  lemma LineMeaning(l: Line, meta: Meta)
    ensures var r, blank := LineEffect(l, meta), forall c :: c in l.text ==> c in WHITE;
            && (blank ==> r == Skip)
            && (!blank && l.json == None ==> r == Reject)
            && (!blank && l.json == Some(Null) ==> r == Skip)
            && (!blank && l.json != None && l.json.value != Null ==>
                  var v := l.json.value;
                  if Typed(v, "meta") then
                    r == (if DecodeMeta(v, meta) == None then Reject else SetMeta(DecodeMeta(v, meta).value))
                  else if Typed(v, "entry") then
                    r == (if DecodeEntry(v) == None then Reject else AddEntry(DecodeEntry(v).value))
                  else r == if v.Obj? && TextOk(v.fields, "type") then Skip else Reject)
  {
    hide DecodeMeta, DecodeEntry, IsSpace;
    forall c ensures IsSpace(c) <==> c in WHITE { SpaceIs(c); }
  }

  function TsOf(e: Entry): string { e.ts }

  function ReadFrom(lines: seq<Line>, i: nat, meta: Meta, entries: seq<Entry>): ReadResult
    requires i <= |lines|
    decreases |lines| - i
  {
    if i == |lines| then Loaded(meta, StableSort(entries, TsOf))
    else if !Fits(lines[i]) then TooLong
    else match LineEffect(lines[i], meta)
      case Skip => ReadFrom(lines, i + 1, meta, entries)
      case SetMeta(m) => ReadFrom(lines, i + 1, m, entries)
      case AddEntry(e) => ReadFrom(lines, i + 1, meta, entries + [e])
      case Reject => BadLine(i + 1)
  }

  // Meta and entries of a whole file.
  function ReadAll(lines: seq<Line>): ReadResult { ReadFrom(lines, 0, NOMETA, []) }

  method Read(lines: seq<Line>) returns (r: ReadResult)
    ensures r == ReadAll(lines)
  {
    var meta, entries := NOMETA, [];
    var i := 0;
    while i < |lines|
      invariant i <= |lines| && ReadFrom(lines, i, meta, entries) == ReadAll(lines)
    {
      if !Fits(lines[i]) { return TooLong; }
      match LineEffect(lines[i], meta) {
        case Skip =>
        case SetMeta(m) => meta := m;
        case AddEntry(e) => entries := entries + [e];
        case Reject => return BadLine(i + 1);
      }
      i := i + 1;
    }
    return Loaded(meta, StableSort(entries, TsOf));
  }

  // A line of 4 MiB or more, without its newline.
  ghost predicate Oversize(l: Line) { |Encode(l.text)| >= 4 * 1024 * 1024 }

  // A line that stops the reader.
  ghost predicate Faulty(l: Line) { Oversize(l) || LineEffect(l, NOMETA) == Reject }

  lemma RejectBlind(l: Line, meta: Meta)
    ensures LineEffect(l, meta) == Reject <==> LineEffect(l, NOMETA) == Reject
    ensures LineEffect(l, meta).AddEntry? <==> LineEffect(l, NOMETA).AddEntry?
    ensures LineEffect(l, meta).AddEntry? ==> LineEffect(l, meta) == LineEffect(l, NOMETA)
  {
    if !Blank(l.text) && l.json.Some? && l.json.value.Obj? { DecodeMetaBlind(l.json.value, meta); }
  }

  lemma DecodeMetaBlind(v: Value, meta: Meta)
    requires v.Obj?
    ensures DecodeMeta(v, meta) == None <==> DecodeMeta(v, NOMETA) == None
  {
  }

  function EntriesOf(lines: seq<Line>): seq<Entry> {
    if lines == [] then []
    else
      (match LineEffect(lines[0], NOMETA) case AddEntry(e) => [e] case _ => []) + EntriesOf(lines[1..])
  }

  // How far the reader gets: to the end, or to a fault and what that is.
  ghost predicate Reaches(lines: seq<Line>, i: nat, r: ReadResult)
    requires i <= |lines|
  {
    match r
    case Loaded(_, _) => forall j :: i <= j < |lines| ==> !Faulty(lines[j])
    case TooLong => exists n :: FirstFault(lines, i, n) && Oversize(lines[n])
    case BadLine(number) => i < number <= |lines| && FirstFault(lines, i, number - 1) && !Oversize(lines[number - 1])
  }

  ghost predicate FirstFault(lines: seq<Line>, i: nat, n: int) {
    i <= n < |lines| && Faulty(lines[n]) && forall j :: i <= j < n ==> !Faulty(lines[j])
  }

  lemma FirstFaultBack(lines: seq<Line>, i: nat, r: ReadResult)
    requires i < |lines| && !Faulty(lines[i]) && Reaches(lines, i + 1, r)
    ensures Reaches(lines, i, r)
  {
    if r.TooLong? {
      var n :| FirstFault(lines, i + 1, n) && Oversize(lines[n]);
      assert FirstFault(lines, i, n);
    }
  }

  lemma {:induction false} ReadFromExact(lines: seq<Line>, i: nat, meta: Meta, entries: seq<Entry>)
    requires i <= |lines|
    ensures Reaches(lines, i, ReadFrom(lines, i, meta, entries))
    ensures ReadFrom(lines, i, meta, entries).Loaded? ==>
              ReadFrom(lines, i, meta, entries).entries == StableSort(entries + EntriesOf(lines[i..]), TsOf)
    decreases |lines| - i
  {
    hide LineEffect, Encode, StableSort;
    if i == |lines| {
      assert entries + EntriesOf(lines[i..]) == entries;
    } else {
      var l := lines[i];
      RejectBlind(l, meta);
      if Faulty(l) {
        assert FirstFault(lines, i, i);
      } else {
        assert lines[i..][1..] == lines[i + 1..];
        var meta' := match LineEffect(l, meta) case SetMeta(m) => m case _ => meta;
        var added := match LineEffect(l, meta) case AddEntry(e) => [e] case _ => [];
        assert entries + [] == entries;
        ReadFromExact(lines, i + 1, meta', entries + added);
        assert entries + added + EntriesOf(lines[i + 1..]) == entries + EntriesOf(lines[i..]);
        FirstFaultBack(lines, i, ReadFrom(lines, i, meta, entries));
      }
    }
  }

  // Meta lines, one after the other.
  ghost function MetaOf(lines: seq<Line>): Meta {
    if lines == [] then Meta(0, "", "", false, "")
    else
      var m, l := MetaOf(lines[..|lines| - 1]), lines[|lines| - 1];
      if LineEffect(l, m).SetMeta? then LineEffect(l, m).meta else m
  }

  lemma {:induction false} MetaRead(lines: seq<Line>, i: nat, entries: seq<Entry>)
    requires i <= |lines|
    ensures var r := ReadFrom(lines, i, MetaOf(lines[..i]), entries); r.Loaded? ==> r.meta == MetaOf(lines)
    decreases |lines| - i
  {
    hide LineEffect, StableSort, Fits;
    if i == |lines| {
      assert lines[..i] == lines;
    } else {
      var m := MetaOf(lines[..i]);
      assert lines[..i + 1][..i] == lines[..i] && lines[..i + 1][i] == lines[i];
      match LineEffect(lines[i], m)
      case AddEntry(e) => MetaRead(lines, i + 1, entries + [e]);
      case _ => MetaRead(lines, i + 1, entries);
    }
  }

  // For any file: it is read exactly if no line is at fault, and then its entry lines are
  // returned, stably sorted; otherwise the first fault is reported, too long or by number.
  lemma ReadExact(lines: seq<Line>)
    ensures Reaches(lines, 0, ReadAll(lines))
    ensures ReadAll(lines).Loaded? ==>
              ReadAll(lines).entries == StableSort(EntriesOf(lines), TsOf) && ReadAll(lines).meta == MetaOf(lines)
  {
    MetaRead(lines, 0, []);
    assert lines[..0] == [];
    ReadFromExact(lines, 0, NOMETA, []);
    assert lines[0..] == lines && [] + EntriesOf(lines) == EntriesOf(lines);
  }

  // ----- writing --------------------------------------------------------------------------

  function Body(first: Line, es: seq<Entry>): seq<Line> {
    [first] + seq(|es|, i requires 0 <= i < |es| => LineOf(EntryValue(es[i])))
  }

  // A file as the writer leaves it.
  function Written(meta: Meta, es: seq<Entry>): seq<Line> { Body(LineOf(MetaValue(meta)), es) }

  // The meta line of a new file, with defaults for what is not given.
  function Filled(meta: Meta, now: string): Meta {
    meta.(version := if meta.version == 0 then 1 else meta.version,
          createdAt := if meta.createdAt == "" then now else meta.createdAt)
  }

  class Writer {
    var lines: seq<Line>

    // Appending to an existing file writes no second meta line.
    constructor (existing: seq<Line>, meta: Meta, now: string)
      ensures existing != [] ==> lines == existing
      ensures existing == [] ==> lines == Written(Filled(meta, now), [])
      ensures existing == [] ==>
                lines == [LineOf(MetaValue(Meta(if meta.version == 0 then 1 else meta.version,
                                                if meta.createdAt == "" then now else meta.createdAt,
                                                meta.upstream, meta.serialized, meta.source)))]
    {
      if existing == [] {
        var v, at := meta.version, meta.createdAt;
        if v == 0 { v := 1; }
        if at == "" { at := now; }
        lines := [LineOf(MetaValue(meta.(version := v, createdAt := at)))];
      } else {
        lines := existing;
      }
    }

    method Append(e: Entry, ioError: Option<string>) returns (err: Option<string>)
      modifies this
      ensures err == ioError
      ensures lines == if ioError == None then old(lines) + [LineOf(EntryValue(e))] else old(lines)
    {
      if ioError == None { lines := lines + [LineOf(EntryValue(e))]; }
      err := ioError;
    }
  }

  lemma WrittenSnoc(meta: Meta, es: seq<Entry>, e: Entry)
    ensures Written(meta, es + [e]) == Written(meta, es) + [LineOf(EntryValue(e))]
  {
    hide LineOf, EntryValue, MetaValue;
  }

  function RoundedAll(es: seq<Entry>): seq<Entry> { seq(|es|, i requires 0 <= i < |es| => Rounded(es[i])) }

  lemma ObjectNotBlank(v: Value)
    requires v.Obj?
    ensures !Blank(Print(v))
  {
    PrintStart(v, "");
    assert Print(v)[0] in Print(v);
  }

  lemma EntryIsObject(e: Entry)
    ensures EntryValue(e).Obj?
  {
  }

  lemma EntryLine(e: Entry, meta: Meta)
    ensures LineEffect(LineOf(EntryValue(e)), meta) == AddEntry(Rounded(e))
  {
    hide Blank, EntryValue, DecodeEntry, Rounded, Print, Json.Seen;
    var v, seen := EntryValue(e), SeenEntry(e);
    EntryIsObject(e);
    ObjectNotBlank(v);
    EntrySeen(e);
    EntryIsObject(seen);
    EntryMembers(seen, EntryValue(seen).fields);
    EntryBack(seen);
    SeenRounded(e);
    assert Probe(EntryValue(seen)) == Some("entry");
  }

  lemma ReadStep(lines: seq<Line>, i: nat, meta: Meta, entries: seq<Entry>, e: Entry)
    requires i < |lines| && LineEffect(lines[i], meta) == AddEntry(e)
    ensures ReadFrom(lines, i, meta, entries)
      == if Fits(lines[i]) then ReadFrom(lines, i + 1, meta, entries + [e]) else TooLong
  {
  }

  // The lines after the first are those of the entries.
  ghost predicate EntryLines(lines: seq<Line>, es: seq<Entry>) {
    |lines| == |es| + 1 && forall j :: 0 < j < |lines| ==> lines[j] == LineOf(EntryValue(es[j - 1]))
  }

  ghost predicate AllFit(lines: seq<Line>, i: nat) {
    forall j :: i <= j < |lines| ==> !Oversize(lines[j])
  }

  lemma RoundedTail(acc: seq<Entry>, es: seq<Entry>, i: nat)
    requires i < |es|
    ensures acc + [Rounded(es[i])] + RoundedAll(es[i + 1..]) == acc + RoundedAll(es[i..])
  {
  }

  lemma {:induction false} ReadEntries(lines: seq<Line>, meta: Meta, es: seq<Entry>, i: nat, acc: seq<Entry>)
    requires EntryLines(lines, es) && i <= |es|
    ensures ReadFrom(lines, i + 1, meta, acc)
      == if AllFit(lines, i + 1) then Loaded(meta, StableSort(acc + RoundedAll(es[i..]), TsOf)) else TooLong
    decreases |es| - i
  {
    hide LineEffect, Fits, LineOf, EntryValue, Rounded, StableSort;
    if i == |es| {
      assert acc + RoundedAll(es[i..]) == acc;
    } else {
      hide AllFit, RoundedAll;
      EntryLine(es[i], meta);
      ReadStep(lines, i + 1, meta, acc, Rounded(es[i]));
      ReadEntries(lines, meta, es, i + 1, acc + [Rounded(es[i])]);
      RoundedTail(acc, es, i);
      FitStep(lines, i + 1);
    }
  }

  lemma FitStep(lines: seq<Line>, i: nat)
    requires i < |lines|
    ensures AllFit(lines, i) <==> Fits(lines[i]) && AllFit(lines, i + 1)
  {
  }

  lemma MetaLine(meta: Meta)
    ensures LineEffect(LineOf(MetaValue(meta)), NOMETA) == SetMeta(meta)
  {
    ObjectNotBlank(MetaValue(meta));
    MetaSeen(meta);
    MetaBack(meta);
    assert Probe(MetaValue(meta)) == Some("meta");
  }

  // Reading a written file gives back its meta and its entries, stably sorted by time
  // stamp and with their integers as float64, exactly if every line fits the scanner's
  // buffer.
  lemma ReadWritten(meta: Meta, es: seq<Entry>)
    ensures ReadAll(Written(meta, es))
      == if AllFit(Written(meta, es), 0) then Loaded(meta, StableSort(RoundedAll(es), TsOf)) else TooLong
  {
    MetaLine(meta);
    ReadBody(LineOf(MetaValue(meta)), meta, es);
  }

  lemma BodyLines(first: Line, es: seq<Entry>)
    ensures EntryLines(Body(first, es), es) && Body(first, es)[0] == first
  {
    hide LineOf, EntryValue;
  }

  lemma ReadBody(first: Line, meta: Meta, es: seq<Entry>)
    requires LineEffect(first, NOMETA) == SetMeta(meta)
    ensures ReadAll(Body(first, es))
      == if AllFit(Body(first, es), 0) then Loaded(meta, StableSort(RoundedAll(es), TsOf)) else TooLong
  {
    var lines, none: seq<Entry> := Body(first, es), [];
    BodyLines(first, es);
    ReadLines(lines, 0, NOMETA, meta, es, none);
    assert none + RoundedAll(es) == RoundedAll(es);
  }

  lemma ReadLines(lines: seq<Line>, start: nat, before: Meta, meta: Meta, es: seq<Entry>, acc: seq<Entry>)
    requires start == 0 && EntryLines(lines, es) && LineEffect(lines[start], before) == SetMeta(meta)
    ensures ReadFrom(lines, start, before, acc)
      == if AllFit(lines, start) then Loaded(meta, StableSort(acc + RoundedAll(es), TsOf)) else TooLong
  {
    hide LineEffect, AllFit, Fits, RoundedAll, LineOf;
    assert es[0..] == es;
    ReadEntries(lines, meta, es, 0, acc);
    FitStep(lines, start);
  }

  // ----- the order of the entries -----------------------------------------------------------

  lemma {:induction false} SameKeyKeepsOrder<T>(s: seq<T>, key: T -> string, c: string)
    requires forall x :: x in s ==> key(x) == c
    ensures StableSort(s, key) == s
  {
    if s != [] {
      assert s[0] in s && forall x :: x in s[1..] ==> x in s;
      SameKeyKeepsOrder(s[1..], key, c);
      assert s[1..] != [] ==> s[1..][0] in s;
      assert s == [s[0]] + s[1..];
    }
  }

  // Whatever the file holds, the entries that were read come in time stamp order, and those
  // with equal time stamps in file order; a proxy golden, whose time stamps are all empty,
  // keeps file order.
  lemma ReadOrder(es: seq<Entry>)
    ensures var r := StableSort(es, TsOf);
            && SortedBy(r, TsOf) && multiset(r) == multiset(es) && SameClasses(r, es, TsOf)
            && ((forall e :: e in es ==> e.ts == "") ==> r == es)
  {
    StableSortSpec(es, TsOf);
    if forall e :: e in es ==> e.ts == "" { SameKeyKeepsOrder(es, TsOf, ""); }
  }

  // If all time stamps have one fractional width, the entries that were read come in the
  // order of their times.
  lemma ReadChronological(es: seq<Entry>, time: Entry -> Instant)
    requires forall e :: e in es ==> e.ts == Text(time(e))
    requires forall e, f :: e in es && f in es ==> |Timestamps.Digits(time(e))| == |Timestamps.Digits(time(f))|
    ensures var r := StableSort(es, TsOf);
            forall i, j :: 0 <= i < j < |r| ==> !Before(time(r[j]), time(r[i]))
  {
    var r := StableSort(es, TsOf);
    StableSortSpec(es, TsOf);
    hide StableSort, Text, Timestamps.Digits, Before;
    forall i, j | 0 <= i < j < |r| ensures !Before(time(r[j]), time(r[i])) {
      assert Le(TsOf(r[i]), TsOf(r[j]));
      assert r[i] in multiset(r) && r[i] in multiset(es) && r[j] in multiset(r) && r[j] in multiset(es);
      TextOrderIsTime(time(r[i]), time(r[j]));
    }
  }
}
