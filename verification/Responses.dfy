// Response comparison: status, selected headers, and the body through noise stripping
// and array sorting.
module Responses {
  import opened Strings
  import opened Values
  import opened Optional
  import opened Trees
  import opened Arrays
  import opened JsonDiff

  // A response body: its text, and what json.Unmarshal makes of it.
  datatype Body = Body(text: string, json: Option<Value>)

  datatype Response = Response(status: int, body: Body, headers: map<string, string>)

  datatype Options = Options(noisePaths: seq<string>, compareHeaders: seq<string>, sortArrays: seq<SortRule>)

  // tryJSON: only containers count as JSON; a text that does not parse yields nil.
  function TryJSON(b: Body): (Value, bool) {
    match b.json
    case None => (Null, false)
    case Some(v) => (v, v.Obj? || v.Arr?)
  }

  function Normalize(v: Value, opts: Options): Value {
    SortArrays(StripNoise(v, opts.noisePaths, []), opts.sortArrays, [])
  }

  function HeaderOf(headers: map<string, string>, h: string): string { if h in headers then headers[h] else "" }

  function HeaderDiff(h: string, was: string, now: string): seq<Difference> {
    if was != now then [Difference("response", "header." + h, Str(was), Str(now))] else []
  }

  function HeaderDiffs(a: map<string, string>, b: map<string, string>, names: seq<string>): seq<Difference> {
    if names == [] then []
    else HeaderDiff(names[0], HeaderOf(a, names[0]), HeaderOf(b, names[0])) + HeaderDiffs(a, b, names[1..])
  }

  function BodyDiffs(a: Body, b: Body, opts: Options): seq<Difference> {
    var (va, ja) := TryJSON(a);
    var (vb, jb) := TryJSON(b);
    if ja || jb then RenderAll([], Changes(Normalize(va, opts), Normalize(vb, opts)))
    else if a.text != b.text then [Difference("response", "body", Str(a.text), Str(b.text))]
    else []
  }

  function ResponseDiffs(a: Response, b: Response, opts: Options): seq<Difference> {
    (if a.status != b.status then [Difference("response", "status", Int(a.status), Int(b.status))] else [])
    + HeaderDiffs(a.headers, b.headers, opts.compareHeaders)
    + BodyDiffs(a.body, b.body, opts)
  }

  lemma HeaderDiffsStep(a: map<string, string>, b: map<string, string>, names: seq<string>, i: nat,
                        found: seq<Difference>)
    requires i < |names|
    ensures found + HeaderDiffs(a, b, names[i..])
      == found + HeaderDiff(names[i], HeaderOf(a, names[i]), HeaderOf(b, names[i])) + HeaderDiffs(a, b, names[i + 1..])
  {
    var rest := names[i..];
    assert rest[1..] == names[i + 1..] && rest[0] == names[i];
    assert HeaderDiffs(a, b, rest)
        == HeaderDiff(names[i], HeaderOf(a, names[i]), HeaderOf(b, names[i])) + HeaderDiffs(a, b, names[i + 1..]);
    hide HeaderDiffs, HeaderDiff, HeaderOf;
  }

  method DiffHeaders(a: map<string, string>, b: map<string, string>, names: seq<string>, out: DiffLog)
    modifies out
    ensures out.items == old(out.items) + HeaderDiffs(a, b, names)
  {
    hide HeaderOf;
    ghost var goal := out.items + HeaderDiffs(a, b, names);
    var i := 0;
    assert names[0..] == names;
    while i < |names|
      invariant i <= |names| && out.items + HeaderDiffs(a, b, names[i..]) == goal
    {
      hide HeaderDiffs;
      HeaderDiffsStep(a, b, names, i, out.items);
      var was, now := HeaderOf(a, names[i]), HeaderOf(b, names[i]);
      if was != now {
        out.items := out.items + [Difference("response", "header." + names[i], Str(was), Str(now))];
      }
      i := i + 1;
    }
  }

  method DiffResponses(a: Response, b: Response, opts: Options) returns (diffs: seq<Difference>)
    ensures diffs == ResponseDiffs(a, b, opts)
  {
    var out := new DiffLog();
    if a.status != b.status {
      out.items := [Difference("response", "status", Int(a.status), Int(b.status))];
    }
    DiffHeaders(a.headers, b.headers, opts.compareHeaders, out);
    var (va, ja) := TryJSON(a.body);
    var (vb, jb) := TryJSON(b.body);
    if ja || jb {
      DiffJSON(Normalize(va, opts), Normalize(vb, opts), [], out);
    } else if a.body.text != b.body.text {
      out.items := out.items + [Difference("response", "body", Str(a.body.text), Str(b.body.text))];
    }
    diffs := out.items;
  }

  // ----- what "the responses agree" means ---------------------------------------------

  // A body that is compared as JSON: an object or an array.
  ghost predicate Container(b: Body) { b.json != None && (b.json.value.Obj? || b.json.value.Arr?) }

  // What the other body is compared with then: null if it is not JSON.
  ghost function Parsed(b: Body): Value { if b.json == None then Null else b.json.value }

  // Noise is stripped before arrays are sorted.
  ghost function Prepared(b: Body, opts: Options): Value {
    SortArrays(StripNoise(Parsed(b), opts.noisePaths, []), opts.sortArrays, [])
  }

  ghost predicate BodiesAgree(a: Body, b: Body, opts: Options) {
    if Container(a) || Container(b) then Prepared(a, opts) == Prepared(b, opts) else a.text == b.text
  }

  // A missing header is as good as an empty one.
  ghost predicate HeaderDiffers(h: string, a: Response, b: Response) {
    (if h in a.headers then a.headers[h] else "") != (if h in b.headers then b.headers[h] else "")
  }

  ghost predicate ResponsesAgree(a: Response, b: Response, opts: Options) {
    && a.status == b.status
    && (forall h :: h in opts.compareHeaders ==> !HeaderDiffers(h, a, b))
    && BodiesAgree(a.body, b.body, opts)
  }

  // ----- the report, part by part -------------------------------------------------------

  // The parts of a response a difference can be about: an address only of two container
  // bodies, or of a container and what stands in its place.
  datatype Part = Status | Header(name: string) | Text | At(change: Change)

  // Old sides come under old and new sides under new. A missing side is rendered as
  // "<absent>", two lengths as numbers at the address of the array.
  ghost function PartDifference(p: Part, a: Response, b: Response): Difference {
    match p
    case Status => Difference("response", "status", Int(a.status), Int(b.status))
    case Header(h) =>
      Difference("response", "header." + h, Str(if h in a.headers then a.headers[h] else ""),
                 Str(if h in b.headers then b.headers[h] else ""))
    case Text => Difference("response", "body", Str(a.body.text), Str(b.body.text))
    case At(c) =>
      var at := if c.addr == [] then "$" else Join(Names(c.addr));
      Difference("response", if c.was.Length? && c.now.Length? then at + ".length" else at, Shown(c.was), Shown(c.now))
  }

  ghost function Shown(side: Side): Value {
    if side.Missing? then Str("<absent>") else if side.Length? then Int(side.n) else side.v
  }

  ghost function DifferingHeaders(a: Response, b: Response, names: seq<string>): seq<Part> {
    if names == [] then []
    else (if HeaderDiffers(names[0], a, b) then [Header(names[0])] else []) + DifferingHeaders(a, b, names[1..])
  }

  // The status, the compared headers in the order given, and the body, where they differ.
  ghost function Parts(a: Response, b: Response, opts: Options): seq<Part> {
    (if a.status != b.status then [Status] else [])
    + DifferingHeaders(a, b, opts.compareHeaders)
    + (if Container(a.body) || Container(b.body) then Ats(Changes(Prepared(a.body, opts), Prepared(b.body, opts)))
       else if a.body.text != b.body.text then [Text] else [])
  }

  ghost function Ats(cs: seq<Change>): seq<Part> { seq(|cs|, i requires 0 <= i < |cs| => At(cs[i])) }

  ghost function Differences(ps: seq<Part>, a: Response, b: Response): seq<Difference> {
    seq(|ps|, i requires 0 <= i < |ps| => PartDifference(ps[i], a, b))
  }

  lemma BodyIs(b: Body, opts: Options)
    ensures TryJSON(b).1 <==> Container(b)
    ensures Normalize(TryJSON(b).0, opts) == Prepared(b, opts)
  {
  }

  lemma RenderIs(c: Change, a: Response, b: Response)
    requires c.was.Length? <==> c.now.Length?
    ensures Render([], c) == PartDifference(At(c), a, b)
  {
    assert [] + Names(c.addr) == Names(c.addr);
  }

  lemma {:induction false} HeaderReport(a: Response, b: Response, names: seq<string>)
    ensures HeaderDiffs(a.headers, b.headers, names) == Differences(DifferingHeaders(a, b, names), a, b)
  {
    if names != [] { HeaderReport(a, b, names[1..]); }
  }

  lemma BodyReport(a: Response, b: Response, opts: Options)
    ensures var ps := if Container(a.body) || Container(b.body)
                      then Ats(Changes(Prepared(a.body, opts), Prepared(b.body, opts)))
                      else if a.body.text != b.body.text then [Text] else [];
            BodyDiffs(a.body, b.body, opts) == Differences(ps, a, b)
  {
    hide Changes, Normalize, Prepared, Container, Render, PartDifference;
    BodyIs(a.body, opts);
    BodyIs(b.body, opts);
    var x, y := Prepared(a.body, opts), Prepared(b.body, opts);
    LengthsTogether(x, y);
    var cs := Changes(x, y);
    forall i | 0 <= i < |cs| ensures Render([], cs[i]) == PartDifference(At(cs[i]), a, b) { RenderIs(cs[i], a, b); }
    assert PartDifference(Text, a, b) == Difference("response", "body", Str(a.body.text), Str(b.body.text)) by {
      TextPart(a, b);
    }
  }

  lemma TextPart(a: Response, b: Response)
    ensures PartDifference(Text, a, b) == Difference("response", "body", Str(a.body.text), Str(b.body.text))
  {
  }

  // The report: one difference for each part that differs, in order.
  lemma ResponseReport(a: Response, b: Response, opts: Options)
    ensures ResponseDiffs(a, b, opts) == Differences(Parts(a, b, opts), a, b)
  {
    HeaderReport(a, b, opts.compareHeaders);
    BodyReport(a, b, opts);
    var status := if a.status != b.status then [Status] else [];
    var body := if Container(a.body) || Container(b.body)
                then Ats(Changes(Prepared(a.body, opts), Prepared(b.body, opts)))
                else if a.body.text != b.body.text then [Text] else [];
    assert Differences(status, a, b)
        == if a.status != b.status then [Difference("response", "status", Int(a.status), Int(b.status))] else [];
    hide HeaderDiffs, BodyDiffs, DifferingHeaders, Changes, Prepared, Container, PartDifference, Ats, Differences;
    DifferencesConcat(status, DifferingHeaders(a, b, opts.compareHeaders), a, b);
    DifferencesConcat(status + DifferingHeaders(a, b, opts.compareHeaders), body, a, b);
  }

  lemma DifferencesConcat(x: seq<Part>, y: seq<Part>, a: Response, b: Response)
    ensures Differences(x + y, a, b) == Differences(x, a, b) + Differences(y, a, b)
  {
    hide PartDifference;
  }

  lemma {:induction false} NoHeaders(a: Response, b: Response, names: seq<string>)
    ensures DifferingHeaders(a, b, names) == [] <==> forall h :: h in names ==> !HeaderDiffers(h, a, b)
    ensures forall p :: p in DifferingHeaders(a, b, names)
              <==> p.Header? && p.name in names && HeaderDiffers(p.name, a, b)
  {
    if names != [] {
      hide HeaderDiffers;
      NoHeaders(a, b, names[1..]);
      assert forall h :: h in names <==> h == names[0] || h in names[1..];
    }
  }

  // No response difference exactly when the responses agree.
  lemma ResponseDiffsExact(a: Response, b: Response, opts: Options)
    ensures ResponseDiffs(a, b, opts) == [] <==> ResponsesAgree(a, b, opts)
  {
    hide Changes, Prepared, Container, HeaderDiffers;
    ResponseReport(a, b, opts);
    NoHeaders(a, b, opts.compareHeaders);
    ChangesComplete(Prepared(a.body, opts), Prepared(b.body, opts));
    assert |Differences(Parts(a, b, opts), a, b)| == |Parts(a, b, opts)|;
    assert Parts(a, b, opts) == [] ==> ResponseDiffs(a, b, opts) == [];
  }

  // The part is compared, and the two responses really differ there.
  ghost predicate Differ(p: Part, a: Response, b: Response, opts: Options) {
    var container := Container(a.body) || Container(b.body);
    match p
    case Status => a.status != b.status
    case Header(h) => h in opts.compareHeaders && HeaderDiffers(h, a, b)
    case Text => !container && a.body.text != b.body.text
    case At(c) =>
      && container && c in Changes(Prepared(a.body, opts), Prepared(b.body, opts))
      && TrueOf(c, Prepared(a.body, opts), Prepared(b.body, opts))
  }

  // The parts reported are exactly those where the two responses really differ.
  lemma ResponseDiffsTrue(a: Response, b: Response, opts: Options, p: Part)
    ensures p in Parts(a, b, opts) <==> Differ(p, a, b, opts)
  {
    hide Changes, Prepared, Container, HeaderDiffers, TrueOf, DifferingHeaders;
    NoHeaders(a, b, opts.compareHeaders);
    var x, y := Prepared(a.body, opts), Prepared(b.body, opts);
    ChangesTrue(x, y);
    var cs := Changes(x, y);
    assert forall c :: At(c) in Ats(cs) <==> c in cs by {
      forall c | c in cs ensures At(c) in Ats(cs) { var i :| 0 <= i < |cs| && cs[i] == c; assert Ats(cs)[i] == At(c); }
    }
  }

  // A container never agrees with a scalar or with a text that is not JSON.
  lemma ContainerMismatch(a: Body, b: Body, opts: Options)
    requires Container(a) && !Container(b)
    ensures !BodiesAgree(a, b, opts)
  {
  }

  // Containers that parse to the same value agree, however they are written.
  lemma SameJson(a: Body, b: Body, opts: Options)
    requires a.json == b.json && Container(a)
    ensures BodyDiffs(a, b, opts) == []
  {
    BodyIs(a, opts);
    BodyIs(b, opts);
    ChangesComplete(Prepared(a, opts), Prepared(b, opts));
  }

  // Bodies that differ only at or under noise keys are never told apart, whatever the
  // sort rules.
  lemma NoiseInvisible(a: Value, b: Value, opts: Options)
    requires AgreeOffNoise(a, b, opts.noisePaths, [])
    ensures forall x: Body, y: Body :: x.json == Some(a) && y.json == Some(b) ==> Prepared(x, opts) == Prepared(y, opts)
  {
    NoiseExact(a, b, opts.noisePaths, []);
  }

  // Under the rule `**` by `$canonical`, two container bodies give no difference exactly
  // when, noise aside, they are equal up to permuting arrays at every level.
  lemma PermutationVerdict(a: Body, b: Body, opts: Options)
    requires opts.sortArrays == EVERYWHERE && Container(a) && Container(b)
    ensures BodyDiffs(a, b, opts) == []
      <==> PermEq(StripNoise(a.json.value, opts.noisePaths, []), StripNoise(b.json.value, opts.noisePaths, []))
  {
    var sa, sb := StripNoise(a.json.value, opts.noisePaths, []), StripNoise(b.json.value, opts.noisePaths, []);
    EverywhereIsCanon(sa, []);
    EverywhereIsCanon(sb, []);
    CanonDecides(sa, sb);
    ChangesComplete(Canon(sa), Canon(sb));
  }

  // Without noise patterns stripping is the identity, so the verdict is about the bodies
  // themselves.
  lemma {:induction false} StripNothing(v: Value, path: seq<string>)
    ensures StripNoise(v, [], path) == v
  {
    match v
    case Obj(fields) =>
      forall k | k in fields ensures StripNoise(fields[k], [], path + [k]) == fields[k] {
        StripNothing(fields[k], path + [k]);
      }
      assert StripNoise(v, [], path).fields == fields;
    case Arr(items) =>
      forall i | 0 <= i < |items| ensures StripNoise(items[i], [], path + [NatText(i)]) == items[i] {
        StripNothing(items[i], path + [NatText(i)]);
      }
      assert StripNoise(v, [], path).items == items;
    case _ =>
  }

  lemma PermutationVerdictNoNoise(a: Body, b: Body, headers: seq<string>)
    requires Container(a) && Container(b)
    ensures BodyDiffs(a, b, Options([], headers, EVERYWHERE)) == [] <==> PermEq(a.json.value, b.json.value)
  {
    PermutationVerdict(a, b, Options([], headers, EVERYWHERE));
    StripNothing(a.json.value, []);
    StripNothing(b.json.value, []);
  }
}
