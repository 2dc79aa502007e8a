// Replaying requests: against both stacks, or against the new one with a golden in the
// old one's place.
module Replay {
  import opened Firing
  import opened JsonDiff
  import opened Optional
  import opened Polling
  import opened Responses
  import opened Rounds
  import opened SourceRuns
  import opened Values
  import opened Windows
  import opened Writesets
  import opened WritesetDiff
  import Golden

  datatype Verdict = MATCH | RESPONSE_DIFF | WRITESET_DIFF | BOTH_DIFF | ERROR

  datatype Config = Config(opts: Options, noiseColumns: seq<string>, ignoreTables: seq<string>)

  function VerdictOf(responseDiffs: seq<Difference>, writesetDiffs: seq<Difference>): Verdict {
    if |responseDiffs| > 0 && |writesetDiffs| > 0 then BOTH_DIFF
    else if |responseDiffs| > 0 then RESPONSE_DIFF
    else if |writesetDiffs| > 0 then WRITESET_DIFF
    else MATCH
  }

  // ----- the verdict --------------------------------------------------------------------------

  // One side of a comparison: a response and the row changes attributed to it.
  datatype Side = Side(response: Response, changes: seq<RowChange>)

  ghost function Writeset(s: Side, cfg: Config): seq<WriteEntry> {
    Normalized(s.changes, cfg.noiseColumns, cfg.ignoreTables)
  }

  // The verdict by what was found to differ.
  ghost predicate Says(v: Verdict, responsesAgree: bool, writesetsAgree: bool) {
    && (v == MATCH <==> responsesAgree && writesetsAgree)
    && (v == RESPONSE_DIFF <==> !responsesAgree && writesetsAgree)
    && (v == WRITESET_DIFF <==> responsesAgree && !writesetsAgree)
    && (v == BOTH_DIFF <==> !responsesAgree && !writesetsAgree)
  }

  // In every (table, op, pk) group the entries agree by position, up to columns that hold
  // the text "<absent>".
  ghost predicate WritesetsAgree(olds: seq<WriteEntry>, news: seq<WriteEntry>) {
    forall k :: GroupsAgree(Group(olds, k), Group(news, k))
  }

  // Both stacks committed the same effects, in any order.
  ghost predicate SameEffects(a: Side, b: Side, cfg: Config) {
    multiset(Effects(a.changes, cfg.noiseColumns, cfg.ignoreTables))
      == multiset(Effects(b.changes, cfg.noiseColumns, cfg.ignoreTables))
  }

  // Verdict exactness: unless some column holds the text "<absent>", normalised write-sets
  // agree exactly when the two sides committed the same multiset of effects.
  lemma WritesetVerdict(a: Side, b: Side, cfg: Config)
    requires NoAbsentText(Writeset(a, cfg)) && NoAbsentText(Writeset(b, cfg))
    ensures WritesetsAgree(Writeset(a, cfg), Writeset(b, cfg)) <==> SameEffects(a, b, cfg)
  {
    NormalizedForm(a.changes, cfg.noiseColumns, cfg.ignoreTables);
    NormalizedForm(b.changes, cfg.noiseColumns, cfg.ignoreTables);
    NormalDiffExact(Writeset(a, cfg), Writeset(b, cfg));
    DiffExact(Writeset(a, cfg), Writeset(b, cfg));
    NormalizedExact(a.changes, b.changes, cfg.noiseColumns, cfg.ignoreTables);
  }

  lemma EmptyReport(diffs: seq<Difference>, olds: seq<WriteEntry>, news: seq<WriteEntry>)
    requires multiset(diffs) == WritesetDiffs(olds, news)
    ensures |diffs| == 0 <==> WritesetsAgree(olds, news)
  {
    DiffExact(olds, news);
    assert |multiset(diffs)| == |diffs|;
  }

  datatype Result = Result(name: string, verdict: Verdict, differences: seq<Difference>, error: string)

  ghost function AllDiffs(a: Side, b: Side, cfg: Config): multiset<Difference> {
    multiset(ResponseDiffs(a.response, b.response, cfg.opts)) + WritesetDiffs(Writeset(a, cfg), Writeset(b, cfg))
  }

  method Compare(name: string, a: Side, b: Side, cfg: Config) returns (r: Result)
    ensures r.name == name && r.error == ""
    ensures Says(r.verdict, ResponsesAgree(a.response, b.response, cfg.opts),
                 WritesetsAgree(Writeset(a, cfg), Writeset(b, cfg)))
    ensures multiset(r.differences) == AllDiffs(a, b, cfg)
  {
    var responseDiffs := DiffResponses(a.response, b.response, cfg.opts);
    var olds := NormalizeWriteset(a.changes, cfg.noiseColumns, cfg.ignoreTables);
    var news := NormalizeWriteset(b.changes, cfg.noiseColumns, cfg.ignoreTables);
    var writesetDiffs := DiffWritesets(olds, news);
    ResponseDiffsExact(a.response, b.response, cfg.opts);
    EmptyReport(writesetDiffs, olds, news);
    r := Result(name, VerdictOf(responseDiffs, writesetDiffs), responseDiffs + writesetDiffs, "");
  }

  // One request to replay, and what the network and the sources make of it.
  datatype Job = Job(name: string, onOld: Shot, onNew: Shot)

  function SideOf(r: Fired): Side
    requires r.Fired?
  {
    Side(r.response, r.changes)
  }

  ghost predicate Judged(v: Verdict, x: Side, y: Side, cfg: Config) {
    var responses := ResponsesAgree(x.response, y.response, cfg.opts);
    var ws := WritesetsAgree(Writeset(x, cfg), Writeset(y, cfg));
    && Says(v, responses, ws)
    && (NoAbsentText(Writeset(x, cfg)) && NoAbsentText(Writeset(y, cfg)) ==>
          (v == MATCH <==> responses && SameEffects(x, y, cfg)))
  }

  lemma JudgedBy(v: Verdict, x: Side, y: Side, cfg: Config)
    requires Says(v, ResponsesAgree(x.response, y.response, cfg.opts),
                  WritesetsAgree(Writeset(x, cfg), Writeset(y, cfg)))
    ensures Judged(v, x, y, cfg)
  {
    hide ResponsesAgree, WritesetsAgree, Writeset, SameEffects;
    if NoAbsentText(Writeset(x, cfg)) && NoAbsentText(Writeset(y, cfg)) { WritesetVerdict(x, y, cfg); }
  }

  // A request is not sent to the new stack if it failed on the old one.
  ghost function Sent(j: Job, fo: Feed, attr: Attribution): Option<Shot>
    requires Calm(j.onOld.w)
  {
    if FireFrom(fo, j.onOld, attr).fired.Fired? then Some(j.onNew) else None
  }

  ghost predicate CalmJob(j: Job) { Calm(j.onOld.w) && Calm(j.onNew.w) }

  // The report on a request, by the sources as it found them: ERROR exactly if a stack gave
  // no answer or its source died by the last check. Otherwise the verdict says whether the
  // responses agree and whether the write-sets do, which for columns free of the text
  // "<absent>" means equal multisets of effects.
  ghost predicate Reported(r: Result, j: Job, fo: Feed, fn: Feed, attr: Attribution, cfg: Config)
    requires CalmJob(j)
  {
    var a, b := FireFrom(fo, j.onOld, attr).fired, FireFrom(fn, j.onNew, attr).fired;
    && r.name == j.name
    && (r.verdict == ERROR <==> Missed(fo, j.onOld, attr) || Missed(fn, j.onNew, attr))
    && (a.FireFailed? ==> r == Result(j.name, ERROR, [], "old: " + a.reason))
    && (a.Fired? && b.FireFailed? ==> r == Result(j.name, ERROR, [], "new: " + b.reason))
    && (r.verdict != ERROR ==> a.Fired? && b.Fired? && Judged(r.verdict, SideOf(a), SideOf(b), cfg)
                               && a.response == j.onOld.call.response && b.response == j.onNew.call.response
                               && r.error == "" && multiset(r.differences) == AllDiffs(SideOf(a), SideOf(b), cfg))
  }

  // One request against both stacks; the new one is left alone if the old one fails.
  method RunOne(j: Job, o: Stack, n: Stack, cfg: Config, attr: Attribution) returns (r: Result)
    requires Footprint(o) !! Footprint(n) && CalmJob(j)
    modifies Footprint(o), Footprint(n)
    ensures Reported(r, j, old(Now(o)), old(Now(n)), attr, cfg)
    ensures Now(o) == FireFrom(old(Now(o)), j.onOld, attr).after
    ensures Now(n) == Visited(old(Now(n)), Sent(j, old(Now(o)), attr), attr).after
  {
    hide ResponsesAgree, WritesetsAgree, Writeset, Judged, Calm, FireFrom, SourceDies, AllDiffs, Now;
    ghost var fo, fn := Now(o), Now(n);
    FiredExactly(fo, j.onOld, attr);
    FiredExactly(fn, j.onNew, attr);
    var x := FireStack(o, j.onOld, attr);
    if x.FireFailed? { return Result(j.name, ERROR, [], "old: " + x.reason); }
    assert Now(n) == fn;
    var y := FireStack(n, j.onNew, attr);
    if y.FireFailed? { return Result(j.name, ERROR, [], "new: " + y.reason); }
    r := Compare(j.name, SideOf(x), SideOf(y), cfg);
    JudgedBy(r.verdict, SideOf(x), SideOf(y), cfg);
  }

  ghost predicate CalmJobs(jobs: seq<Job>) { forall i :: 0 <= i < |jobs| ==> CalmJob(jobs[i]) }

  ghost function OnOld(jobs: seq<Job>): (vs: seq<Option<Shot>>)
    ensures |vs| == |jobs| && (CalmJobs(jobs) ==> AllCalm(vs))
  {
    seq(|jobs|, i requires 0 <= i < |jobs| => Some(jobs[i].onOld))
  }

  ghost function OnNew(jobs: seq<Job>, fo: Feed, attr: Attribution): (vs: seq<Option<Shot>>)
    requires CalmJobs(jobs)
    ensures |vs| == |jobs| && AllCalm(vs)
    ensures forall i :: 0 <= i < |jobs| ==> vs[i] == Sent(jobs[i], FeedAt(fo, OnOld(jobs), attr, i), attr)
  {
    seq(|jobs|, i requires 0 <= i < |jobs| => Sent(jobs[i], FeedAt(fo, OnOld(jobs), attr, i), attr))
  }

  // All requests, in order, against both stacks, and what the sources handle afterwards.
  method Run(jobs: seq<Job>, o: Stack, n: Stack, cfg: Config, attr: Attribution,
             lateOld: Meanwhile, lateNew: Meanwhile)
    returns (rs: seq<Result>)
    requires Footprint(o) !! Footprint(n) && CalmJobs(jobs)
    modifies Footprint(o), Footprint(n)
    ensures |rs| == |jobs|
    ensures var fo, fn := old(Now(o)), old(Now(n));
            var vo, vn := OnOld(jobs), OnNew(jobs, fo, attr);
            && (forall i :: 0 <= i < |jobs| ==>
                  Reported(rs[i], jobs[i], FeedAt(fo, vo, attr, i), FeedAt(fn, vn, attr, i), attr, cfg))
            && Now(o) == Pumped(FeedAt(fo, vo, attr, |jobs|), lateOld)
            && Now(n) == Pumped(FeedAt(fn, vn, attr, |jobs|), lateNew)
  {
    hide Reported, CalmJob, Now, FireFrom, Sent, FeedAt, Visited, Calm, AllCalm, Pumped;
    ghost var fo, fn := Now(o), Now(n);
    ghost var vo, vn := OnOld(jobs), OnNew(jobs, fo, attr);
    rs := [];
    FeedFirst(fo, vo, attr);
    FeedFirst(fn, vn, attr);
    var i := 0;
    while i < |jobs|
      invariant i == |rs| <= |jobs|
      invariant Now(o) == FeedAt(fo, vo, attr, i) && Now(n) == FeedAt(fn, vn, attr, i)
      invariant forall k :: 0 <= k < i ==>
                  Reported(rs[k], jobs[k], FeedAt(fo, vo, attr, k), FeedAt(fn, vn, attr, k), attr, cfg)
    {
      var r := RunOne(jobs[i], o, n, cfg, attr);
      FeedNext(fo, vo, attr, i);
      FeedNext(fn, vn, attr, i);
      rs := rs + [r];
      i := i + 1;
    }
    Pump(o, lateOld);
    assert Now(n) == FeedAt(fn, vn, attr, |jobs|);
    Pump(n, lateNew);
  }

  // The changes of request i.
  ghost function Own(tagged: seq<Round<Tagged>>, i: nat): seq<RowChange> { Untag(OwnOf(i, History(tagged))) }

  // What a verdict of a run says of the request itself. Whatever arrives whenever at two
  // fresh sources: if the changes of request i arrive in its interval at both sources, and
  // no others do, then its verdict is on its own responses and its own changes. It is MATCH
  // exactly if the responses agree and, for columns free of the text "<absent>", request i
  // itself had the same effects on both stacks, in any order.
  lemma OwnVerdict(jobs: seq<Job>, attr: Attribution, cfg: Config, fo: Feed, fn: Feed, lateOld: Meanwhile,
                   lateNew: Meanwhile, to: seq<Round<Tagged>>, tn: seq<Round<Tagged>>, i: nat, r: Result)
    requires Fresh(fo) && Fresh(fn) && CalmJobs(jobs) && i < |jobs|
    requires Tagging(to, fo, OnOld(jobs), attr, lateOld) && Tagging(tn, fn, OnNew(jobs, fo, attr), attr, lateNew)
    requires Reported(r, jobs[i], FeedAt(fo, OnOld(jobs), attr, i), FeedAt(fn, OnNew(jobs, fo, attr), attr, i),
                      attr, cfg)
    requires !Missed(FeedAt(fo, OnOld(jobs), attr, i), jobs[i].onOld, attr)
    requires !Missed(FeedAt(fn, OnNew(jobs, fo, attr), attr, i), jobs[i].onNew, attr)
    requires InPlace(Kind(fo), to, i) && InPlace(Kind(fn), tn, i)
    ensures Judged(r.verdict, Side(jobs[i].onOld.call.response, Own(to, i)),
                   Side(jobs[i].onNew.call.response, Own(tn, i)), cfg)
  {
    hide Judged, Calm, FeedAt, FireFrom, SourceDies, Tagging, InPlace, History, Window, OwnOf, Untag, AllDiffs;
    var vo, vn := OnOld(jobs), OnNew(jobs, fo, attr);
    FiredExactly(FeedAt(fo, vo, attr, i), jobs[i].onOld, attr);
    FiredExactly(FeedAt(fn, vn, attr, i), jobs[i].onNew, attr);
    OwnCharges(fo, vo, attr, lateOld, to, i);
    OwnCharges(fn, vn, attr, lateNew, tn, i);
  }

  // ----- verifying against a golden --------------------------------------------------------------

  // The recorded response, as the old side; goldens hold no response headers.
  function Recorded(x: Golden.Expected, parse: string -> Option<Value>): Response {
    Response(x.status, Body(x.body, parse(x.body)), map[])
  }

  // The response has the recorded status and a body that agrees with the recorded one.
  // Headers are not compared.
  ghost predicate AnswerAgrees(x: Golden.Expected, b: Response, cfg: Config, parse: string -> Option<Value>) {
    x.status == b.status && BodiesAgree(Body(x.body, parse(x.body)), b.body, cfg.opts)
  }

  ghost predicate GoldenAgrees(x: Golden.Expected, s: Side, cfg: Config) {
    x.writeset == None || WritesetsAgree(x.writeset.value, Writeset(s, cfg))
  }

  ghost function GoldenDiffs(x: Golden.Expected, b: Side, cfg: Config, parse: string -> Option<Value>)
    : multiset<Difference>
  {
    multiset(ResponseDiffs(Response(x.status, Body(x.body, parse(x.body)), map[]), b.response,
                           Options(cfg.opts.noisePaths, [], cfg.opts.sortArrays)))
      + if x.writeset == None then multiset{} else WritesetDiffs(x.writeset.value, Writeset(b, cfg))
  }

  lemma RecordedAgrees(x: Golden.Expected, b: Response, cfg: Config, parse: string -> Option<Value>)
    ensures AnswerAgrees(x, b, cfg, parse)
      <==> ResponsesAgree(Recorded(x, parse), b, Options(cfg.opts.noisePaths, [], cfg.opts.sortArrays))
  {
  }

  method CompareGolden(e: Golden.Entry, b: Side, cfg: Config, parse: string -> Option<Value>) returns (r: Result)
    ensures r.name == e.name && r.error == ""
    ensures Says(r.verdict, AnswerAgrees(e.expected, b.response, cfg, parse), GoldenAgrees(e.expected, b, cfg))
    ensures multiset(r.differences) == GoldenDiffs(e.expected, b, cfg, parse)
  {
    var was, opts := Recorded(e.expected, parse), Options(cfg.opts.noisePaths, [], cfg.opts.sortArrays);
    RecordedAgrees(e.expected, b.response, cfg, parse);
    hide ResponsesAgree, AnswerAgrees, WritesetsAgree, WritesetDiffs, ResponseDiffs, Normalized;
    var responseDiffs := DiffResponses(was, b.response, opts);
    ResponseDiffsExact(was, b.response, opts);
    var news := NormalizeWriteset(b.changes, cfg.noiseColumns, cfg.ignoreTables);
    var writesetDiffs := [];
    if e.expected.writeset != None {
      writesetDiffs := DiffWritesets(e.expected.writeset.value, news);
      EmptyReport(writesetDiffs, e.expected.writeset.value, news);
    }
    r := Result(e.name, VerdictOf(responseDiffs, writesetDiffs), responseDiffs + writesetDiffs, "");
  }

  // The verdict on one golden entry: ERROR exactly if the stack gave no answer or its source
  // died by the last check; without a write-set it is on the response alone.
  ghost predicate Verified(r: Result, e: Golden.Entry, f: Feed, shot: Shot, attr: Attribution, cfg: Config,
                           parse: string -> Option<Value>)
    requires Calm(shot.w)
  {
    var b := FireFrom(f, shot, attr).fired;
    && r.name == e.name
    && (r.verdict == ERROR <==> Missed(f, shot, attr))
    && (b.FireFailed? ==> r == Result(e.name, ERROR, [], "new: " + b.reason))
    && (r.verdict != ERROR ==>
          && b.Fired? && b.response == shot.call.response
          && r.error == "" && multiset(r.differences) == GoldenDiffs(e.expected, SideOf(b), cfg, parse)
          && Says(r.verdict, AnswerAgrees(e.expected, b.response, cfg, parse),
                  GoldenAgrees(e.expected, SideOf(b), cfg)))
  }

  method VerifyOne(e: Golden.Entry, n: Stack, shot: Shot, cfg: Config, parse: string -> Option<Value>,
                   attr: Attribution)
    returns (r: Result)
    requires Calm(shot.w)
    modifies Footprint(n)
    ensures Verified(r, e, old(Now(n)), shot, attr, cfg, parse)
    ensures Now(n) == FireFrom(old(Now(n)), shot, attr).after
  {
    hide FireFrom, Calm, SourceDies, AnswerAgrees, GoldenAgrees, GoldenDiffs, Now;
    FiredExactly(Now(n), shot, attr);
    var y := FireStack(n, shot, attr);
    if y.FireFailed? { return Result(e.name, ERROR, [], "new: " + y.reason); }
    r := CompareGolden(e, SideOf(y), cfg, parse);
  }

  ghost function AllSent(shots: seq<Shot>): (vs: seq<Option<Shot>>)
    ensures |vs| == |shots| && ((forall i :: 0 <= i < |shots| ==> Calm(shots[i].w)) ==> AllCalm(vs))
  {
    seq(|shots|, i requires 0 <= i < |shots| => Some(shots[i]))
  }

  // A whole golden, in order, against the new stack, and what the source handles afterwards.
  method VerifyAll(es: seq<Golden.Entry>, shots: seq<Shot>, n: Stack, cfg: Config, parse: string -> Option<Value>,
                   attr: Attribution, late: Meanwhile)
    returns (rs: seq<Result>)
    requires |shots| == |es| && forall i :: 0 <= i < |shots| ==> Calm(shots[i].w)
    modifies Footprint(n)
    ensures |rs| == |es|
    ensures var f, vs := old(Now(n)), AllSent(shots);
            && (forall i :: 0 <= i < |es| ==>
                  Verified(rs[i], es[i], FeedAt(f, vs, attr, i), shots[i], attr, cfg, parse))
            && Now(n) == Pumped(FeedAt(f, vs, attr, |es|), late)
  {
    hide Verified, Calm, AllCalm, Now, FireFrom, FeedAt, Visited, Pumped;
    ghost var f, vs := Now(n), AllSent(shots);
    rs := [];
    FeedFirst(f, vs, attr);
    var i := 0;
    while i < |es|
      invariant i == |rs| <= |es| && Now(n) == FeedAt(f, vs, attr, i)
      invariant forall k :: 0 <= k < i ==> Verified(rs[k], es[k], FeedAt(f, vs, attr, k), shots[k], attr, cfg, parse)
    {
      var r := VerifyOne(es[i], n, shots[i], cfg, parse, attr);
      FeedNext(f, vs, attr, i);
      rs := rs + [r];
      i := i + 1;
    }
    Pump(n, late);
  }
}
