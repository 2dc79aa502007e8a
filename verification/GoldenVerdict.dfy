// Record, store, read back, verify: what a golden's verdict means.
module GoldenVerdict {
  import opened Arith
  import opened Values
  import opened Sorting
  import opened Optional
  import opened Writesets
  import opened WritesetDiff
  import opened Responses
  import opened Doubles
  import opened Numbers
  import opened Golden
  import opened GoldenFile
  import opened Polling
  import opened Firing
  import opened Replay
  import Recorder
  import JsonDiff

  // Every integer of the entry fits a float64.
  ghost predicate RepresentableEntry(e: WriteEntry) {
    Representable(e.pk) && Representable(Obj(e.values)) && Representable(Obj(e.changed))
  }

  lemma RoundedEntryExact(e: WriteEntry)
    ensures RoundedEntry(e) == e <==> RepresentableEntry(e)
    ensures Representable(Obj(e.Payload())) ==> DecodedMap(e.Payload()) == e.Payload()
    ensures RoundedEntry(e).Payload() == DecodedMap(e.Payload())
  {
    DecodedExact(e.pk);
    DecodedExact(Obj(e.values));
    DecodedExact(Obj(e.changed));
    assert Decoded(Obj(e.values)) == Obj(DecodedMap(e.values)) && Decoded(Obj(e.changed)) == Obj(DecodedMap(e.changed));
    assert DecodedMap(e.changed).Keys == e.changed.Keys && DecodedMap(e.values).Keys == e.values.Keys;
    assert e.changed == map[] <==> e.changed.Keys == {};
    assert DecodedMap(e.changed) == map[] <==> DecodedMap(e.changed).Keys == {};
  }

  lemma RoundedWritesetExact(ws: seq<WriteEntry>)
    requires forall e :: e in ws ==> RepresentableEntry(e)
    ensures RoundedWriteset(ws) == ws
  {
    forall i | 0 <= i < |ws| ensures RoundedEntry(ws[i]) == ws[i] { RoundedEntryExact(ws[i]); }
  }

  // ----- float64 is the only loss ---------------------------------------------------------

  lemma {:induction false} RoundedGroup(ws: seq<WriteEntry>, k: string)
    requires forall e :: e in ws ==> Representable(e.pk)
    ensures Group(RoundedWriteset(ws), k) == RoundedWriteset(Group(ws, k))
  {
    if ws != [] {
      var e := ws[0];
      assert e in ws && forall f :: f in ws[1..] ==> f in ws;
      DecodedExact(e.pk);
      assert Key(RoundedEntry(e)) == Key(e);
      RoundedCons(ws);
      assert RoundedWriteset(ws)[0] == RoundedEntry(e) && RoundedWriteset(ws)[1..] == RoundedWriteset(ws[1..]);
      RoundedGroup(ws[1..], k);
      if Key(e) == k {
        RoundedCons([e] + Group(ws[1..], k));
        assert ([e] + Group(ws[1..], k))[1..] == Group(ws[1..], k);
      }
    }
  }

  lemma {:induction false} MemberInGroup(ws: seq<WriteEntry>, e: WriteEntry)
    requires e in ws
    ensures e in Group(ws, Key(e))
  {
    if ws[0] != e { assert e in ws[1..]; MemberInGroup(ws[1..], e); }
  }

  lemma {:induction false} DecodedIdempotent(v: Value)
    ensures Decoded(Decoded(v)) == Decoded(v)
  {
    hide FloatValue, OfInt;
    match v
    case Int(i) => ReadsOnce(OfInt(i));
    case Arr(items) =>
      forall i | 0 <= i < |items| ensures Decoded(Decoded(items[i])) == Decoded(items[i]) {
        DecodedIdempotent(items[i]);
      }
      assert Decoded(Decoded(v)).items == Decoded(v).items;
    case Obj(fields) =>
      forall k | k in fields ensures Decoded(Decoded(fields[k])) == Decoded(fields[k]) { DecodedIdempotent(fields[k]); }
      assert Decoded(Decoded(v)).fields == Decoded(v).fields;
    case _ =>
  }

  lemma KeptKey(ws: seq<WriteEntry>, e: WriteEntry)
    requires e in ws && WritesetsAgree(RoundedWriteset(ws), ws)
    ensures Representable(e.pk)
  {
    var k, rs := Key(e), RoundedWriteset(ws);
    MemberInGroup(ws, e);
    assert GroupsAgree(Group(rs, k), Group(ws, k));
    var g := Group(rs, k)[0];
    assert g in Group(rs, k);
    GroupMembers(rs, k);
    var i :| 0 <= i < |ws| && RoundedEntry(ws[i]) == g;
    KeyInjective(g, e);
    DecodedIdempotent(ws[i].pk);
    DecodedExact(e.pk);
  }

  lemma KeptPayload(ws: seq<WriteEntry>, e: WriteEntry)
    requires e in ws && WritesetsAgree(RoundedWriteset(ws), ws) && forall f :: f in ws ==> Representable(f.pk)
    ensures DecodedMap(e.Payload()) == e.Payload()
  {
    var k := Key(e);
    MemberInGroup(ws, e);
    RoundedGroup(ws, k);
    var g := Group(ws, k);
    var i :| 0 <= i < |g| && g[i] == e;
    assert GroupsAgree(Group(RoundedWriteset(ws), k), g);
    RoundedEntryExact(e);
    SameViewRounded(e.Payload());
  }

  lemma SameViewRounded(p: map<string, Value>)
    requires View(DecodedMap(p)) == View(p)
    ensures DecodedMap(p) == p
  {
    forall k | k in p ensures Decoded(p[k]) == p[k] {
      if p[k] != JsonDiff.ABSENT {
        assert k in View(p) && View(p)[k] == p[k];
        assert k in View(DecodedMap(p)) && View(DecodedMap(p))[k] == Decoded(p[k]);
      }
    }
  }

  // A normalised write-set read back from a golden agrees with itself as it was recorded
  // exactly if every integer in it is a float64.
  lemma StorageExact(ws: seq<WriteEntry>)
    requires forall e :: e in ws ==> Formed(e)
    ensures WritesetsAgree(RoundedWriteset(ws), ws) <==> forall e :: e in ws ==> RepresentableEntry(e)
  {
    if WritesetsAgree(RoundedWriteset(ws), ws) {
      forall e | e in ws ensures Representable(e.pk) { KeptKey(ws, e); }
      forall e | e in ws ensures RepresentableEntry(e) {
        KeptPayload(ws, e);
        DecodedExact(Obj(e.Payload()));
        DecodedExact(Obj(map[]));
        assert Decoded(Obj(e.Payload())) == Obj(DecodedMap(e.Payload()));
        assert Decoded(Obj(map[])) == Obj(map[]);
        assert Formed(e);
      }
    }
    if forall e :: e in ws ==> RepresentableEntry(e) { RoundedWritesetExact(ws); }
  }

  // ----- the verdict of a golden entry -----------------------------------------------------------

  ghost predicate GoldenMatch(x: Expected, b: Side, cfg: Config, parse: string -> Option<Value>) {
    AnswerAgrees(x, b.response, cfg, parse) && GoldenAgrees(x, b, cfg)
  }

  // The same status, and bodies that agree.
  ghost predicate SameAnswer(a: Response, b: Response, cfg: Config) {
    a.status == b.status && BodiesAgree(a.body, b.body, cfg.opts)
  }

  // Record side a, store it, read it back, and verify side b: with a write-set, MATCH means
  // the responses agree and the same effects were committed, in any order; without one, the
  // responses agree.
  lemma GoldenVerdict(e: Entry, a: Side, b: Side, cfg: Config, parse: string -> Option<Value>)
    requires e.expected.status == a.response.status && e.expected.body == a.response.body.text
    requires a.response.body.json == parse(a.response.body.text)
    requires e.expected.writeset == None || e.expected.writeset == Some(Writeset(a, cfg))
    requires forall w :: w in Writeset(a, cfg) ==> RepresentableEntry(w)
    requires NoAbsentText(Writeset(a, cfg)) && NoAbsentText(Writeset(b, cfg))
    ensures var x := Rounded(e).expected;
      && (x.writeset == None <==> e.expected.writeset == None)
      && (GoldenMatch(x, b, cfg, parse)
          <==> SameAnswer(a.response, b.response, cfg)
               && (e.expected.writeset == None || SameEffects(a, b, cfg)))
  {
    RoundedWritesetExact(Writeset(a, cfg));
    WritesetVerdict(a, b, cfg);
  }

  // In particular, a stack that gives the same status and body and commits the same effects
  // in any order, by any SQL, with any noise, is a MATCH against the stored golden, whatever
  // its columns hold.
  lemma RecordedStackMatches(e: Entry, a: Side, b: Side, cfg: Config, parse: string -> Option<Value>)
    requires e.expected == Expected(a.response.status, a.response.body.text, Some(Writeset(a, cfg)))
    requires b.response.status == a.response.status
    requires b.response.body == Body(a.response.body.text, parse(a.response.body.text))
    requires SameObservable(a.changes, b.changes, cfg.noiseColumns, cfg.ignoreTables)
    requires forall w :: w in Writeset(a, cfg) ==> RepresentableEntry(w)
    ensures var x := Rounded(e).expected;
      GoldenMatch(x, b, cfg, parse)
  {
    RoundedWritesetExact(Writeset(a, cfg));
    ObservableOnly(a.changes, b.changes, cfg.noiseColumns, cfg.ignoreTables);
  }

  // The whole path through the file: if every line fits, the reader returns, for every
  // recorded entry, the one the verdicts above are about.
  lemma StoredEntry(meta: Meta, es: seq<Entry>, i: nat)
    requires i < |es| && AllFit(Written(meta, es), 0)
    ensures var r := ReadAll(Written(meta, es));
            r.Loaded? && r.meta == meta && |r.entries| == |es| && Rounded(es[i]) in r.entries
    ensures (forall e :: e in es ==> e.ts == "") ==> ReadAll(Written(meta, es)).entries[i] == Rounded(es[i])
  {
    ReadWritten(meta, es);
    var all := RoundedAll(es);
    ReadOrder(all);
    var r := StableSort(all, TsOf);
    assert all[i] in multiset(all) && all[i] in multiset(r);
    assert |r| == |multiset(r)| == |multiset(all)| == |all|;
    if forall e :: e in es ==> e.ts == "" {
      forall e | e in all ensures e.ts == "" {
        var j :| 0 <= j < |es| && all[j] == e;
        assert es[j] in es;
      }
    }
  }

  // From end to end: a golden is recorded without stamps and read back, and the verifier
  // reports on its entry i. The verdict is MATCH exactly if the new stack's response agrees
  // with the recorded one and, where a write-set was recorded, it committed the same effects.
  lemma RecordedVerified(meta: Meta, es: seq<Entry>, i: nat, a: Side, b: Side, cfg: Config,
                         parse: string -> Option<Value>, r: Result, f: Feed, shot: Shot, attr: Attribution)
    requires i < |es| && AllFit(Written(meta, es), 0) && forall e :: e in es ==> e.ts == ""
    requires es[i].expected.status == a.response.status && es[i].expected.body == a.response.body.text
    requires a.response.body.json == parse(a.response.body.text)
    requires es[i].expected.writeset == None || es[i].expected.writeset == Some(Writeset(a, cfg))
    requires forall w :: w in Writeset(a, cfg) ==> RepresentableEntry(w)
    requires NoAbsentText(Writeset(a, cfg)) && NoAbsentText(Writeset(b, cfg))
    requires Calm(shot.w) && FireFrom(f, shot, attr).fired == Fired(b.response, b.changes)
    ensures var back := ReadAll(Written(meta, es));
            && back.Loaded? && i < |back.entries|
            && (Verified(r, back.entries[i], f, shot, attr, cfg, parse) ==>
                  (r.verdict == MATCH
                   <==> SameAnswer(a.response, b.response, cfg)
                        && (es[i].expected.writeset == None || SameEffects(a, b, cfg))))
  {
    hide ReadAll, AllFit, SameAnswer, AnswerAgrees, SameEffects, Writeset, GoldenAgrees, Rounded, FireFrom, Calm,
         SourceDies, SourceCause;
    FiredExactly(f, shot, attr);
    StoredEntry(meta, es, i);
    GoldenVerdict(es[i], a, b, cfg, parse);
  }

  // What the upstream answered, and the changes its source handed off for it.
  ghost function Proxied(x: Recorder.Exchange, c: Closing, parse: string -> Option<Value>): Side {
    Side(Response(x.status, Body(x.answer, parse(x.answer)), map[]), if c.outcome.Taken? then c.outcome.changes else [])
  }

  // From the exchange to the verdict. The recorder serves an exchange and writes the entry,
  // the file is read back, and a stack is verified against it: the verdict is MATCH exactly
  // if the stack gives the recorded status and a body that agrees with the recorded one and,
  // where the recorder's source handed off a window, commits the effects in it.
  lemma ServedVerified(meta: Meta, es: seq<Entry>, i: nat, number: nat, x: Recorder.Exchange, c: Closing, b: Side,
                       cfg: Config, parse: string -> Option<Value>, r: Result, f: Feed, shot: Shot, attr: Attribution)
    requires i < |es| && AllFit(Written(meta, es), 0) && forall e :: e in es ==> e.ts == ""
    requires Recorder.Records(es[i], number, x, Recorder.WindowOf(c, cfg))
    requires forall w :: w in Writeset(Proxied(x, c, parse), cfg) ==> RepresentableEntry(w)
    requires NoAbsentText(Writeset(Proxied(x, c, parse), cfg)) && NoAbsentText(Writeset(b, cfg))
    requires Calm(shot.w) && FireFrom(f, shot, attr).fired == Fired(b.response, b.changes)
    ensures var back := ReadAll(Written(meta, es));
            && back.Loaded? && i < |back.entries|
            && (Verified(r, back.entries[i], f, shot, attr, cfg, parse) ==>
                  (r.verdict == MATCH
                   <==> x.status == b.response.status
                        && BodiesAgree(Body(x.answer, parse(x.answer)), b.response.body, cfg.opts)
                        && (c.after.NoFeed? || c.outcome.Failed? || SameEffects(Proxied(x, c, parse), b, cfg))))
  {
    hide ReadAll, AllFit, BodiesAgree, SameEffects, FireFrom, Calm, Verified, Normalized, NoAbsentText;
    RecordedVerified(meta, es, i, Proxied(x, c, parse), b, cfg, parse, r, f, shot, attr);
  }

  // 2^53 + 1 is the least integer that does not survive: an entry holding it no longer
  // agrees with itself.
  lemma OddBigIntegerBreaks(table: string, pk: Value)
    ensures var w := WriteEntry(table, INSERT, pk, map["n" := Int(MANTISSA + 1)], map[]);
            Formed(w) && !RepresentableEntry(w) && !WritesetsAgree(RoundedWriteset([w]), [w])
  {
    var w := WriteEntry(table, INSERT, pk, map["n" := Int(MANTISSA + 1)], map[]);
    assert "n" in w.values;
    assert Pow2(1) == 2;
    RoundIn(MANTISSA + 1, 1);
    assert !Representable(Int(MANTISSA + 1));
    assert !Representable(Obj(w.values));
    assert w in [w];
    StorageExact([w]);
  }
}
