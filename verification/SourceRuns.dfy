// A change source over a run of requests: what it is charged with, and whose that is.
module SourceRuns {
  import opened Firing
  import opened Optional
  import opened Polling
  import opened Rounds
  import opened Windows
  import opened Writesets
  import BinlogCapture
  import PgCapture

  // ----- a run, as one source sees it ----------------------------------------------------------

  // A source over one request of a run; one that is not sent opens no window.
  ghost function Visited(f: Feed, v: Option<Shot>, attr: Attribution): Firing
    requires v != None ==> Calm(v.value.w)
  {
    match v case Some(shot) => FireFrom(f, shot, attr) case None => Firing(FireFailed("not sent"), f, Skipped([]))
  }

  ghost predicate AllCalm(vs: seq<Option<Shot>>) { forall i :: 0 <= i < |vs| ==> vs[i] != None ==> Calm(vs[i].value.w) }

  // The source as request i finds it.
  ghost function FeedAt(f: Feed, vs: seq<Option<Shot>>, attr: Attribution, i: nat): Feed
    requires AllCalm(vs) && i <= |vs|
  {
    if i == 0 then f else Visited(FeedAt(f, vs, attr, i - 1), vs[i - 1], attr).after
  }

  lemma FeedFirst(f: Feed, vs: seq<Option<Shot>>, attr: Attribution)
    requires AllCalm(vs)
    ensures FeedAt(f, vs, attr, 0) == f
  {
  }

  lemma FeedNext(f: Feed, vs: seq<Option<Shot>>, attr: Attribution, i: nat)
    requires AllCalm(vs) && i < |vs|
    ensures FeedAt(f, vs, attr, i + 1) == Visited(FeedAt(f, vs, attr, i), vs[i], attr).after
    ensures vs[i] != None ==> FeedAt(f, vs, attr, i + 1) == FireFrom(FeedAt(f, vs, attr, i), vs[i].value, attr).after
  {
    hide FireFrom, Calm;
  }

  ghost function FiringAt(f: Feed, vs: seq<Option<Shot>>, attr: Attribution, i: nat): Firing
    requires AllCalm(vs) && i < |vs|
  {
    Visited(FeedAt(f, vs, attr, i), vs[i], attr)
  }

  // The first n rounds of a source, and the windows it handed off in them.
  ghost function RoundsOf(f: Feed, vs: seq<Option<Shot>>, attr: Attribution, n: nat): (rs: seq<Round<RowChange>>)
    requires AllCalm(vs) && n <= |vs|
    ensures |rs| == n
  {
    seq(n, i requires 0 <= i < n => FiringAt(f, vs, attr, i).round)
  }

  ghost function Charges(f: Feed, vs: seq<Option<Shot>>, attr: Attribution, n: nat): seq<seq<RowChange>>
    requires AllCalm(vs) && n <= |vs|
  {
    if n == 0 then [] else Charges(f, vs, attr, n - 1) + Charge(FiringAt(f, vs, attr, n - 1).fired)
  }

  // Over a run in which no source dies, the requests that miss are those without an answer.
  lemma {:induction false} HealthyRun(f: Feed, vs: seq<Option<Shot>>, attr: Attribution, i: nat)
    requires AllCalm(vs) && i <= |vs| && Alive(f)
    requires forall k :: 0 <= k < |vs| && vs[k] != None ==> Healthy(vs[k].value.w)
    ensures Alive(FeedAt(f, vs, attr, i))
    ensures i < |vs| && vs[i] != None ==>
              (Missed(FeedAt(f, vs, attr, i), vs[i].value, attr) <==> vs[i].value.call.NoAnswer?)
  {
    hide Alive, Healthy, SourceDies, FireFrom, Calm;
    if i > 0 {
      HealthyRun(f, vs, attr, i - 1);
      if vs[i - 1] != None { HealthyFires(FeedAt(f, vs, attr, i - 1), vs[i - 1].value, attr); }
    }
    if i < |vs| && vs[i] != None { HealthyFires(FeedAt(f, vs, attr, i), vs[i].value, attr); }
  }

  // ----- what a run charges ----------------------------------------------------------------

  lemma VisitSettles(f: Feed, v: Option<Shot>, attr: Attribution, taken: seq<seq<RowChange>>)
    requires (v != None ==> Calm(v.value.w)) && !f.NoFeed?
    ensures var g := Visited(f, v, attr);
            && Log(Buffer(g.after), taken + Charge(g.fired)) == Settled(Kind(f), Log(Buffer(f), taken), g.round)
            && (g.round.Handed? <==> g.fired.Fired?) && Kind(g.after) == Kind(f) && !g.after.NoFeed?
  {
    hide FireFrom, Buffer, Calm;
    if v != None {
      FiringSettles(f, v.value, attr, taken);
    } else {
      assert taken + [] == taken && Buffer(f) + [] == Buffer(f);
    }
  }

  // A run is a run of windows: what the source holds and has handed off.
  lemma {:induction false} RunSettles(f: Feed, vs: seq<Option<Shot>>, attr: Attribution, n: nat)
    requires AllCalm(vs) && n <= |vs| && !f.NoFeed? && Buffer(f) == []
    ensures Log(Buffer(FeedAt(f, vs, attr, n)), Charges(f, vs, attr, n))
              == Continue(Kind(f), Log([], []), AllSteps(RoundsOf(f, vs, attr, n)))
    ensures !FeedAt(f, vs, attr, n).NoFeed? && Kind(FeedAt(f, vs, attr, n)) == Kind(f)
    ensures forall i :: 0 <= i < n ==>
              (RoundsOf(f, vs, attr, n)[i].Handed? <==> FiringAt(f, vs, attr, i).fired.Fired?)
  {
    hide Visited, Buffer, AllSteps, Continue, Settled, Calm, Kind;
    if n > 0 {
      RunSettles(f, vs, attr, n - 1);
      VisitSettles(FeedAt(f, vs, attr, n - 1), vs[n - 1], attr, Charges(f, vs, attr, n - 1));
      RoundsSnoc(Kind(f), Log([], []), RoundsOf(f, vs, attr, n - 1), FiringAt(f, vs, attr, n - 1).round);
      assert RoundsOf(f, vs, attr, n) == RoundsOf(f, vs, attr, n - 1) + [FiringAt(f, vs, attr, n - 1).round];
    } else {
      ContinueNone(Kind(f), Log([], []));
      assert AllSteps(RoundsOf(f, vs, attr, 0)) == [] by { assert RoundsOf(f, vs, attr, 0) == []; NoSteps(); }
    }
  }

  lemma NoSteps()
    ensures AllSteps([]) == []
  {
  }

  // All that is delivered to a MySQL source over the first n requests.
  ghost function DeliveredBy(f: Feed, vs: seq<Option<Shot>>, attr: Attribution, n: nat): seq<BinlogCapture.Delivery>
    requires AllCalm(vs) && n <= |vs|
  {
    if n == 0 then []
    else
      DeliveredBy(f, vs, attr, n - 1)
        + (if vs[n - 1] == None then [] else ShotDeliveries(FeedAt(f, vs, attr, n - 1), vs[n - 1].value, attr))
  }

  ghost function ShotDeliveries(f: Feed, shot: Shot, attr: Attribution): seq<BinlogCapture.Delivery>
    requires Calm(shot.w)
  {
    shot.w.before.deliveries + shot.w.during.deliveries
      + (if shot.call.NoAnswer? then [] else Polled(Opened(f, shot.w), attr, shot.w).deliveries)
  }

  lemma FireMySQL(f: Feed, shot: Shot, attr: Attribution)
    requires Calm(shot.w) && f.MySQLFeed?
    ensures var w := shot.w;
            var p := BinlogCapture.HandledAll(f.b, w.before.deliveries);
            var o := BinlogCapture.HandledAll(BinlogCapture.Begun(p), w.during.deliveries);
            var polled, e := BinlogCapture.Polled(o, attr, w.t0, w.polls), BinlogCapture.Taking(o, attr, w.t0, w.polls);
            var g, ds := FireFrom(f, shot, attr), ShotDeliveries(f, shot, attr);
            if shot.call.NoAnswer? then
              g.fired.FireFailed? && g.after == MySQLFeed(o) && ds == w.before.deliveries + w.during.deliveries
            else
              && g.after == MySQLFeed(e.after) && (g.fired.Fired? <==> e.outcome.Taken?)
              && (g.fired.Fired? ==> g.fired.changes == e.outcome.changes)
              && ds == w.before.deliveries + (w.during.deliveries + polled)
  {
    hide BinlogCapture.HandledAll, BinlogCapture.Taking, BinlogCapture.Polled, Brought, Calm;
  }

  // One request: the buffer and the window charged are the buffer before and all that the
  // deliveries bring.
  lemma ShotArrivals(f: Feed, shot: Shot, attr: Attribution)
    requires Calm(shot.w) && f.MySQLFeed?
    ensures var g, ds := FireFrom(f, shot, attr), ShotDeliveries(f, shot, attr);
            && g.after.MySQLFeed? && BinlogCapture.SameReader(g.after.b, BinlogCapture.HandledAll(f.b, ds))
            && Flatten(Charge(g.fired)) + Buffer(g.after) == Buffer(f) + BinlogCapture.Arrived(f.b, ds)
  {
    hide BinlogCapture.HandledAll, BinlogCapture.Arrived, Flatten, BinlogCapture.Taking, BinlogCapture.Polled,
         BinlogCapture.Timely, FireFrom, ShotDeliveries, Charge;
    var w := shot.w;
    var p := BinlogCapture.HandledAll(f.b, w.before.deliveries);
    var o := BinlogCapture.HandledAll(BinlogCapture.Begun(p), w.during.deliveries);
    var during := w.during.deliveries;
    var more := if shot.call.NoAnswer? then during else during + BinlogCapture.Polled(o, attr, w.t0, w.polls);
    FireMySQL(f, shot, attr);
    assert ShotDeliveries(f, shot, attr) == w.before.deliveries + more;
    BinlogCapture.HandledConcat(f.b, w.before.deliveries, more);
    BinlogCapture.HandledChanges(f.b, w.before.deliveries);
    AfterOpening(p, shot, attr);
    FlattenCharge(FireFrom(f, shot, attr).fired);
  }

  lemma FlattenCharge(r: Fired)
    ensures Flatten(Charge(r)) == if r.Fired? then r.changes else []
  {
    if r.Fired? { FlattenSnoc([], r.changes); assert [] + [r.changes] == [r.changes] && [] + r.changes == r.changes; }
  }

  // From the opening on.
  lemma AfterOpening(p: BinlogCapture.Feed, shot: Shot, attr: Attribution)
    requires Calm(shot.w)
    ensures var w := shot.w;
            var o := BinlogCapture.HandledAll(BinlogCapture.Begun(p), w.during.deliveries);
            var polled, e := BinlogCapture.Polled(o, attr, w.t0, w.polls), BinlogCapture.Taking(o, attr, w.t0, w.polls);
            && (shot.call.NoAnswer? ==>
                  && o.changes == p.changes + BinlogCapture.Arrived(p, w.during.deliveries)
                  && BinlogCapture.SameReader(o, BinlogCapture.HandledAll(p, w.during.deliveries)))
            && BinlogCapture.SameReader(e.after, BinlogCapture.HandledAll(p, w.during.deliveries + polled))
            && (if e.outcome.Taken? then e.outcome.changes + e.after.changes else e.after.changes)
                 == p.changes + BinlogCapture.Arrived(p, w.during.deliveries + polled)
  {
    var w, begun := shot.w, BinlogCapture.Begun(p);
    var o := BinlogCapture.HandledAll(begun, w.during.deliveries);
    var polled := BinlogCapture.Polled(o, attr, w.t0, w.polls);
    BinlogCapture.HandledChanges(begun, w.during.deliveries);
    BinlogCapture.ArrivedAlike(begun, p, w.during.deliveries);
    BinlogCapture.ArrivedAlike(begun, p, w.during.deliveries + polled);
    BinlogCapture.HandledConcat(begun, w.during.deliveries, polled);
    BinlogCapture.TakingReads(o, attr, w.t0, w.polls);
    BinlogCapture.EndingHandsOff(p, w.during.deliveries, attr, w.t0, w.polls);
    hide BinlogCapture.HandledAll, BinlogCapture.Arrived, BinlogCapture.Taking, BinlogCapture.Polled;
  }

  lemma {:induction false} FlattenConcat(x: seq<seq<RowChange>>, r: Fired)
    ensures Flatten(x + Charge(r)) == Flatten(x) + Flatten(Charge(r))
  {
    FlattenCharge(r);
    if r.Fired? {
      FlattenSnoc(x, r.changes);
    } else {
      assert x + [] == x;
    }
  }

  lemma NoArrivals(b: BinlogCapture.Feed)
    ensures Flatten([]) == BinlogCapture.Arrived(b, []) == [] && BinlogCapture.HandledAll(b, []) == b
  {
  }

  // The windows charged and the buffer are all that was delivered so far.
  ghost predicate Accounted(f: Feed, vs: seq<Option<Shot>>, attr: Attribution, n: nat)
    requires AllCalm(vs) && n <= |vs| && f.MySQLFeed?
  {
    var g, ds := FeedAt(f, vs, attr, n), DeliveredBy(f, vs, attr, n);
    && g.MySQLFeed? && BinlogCapture.SameReader(g.b, BinlogCapture.HandledAll(f.b, ds))
    && Flatten(Charges(f, vs, attr, n)) + Buffer(g) == BinlogCapture.Arrived(f.b, ds)
  }

  lemma {:induction false} RunArrivals(f: Feed, vs: seq<Option<Shot>>, attr: Attribution, n: nat)
    requires AllCalm(vs) && n <= |vs| && f.MySQLFeed? && Buffer(f) == []
    ensures Accounted(f, vs, attr, n)
  {
    hide Accounted, AllCalm, Buffer;
    if n == 0 {
      NothingAccounted(f, vs, attr);
    } else {
      RunArrivals(f, vs, attr, n - 1);
      OneAccounted(f, vs, attr, n - 1);
    }
  }

  lemma NothingAccounted(f: Feed, vs: seq<Option<Shot>>, attr: Attribution)
    requires AllCalm(vs) && f.MySQLFeed? && Buffer(f) == []
    ensures Accounted(f, vs, attr, 0)
  {
    hide AllCalm;
    NoArrivals(f.b);
  }

  lemma OneAccounted(f: Feed, vs: seq<Option<Shot>>, attr: Attribution, n: nat)
    requires AllCalm(vs) && n < |vs| && f.MySQLFeed? && Accounted(f, vs, attr, n)
    ensures Accounted(f, vs, attr, n + 1)
  {
    hide BinlogCapture.HandledAll, BinlogCapture.Arrived, Visited, ShotDeliveries, Flatten, Buffer, Calm, FeedAt,
         DeliveredBy, Charges;
    FeedNext(f, vs, attr, n);
    DeliveredNext(f, vs, attr, n + 1);
    OneMore(f, FeedAt(f, vs, attr, n), DeliveredBy(f, vs, attr, n), Charges(f, vs, attr, n), vs[n], attr);
  }

  lemma DeliveredNext(f: Feed, vs: seq<Option<Shot>>, attr: Attribution, n: nat)
    requires AllCalm(vs) && 0 < n <= |vs|
    ensures var g := FeedAt(f, vs, attr, n - 1);
            && Charges(f, vs, attr, n) == Charges(f, vs, attr, n - 1) + Charge(Visited(g, vs[n - 1], attr).fired)
            && DeliveredBy(f, vs, attr, n) == DeliveredBy(f, vs, attr, n - 1)
                 + (if vs[n - 1] == None then [] else ShotDeliveries(g, vs[n - 1].value, attr))
  {
    hide FeedAt, Visited, ShotDeliveries, Charge, Calm;
  }

  lemma OneMore(f: Feed, g: Feed, ds: seq<BinlogCapture.Delivery>, cs: seq<seq<RowChange>>, v: Option<Shot>,
                attr: Attribution)
    requires f.MySQLFeed? && g.MySQLFeed? && (v != None ==> Calm(v.value.w))
    requires BinlogCapture.SameReader(g.b, BinlogCapture.HandledAll(f.b, ds))
    requires Flatten(cs) + Buffer(g) == BinlogCapture.Arrived(f.b, ds)
    ensures var h := Visited(g, v, attr);
            var all := ds + (if v == None then [] else ShotDeliveries(g, v.value, attr));
            && h.after.MySQLFeed? && BinlogCapture.SameReader(h.after.b, BinlogCapture.HandledAll(f.b, all))
            && Flatten(cs + Charge(h.fired)) + Buffer(h.after) == BinlogCapture.Arrived(f.b, all)
  {
    hide BinlogCapture.HandledAll, BinlogCapture.Arrived, FireFrom, ShotDeliveries, Calm, Flatten, Buffer, Charge;
    if v == None {
      assert ds + [] == ds;
      FlattenConcat(cs, FireFailed("not sent"));
      FlattenCharge(FireFailed("not sent"));
    } else {
      var more := ShotDeliveries(g, v.value, attr);
      var r := FireFrom(g, v.value, attr);
      ShotArrivals(g, v.value, attr);
      FlattenConcat(cs, r.fired);
      BinlogCapture.HandledConcat(f.b, ds, more);
      BinlogCapture.ArrivedAlike(g.b, BinlogCapture.HandledAll(f.b, ds), more);
      assert Flatten(cs) + Flatten(Charge(r.fired)) + Buffer(r.after)
          == Flatten(cs) + (Buffer(g) + BinlogCapture.Arrived(g.b, more));
    }
  }

  // Over a whole run from a fresh MySQL source nothing is lost or charged twice: the changes
  // charged, followed by what is left in the buffer, are all that was delivered, in order.
  lemma NothingLost(vs: seq<Option<Shot>>, attr: Attribution, late: Meanwhile)
    requires AllCalm(vs)
    ensures var f, n := MySQLFeed(BinlogCapture.FRESH), |vs|;
            Flatten(Charges(f, vs, attr, n)) + Buffer(Pumped(FeedAt(f, vs, attr, n), late))
              == BinlogCapture.Arrived(BinlogCapture.FRESH, DeliveredBy(f, vs, attr, n) + late.deliveries)
  {
    hide BinlogCapture.HandledAll, BinlogCapture.Arrived, Flatten, Charges, FeedAt, DeliveredBy, AllCalm;
    var f, n := MySQLFeed(BinlogCapture.FRESH), |vs|;
    RunArrivals(f, vs, attr, n);
    var g, ds := FeedAt(f, vs, attr, n), DeliveredBy(f, vs, attr, n);
    PumpedSettles(g, late);
    BinlogCapture.HandledConcat(f.b, ds, late.deliveries);
    BinlogCapture.ArrivedAlike(g.b, BinlogCapture.HandledAll(f.b, ds), late.deliveries);
    assert Brought(g, late) == BinlogCapture.Arrived(g.b, late.deliveries);
    hide Buffer, Brought, Pumped;
  }

  // ----- whom the changes are charged to -------------------------------------------------------

  // The owners of what arrived over a run and after it, which no source can see.
  ghost predicate Tagging(tagged: seq<Round<Tagged>>, f: Feed, vs: seq<Option<Shot>>, attr: Attribution,
                          late: Meanwhile)
    requires AllCalm(vs)
  {
    UntagRounds(tagged) == RoundsOf(f, vs, attr, |vs|) + [Skipped(Brought(FeedAt(f, vs, attr, |vs|), late))]
  }

  lemma LastApart<T>(x: seq<seq<T>>, a: seq<T>, y: seq<seq<T>>, b: seq<T>)
    requires x + [a] == y + [b]
    ensures x == y && a == b
  {
    var u := x + [a];
    assert |x| == |y| && u[..|x|] == x && (y + [b])[..|y|] == y && u[|x|] == a && (y + [b])[|y|] == b;
  }

  // Hand-offs are matched with the requests that got them.
  lemma {:induction false} ChargeOf(f: Feed, vs: seq<Option<Shot>>, attr: Attribution, n: nat,
                                    tagged: seq<Round<Tagged>>, i: nat)
    requires AllCalm(vs) && i < n <= |vs| && n <= |tagged|
    requires forall k :: 0 <= k < n ==> (tagged[k].Handed? <==> FiringAt(f, vs, attr, k).fired.Fired?)
    requires Charges(f, vs, attr, n) == HandOffs(Kind(f), tagged, n) && FiringAt(f, vs, attr, i).fired.Fired?
    ensures FiringAt(f, vs, attr, i).fired.changes == Untag(Window(Kind(f), tagged, i))
  {
    hide Window, Untag, FiringAt;
    var r, cs, hs := FiringAt(f, vs, attr, n - 1).fired, Charges(f, vs, attr, n - 1), HandOffs(Kind(f), tagged, n - 1);
    if r.Fired? {
      LastApart(cs, r.changes, hs, Untag(Window(Kind(f), tagged, n - 1)));
    } else {
      assert cs + [] == cs && hs + [] == hs;
    }
    if i < n - 1 { ChargeOf(f, vs, attr, n - 1, tagged, i); }
  }

  lemma TaggedRound(rounds: seq<Round<RowChange>>, tail: seq<RowChange>, tagged: seq<Round<Tagged>>)
    requires UntagRounds(tagged) == rounds + [Skipped(tail)]
    ensures |tagged| == |rounds| + 1 && UntagRounds(tagged)[..|rounds|] == rounds
    ensures forall k :: 0 <= k < |rounds| ==> (tagged[k].Handed? <==> rounds[k].Handed?)
  {
    hide Untag;
    forall k | 0 <= k < |rounds| ensures tagged[k].Handed? <==> rounds[k].Handed? {
      assert UntagRound(tagged[k]) == UntagRounds(tagged)[k] == rounds[k];
    }
  }

  ghost predicate Fresh(f: Feed) { f == MySQLFeed(BinlogCapture.FRESH) || f == PgFeed(PgCapture.FRESH) }

  // Over a whole run from a fresh source, whatever arrives whenever: a request that gets a
  // window is charged with exactly its own changes if and only if everything that arrives in
  // its interval is its own, and nothing of its own arrives elsewhere. The interval is, for
  // MySQL, from the previous hand-off to its own; for PostgreSQL, from its opening to its
  // hand-off.
  lemma OwnCharges(f: Feed, vs: seq<Option<Shot>>, attr: Attribution, late: Meanwhile,
                   tagged: seq<Round<Tagged>>, i: nat)
    requires Fresh(f) && AllCalm(vs) && Tagging(tagged, f, vs, attr, late)
    requires i < |vs| && FiringAt(f, vs, attr, i).fired.Fired?
    ensures |tagged| == |vs| + 1 && tagged[i].Handed?
    ensures FiringAt(f, vs, attr, i).fired.changes == Untag(Window(Kind(f), tagged, i))
    ensures Window(Kind(f), tagged, i) == OwnOf(i, History(tagged)) <==> InPlace(Kind(f), tagged, i)
  {
    hide Continue, AllSteps, HandOffs, Untag, Arrivals, Since, UntagRounds, Charges, Window, History, InPlace, OwnOf,
         FiringAt, FeedAt, Brought;
    TaggedRound(RoundsOf(f, vs, attr, |vs|), Brought(FeedAt(f, vs, attr, |vs|), late), tagged);
    RunSettles(f, vs, attr, |vs|);
    RoundsHandOff(Kind(f), tagged, |vs|);
    ChargeOf(f, vs, attr, |vs|, tagged, i);
    ChargedExactly(Kind(f), tagged, i);
  }
}
