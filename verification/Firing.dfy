// Firing one request at a stack inside an attribution window of its change source.
module Firing {
  import opened Optional
  import opened Polling
  import opened Responses
  import opened Rounds
  import opened Windows
  import opened Writesets
  import BinlogCapture
  import PgCapture

  // The HTTP call: no answer, or the response as received.
  datatype Call = NoAnswer(reason: string) | Answered(response: Response)

  datatype Fired = FireFailed(reason: string) | Fired(response: Response, changes: seq<RowChange>)

  // ----- a change source, and what happens around one request ------------------------------

  datatype Stack = NoSource | MySQL(b: BinlogCapture.Capture) | Pg(p: PgCapture.Capture)

  // The fields of a source.
  datatype Feed = NoFeed | MySQLFeed(b: BinlogCapture.Feed) | PgFeed(p: PgCapture.Feed)

  // What a source handles while no request looks.
  datatype Meanwhile = Meanwhile(deliveries: seq<BinlogCapture.Delivery>, messages: seq<PgCapture.Message>)

  // What the source sees around one request: what it handles before the window is opened,
  // during the HTTP call, and during the polling afterwards.
  datatype Weather = Weather(
    before: Meanwhile, opening: int, during: Meanwhile, t0: int,
    polls: nat -> BinlogCapture.Poll, turns: nat -> PgCapture.Turn)

  // Time runs forward.
  ghost predicate Calm(w: Weather) {
    && BinlogCapture.InOrder(w.opening, w.during.deliveries, w.t0) && BinlogCapture.Timely(w.t0, 50, w.polls)
    && PgCapture.Paced(w.t0, w.turns)
  }

  // A request as it is fired: what the network and the source make of it.
  datatype Shot = Shot(call: Call, w: Weather)

  function Also(x: Meanwhile, y: Meanwhile): Meanwhile {
    Meanwhile(x.deliveries + y.deliveries, x.messages + y.messages)
  }

  function Kind(f: Feed): Windows.Source { if f.PgFeed? then Windows.Postgres else Windows.Binlog }

  function Buffer(f: Feed): seq<RowChange> {
    match f case NoFeed => [] case MySQLFeed(b) => b.changes case PgFeed(p) => p.changes
  }

  function Pumped(f: Feed, m: Meanwhile): Feed {
    match f
    case NoFeed => NoFeed
    case MySQLFeed(b) => MySQLFeed(BinlogCapture.HandledAll(b, m.deliveries))
    case PgFeed(p) => PgFeed(PgCapture.HandledAll(p, m.messages))
  }

  // The row changes that this brings.
  function Brought(f: Feed, m: Meanwhile): seq<RowChange> {
    match f
    case NoFeed => []
    case MySQLFeed(b) => BinlogCapture.Arrived(b, m.deliveries)
    case PgFeed(p) => PgCapture.Arrived(p, m.messages)
  }

  function Begun(f: Feed): Feed {
    match f
    case NoFeed => NoFeed
    case MySQLFeed(b) => MySQLFeed(BinlogCapture.Begun(b))
    case PgFeed(p) => PgFeed(PgCapture.Begun(p))
  }

  // The source when the window is open and the call is over.
  function Opened(f: Feed, w: Weather): Feed { Pumped(Begun(Pumped(f, w.before)), w.during) }

  datatype Closing = Closing(outcome: Outcome, after: Feed)

  // How the window ends.
  ghost function Closed(f: Feed, attr: Attribution, w: Weather): Closing
    requires Calm(w)
  {
    match f
    case NoFeed => Closing(Taken([]), NoFeed)
    case MySQLFeed(b) =>
      var e := BinlogCapture.Taking(b, attr, w.t0, w.polls);
      Closing(e.outcome, MySQLFeed(e.after))
    case PgFeed(p) =>
      var e := PgCapture.Taking(p, attr, w.t0, w.turns);
      Closing(e.outcome, PgFeed(e.after))
  }

  // What the source handles until then.
  ghost function Polled(f: Feed, attr: Attribution, w: Weather): Meanwhile
    requires Calm(w)
  {
    match f
    case NoFeed => Meanwhile([], [])
    case MySQLFeed(b) => Meanwhile(BinlogCapture.Polled(b, attr, w.t0, w.polls), [])
    case PgFeed(p) => Meanwhile([], PgCapture.Polled(p, attr, w.t0, w.turns))
  }

  // The source was dead, or its death is among what it handled by the last check.
  ghost predicate SourceDies(f: Feed, attr: Attribution, w: Weather)
    requires Calm(w)
  {
    match f
    case NoFeed => false
    case MySQLFeed(b) =>
      var g := BinlogCapture.HandledAll(b, w.before.deliveries);
      || b.err != None || BinlogCapture.Kills(w.before.deliveries)
      || BinlogCapture.Kills(BinlogCapture.Heard(g, w.during.deliveries, attr, w.t0, w.polls))
    case PgFeed(p) =>
      var g := PgCapture.HandledAll(p, w.before.messages);
      || p.err != None || PgCapture.Kills(w.before.messages)
      || PgCapture.Kills(PgCapture.Heard(g, w.during.messages, attr, w.t0, w.turns))
  }

  // What it died of: the first thing counts.
  ghost function SourceCause(f: Feed, attr: Attribution, w: Weather): Option<string>
    requires Calm(w)
  {
    match f
    case NoFeed => None
    case MySQLFeed(b) =>
      var g := BinlogCapture.HandledAll(b, w.before.deliveries);
      var early := BinlogCapture.Cause(w.before.deliveries);
      if b.err != None then b.err else if early != None then early
      else BinlogCapture.Cause(BinlogCapture.Heard(g, w.during.deliveries, attr, w.t0, w.polls))
    case PgFeed(p) =>
      var g := PgCapture.HandledAll(p, w.before.messages);
      var early := PgCapture.Cause(w.before.messages);
      if p.err != None then p.err else if early != None then early
      else PgCapture.Cause(PgCapture.Heard(g, w.during.messages, attr, w.t0, w.turns))
  }

  lemma OpenedKind(f: Feed, w: Weather)
    ensures Opened(f, w).NoFeed? <==> f.NoFeed?
  {
  }

  // A window is not handed off exactly if its source dies by the last check.
  lemma ClosedExactly(f: Feed, attr: Attribution, w: Weather)
    requires Calm(w)
    ensures var o := Closed(Opened(f, w), attr, w).outcome;
            && (o.Failed? <==> SourceDies(f, attr, w))
            && (o.Failed? ==> Some(o.reason) == SourceCause(f, attr, w))
  {
    match f
    case NoFeed =>
    case MySQLFeed(b) =>
      var g := BinlogCapture.HandledAll(b, w.before.deliveries);
      BinlogCapture.DiesExactly(b, w.before.deliveries);
      BinlogCapture.DiesOf(b, w.before.deliveries);
      BinlogCapture.EndingMeans(g, w.opening, w.during.deliveries, attr, w.t0, w.polls);
    case PgFeed(p) =>
      var g := PgCapture.HandledAll(p, w.before.messages);
      PgCapture.DiesExactly(p, w.before.messages);
      PgCapture.DiesOf(p, w.before.messages);
      PgCapture.EndingMeans(g, w.during.messages, attr, w.t0, w.turns);
  }

  lemma PumpedSettles(f: Feed, m: Meanwhile)
    ensures Buffer(Pumped(f, m)) == Buffer(f) + Brought(f, m) && Kind(Pumped(f, m)) == Kind(f)
    ensures Pumped(f, m).NoFeed? <==> f.NoFeed?
  {
    match f
    case NoFeed =>
    case MySQLFeed(b) => BinlogCapture.HandledChanges(b, m.deliveries);
    case PgFeed(p) => PgCapture.HandledEvents(p, m.messages);
  }

  // ----- firing a request inside an attribution window -------------------------------------

  datatype Firing = Firing(fired: Fired, after: Feed, round: Round<RowChange>)

  // The window is opened before the call and taken after an answer; without an answer it is
  // never taken, and what arrived stays with the source.
  ghost function FireFrom(f: Feed, shot: Shot, attr: Attribution): Firing
    requires Calm(shot.w)
  {
    var w := shot.w;
    var gap, begun := Brought(f, w.before), Begun(Pumped(f, w.before));
    if shot.call.NoAnswer? then
      Firing(FireFailed(shot.call.reason), Opened(f, w), Left(gap, Brought(begun, w.during)))
    else
      var c := Closed(Opened(f, w), attr, w);
      var arrived := Brought(begun, Also(w.during, Polled(Opened(f, w), attr, w)));
      if c.outcome.Failed? then Firing(FireFailed(c.outcome.reason), c.after, Left(gap, arrived))
      else Firing(Fired(shot.call.response, c.outcome.changes), c.after, Handed(gap, arrived))
  }

  // A request is fired exactly if it is answered and its source lives until the last check.
  lemma FiredExactly(f: Feed, shot: Shot, attr: Attribution)
    requires Calm(shot.w)
    ensures var r := FireFrom(f, shot, attr).fired;
            && (r.Fired? <==> shot.call.Answered? && !SourceDies(f, attr, shot.w))
            && (r.Fired? ==> r.response == shot.call.response)
            && (r.FireFailed? ==>
                  Some(r.reason)
                    == if shot.call.NoAnswer? then Some(shot.call.reason) else SourceCause(f, attr, shot.w))
  {
    hide Closed, Opened, SourceDies, SourceCause, Calm, Polled, Brought;
    ClosedExactly(f, attr, shot.w);
  }

  ghost predicate Alive(f: Feed) {
    match f case NoFeed => true case MySQLFeed(b) => b.err == None case PgFeed(p) => p.err == None
  }

  // No source dies of this.
  ghost predicate Healthy(w: Weather) {
    && !BinlogCapture.Kills(w.before.deliveries + w.during.deliveries) && BinlogCapture.Lives(w.polls)
    && !PgCapture.Kills(w.before.messages + w.during.messages) && PgCapture.Lives(w.turns)
  }

  // On a live source that no delivery kills, a request is fired exactly if it is answered.
  lemma HealthyFires(f: Feed, shot: Shot, attr: Attribution)
    requires Calm(shot.w) && Alive(f) && Healthy(shot.w)
    ensures !SourceDies(f, attr, shot.w) && Alive(FireFrom(f, shot, attr).after)
    ensures FireFrom(f, shot, attr).fired.Fired? <==> shot.call.Answered?
  {
    var w := shot.w;
    FiredExactly(f, shot, attr);
    match f
    case NoFeed =>
    case MySQLFeed(b) =>
      var g := BinlogCapture.HandledAll(b, w.before.deliveries);
      BinlogCapture.DiesExactly(b, w.before.deliveries);
      BinlogCapture.DiesExactly(BinlogCapture.Begun(g), w.during.deliveries);
      BinlogCapture.LiveEnding(g, w.during.deliveries, attr, w.t0, w.polls);
    case PgFeed(p) =>
      var g := PgCapture.HandledAll(p, w.before.messages);
      PgCapture.DiesExactly(p, w.before.messages);
      PgCapture.DiesExactly(PgCapture.Begun(g), w.during.messages);
      PgCapture.LiveEnding(g, w.during.messages, attr, w.t0, w.turns);
  }

  // A stack gave no answer, or its source died by the last check.
  ghost predicate Missed(f: Feed, shot: Shot, attr: Attribution)
    requires Calm(shot.w)
  {
    shot.call.NoAnswer? || SourceDies(f, attr, shot.w)
  }

  function Charge(r: Fired): seq<seq<RowChange>> { if r.Fired? then [r.changes] else [] }

  // What firing does to a source is a round of the window runs, and the changes charged are
  // the window handed off in it.
  lemma FiringSettles(f: Feed, shot: Shot, attr: Attribution, taken: seq<seq<RowChange>>)
    requires Calm(shot.w) && !f.NoFeed?
    ensures var g := FireFrom(f, shot, attr);
            && Log(Buffer(g.after), taken + Charge(g.fired)) == Settled(Kind(f), Log(Buffer(f), taken), g.round)
            && !g.round.Skipped? && (g.round.Handed? <==> g.fired.Fired?)
            && Kind(g.after) == Kind(f) && !g.after.NoFeed?
  {
    hide Calm, Pumped, Brought, Closed, Polled, Buffer, Kind, Begun;
    var w := shot.w;
    var p := Pumped(f, w.before);
    PumpedSettles(f, w.before);
    BegunKeeps(p);
    if shot.call.NoAnswer? {
      PumpedSettles(Begun(p), w.during);
      assert taken + [] == taken;
    } else {
      ClosedSettles(p, attr, w);
      assert taken + [] == taken;
    }
  }

  lemma BegunKeeps(p: Feed)
    ensures Buffer(Begun(p)) == if Kind(p).Postgres? then [] else Buffer(p)
    ensures Kind(Begun(p)) == Kind(p) && (Begun(p).NoFeed? <==> p.NoFeed?)
  {
  }

  // With p the source at the opening: a window that is taken holds what the source kept and
  // all that arrived, and nothing stays; otherwise that stays.
  lemma ClosedSettles(p: Feed, attr: Attribution, w: Weather)
    requires Calm(w) && !p.NoFeed?
    ensures var o := Pumped(Begun(p), w.during);
            var c, all := Closed(o, attr, w), Buffer(Begun(p)) + Brought(Begun(p), Also(w.during, Polled(o, attr, w)));
            && (if c.outcome.Taken? then c.outcome.changes == all && Buffer(c.after) == [] else Buffer(c.after) == all)
            && Kind(c.after) == Kind(p) && !c.after.NoFeed?
  {
    if p.MySQLFeed? {
      BinlogCapture.EndingHandsOff(p.b, w.during.deliveries, attr, w.t0, w.polls);
    } else {
      PgCapture.EndingHandsOff(p.p, w.during.messages, attr, w.t0, w.turns);
    }
  }

  function Footprint(s: Stack): set<object> {
    match s case NoSource => {} case MySQL(b) => {b} case Pg(p) => {p}
  }

  ghost function Now(s: Stack): Feed
    reads Footprint(s)
  {
    match s case NoSource => NoFeed case MySQL(b) => MySQLFeed(b.Now()) case Pg(p) => PgFeed(p.Now())
  }

  method Pump(s: Stack, m: Meanwhile)
    modifies Footprint(s)
    ensures Now(s) == Pumped(old(Now(s)), m)
  {
    match s {
      case NoSource =>
      case MySQL(b) => b.HandleAll(m.deliveries);
      case Pg(p) => p.HandleAll(m.messages);
    }
  }

  method OpenWindow(s: Stack, w: Weather)
    modifies Footprint(s)
    ensures Now(s) == Opened(old(Now(s)), w)
  {
    Pump(s, w.before);
    match s {
      case NoSource =>
      case MySQL(b) => b.BeginWindow();
      case Pg(p) => p.BeginWindow();
    }
    Pump(s, w.during);
  }

  method CloseWindow(s: Stack, attr: Attribution, w: Weather) returns (r: Outcome)
    requires Calm(w)
    modifies Footprint(s)
    ensures Closing(r, Now(s)) == Closed(old(Now(s)), attr, w)
  {
    r := Taken([]);
    match s {
      case NoSource =>
      case MySQL(b) =>
        var exit, polls;
        r, exit, polls := b.TakeWindow(attr, w.t0, w.polls);
      case Pg(p) =>
        var way, polls;
        r, way, polls := p.TakeWindow(attr, w.t0, w.turns);
    }
  }

  method FireStack(s: Stack, shot: Shot, attr: Attribution) returns (r: Fired)
    requires Calm(shot.w)
    modifies Footprint(s)
    ensures r == FireFrom(old(Now(s)), shot, attr).fired && Now(s) == FireFrom(old(Now(s)), shot, attr).after
  {
    hide Now, Calm, Opened, Closed;
    OpenWindow(s, shot.w);
    if shot.call.NoAnswer? { return FireFailed(shot.call.reason); }
    var outcome := CloseWindow(s, attr, shot.w);
    if outcome.Failed? { return FireFailed(outcome.reason); }
    r := Fired(shot.call.response, outcome.changes);
  }
}
