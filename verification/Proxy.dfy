// The serialised recording proxy: any number of handlers, one lock, one change source
// with its pump, interleaved in every possible way.
module Proxy {
  import opened Optional
  import opened Writesets
  import Rounds
  import opened Windows

  // Where a handler stands in its path through the golden branch.
  datatype Phase = Waiting | Locked | Opened | Served | Handed(ws: Option<seq<WriteEntry>>) | Recorded | Done

  // A golden entry; a missing write-set means it could not be attributed.
  datatype Entry = Entry(request: nat, ws: Option<seq<WriteEntry>>)

  datatype Setup = Setup(source: Windows.Source, noise: seq<string>, ignore: seq<string>)

  datatype State = State(
    lock: Option<nat>, phases: map<nat, Phase>, buffer: seq<Tagged>, dead: bool, golden: seq<Entry>,
    windows: seq<nat>,      // requests in the order their windows were opened
    history: seq<Tagged>)   // everything the pump appended

  datatype Action =
    | Lock(h: nat) | Open(h: nat) | Serve(h: nat) | HandOff(h: nat) | Record(h: nat) | Unlock(h: nat)
    | Pump(changes: seq<Tagged>) | Die

  const START := State(None, map[], [], false, [], [], [])

  function PhaseOf(s: State, h: nat): Phase { if h in s.phases then s.phases[h] else Waiting }

  predicate Enabled(s: State, a: Action) {
    match a
    case Lock(h) => s.lock == None && PhaseOf(s, h) == Waiting
    case Open(h) => PhaseOf(s, h) == Locked
    case Serve(h) => PhaseOf(s, h) == Opened
    case HandOff(h) => PhaseOf(s, h) == Served
    case Record(h) => PhaseOf(s, h).Handed?
    case Unlock(h) => PhaseOf(s, h) == Recorded
    case Pump(_) => !s.dead
    case Die => !s.dead
  }

  function Apply(p: Setup, s: State, a: Action): State
    requires Enabled(s, a)
  {
    match a
    case Lock(h) => s.(lock := Some(h), phases := s.phases[h := Locked])
    case Open(h) =>
      s.(phases := s.phases[h := Opened], windows := s.windows + [h],
         buffer := if p.source.Postgres? then [] else s.buffer)
    case Serve(h) => s.(phases := s.phases[h := Served])
    case HandOff(h) =>
      if s.dead then s.(phases := s.phases[h := Handed(None)])
      else s.(phases := s.phases[h := Handed(Some(Normalized(Untag(s.buffer), p.noise, p.ignore)))], buffer := [])
    case Record(h) =>
      s.(phases := s.phases[h := Recorded], golden := s.golden + [Entry(h, PhaseOf(s, h).ws)])
    case Unlock(h) => s.(lock := None, phases := s.phases[h := Done])
    case Pump(cs) => s.(buffer := s.buffer + cs, history := s.history + cs)
    case Die => s.(dead := true)
  }

  // What an action asks of the change source, if anything.
  function SourceStep(s: State, a: Action): Option<Windows.Step> {
    match a
    case Open(_) => Some(Windows.Begin)
    case HandOff(_) => if s.dead then None else Some(Windows.Take)
    case Pump(cs) => Some(Windows.Append(Untag(cs)))
    case _ => None
  }

  function LastWindow(p: Setup, s: State, taken: seq<seq<RowChange>>): seq<RowChange> {
    var ws := Windows.Next(p.source, Windows.Log(Untag(s.buffer), taken), Windows.Take).taken;
    ws[|ws| - 1]
  }

  // The proxy's buffer is the buffer of its source, and what a handler is handed is the
  // normal form of the window its source hands off.
  lemma DrivesSource(p: Setup, s: State, a: Action, taken: seq<seq<RowChange>>)
    requires Enabled(s, a)
    ensures var before := Windows.Log(Untag(s.buffer), taken);
            var step := SourceStep(s, a);
            var after := if step == None then before else Windows.Next(p.source, before, step.value);
            Untag(Apply(p, s, a).buffer) == after.buffer
    ensures SourceStep(s, a) == Some(Windows.Take) ==>
              PhaseOf(Apply(p, s, a), a.h) == Handed(Some(Normalized(LastWindow(p, s, taken), p.noise, p.ignore)))
  {
    assert Untag([]) == [];
    if a.Pump? { assert Untag(s.buffer + a.changes) == Untag(s.buffer) + Untag(a.changes); }
  }

  // ----- every run ----------------------------------------------------------------------

  ghost predicate Critical(ph: Phase) { !ph.Waiting? && !ph.Done? }

  // The window of h is open: changes that arrive now are handed off to h.
  ghost predicate WindowOpen(s: State, h: nat) { PhaseOf(s, h).Opened? || PhaseOf(s, h).Served? }

  ghost predicate Pending(s: State, h: nat) { WindowOpen(s, h) || PhaseOf(s, h).Handed? }

  ghost predicate Safe(s: State) {
    && (forall h: nat :: Critical(PhaseOf(s, h)) <==> s.lock == Some(h))
    && |s.windows| == |s.golden| + (if s.lock != None && Pending(s, s.lock.value) then 1 else 0)
    && (s.lock != None && Pending(s, s.lock.value) ==> s.windows[|s.golden|] == s.lock.value)
    && (forall i :: 0 <= i < |s.golden| ==> s.golden[i].request == s.windows[i])
    && (forall i :: 0 <= i < |s.golden| ==> PhaseOf(s, s.golden[i].request) in {Recorded, Done})
  }

  lemma SafeStep(p: Setup, s: State, a: Action)
    requires Safe(s) && Enabled(s, a)
    ensures Safe(Apply(p, s, a))
  {
    var t := Apply(p, s, a);
    if !a.Pump? && !a.Die? {
      forall h | h != a.h ensures PhaseOf(t, h) == PhaseOf(s, h) {}
      assert a.Lock? || (Critical(PhaseOf(s, a.h)) && s.lock == Some(a.h));
    } else {
      forall h ensures PhaseOf(t, h) == PhaseOf(s, h) {}
    }
  }

  // Runs of the proxy from the start, and the actions they took.
  ghost predicate IsRun(p: Setup, states: seq<State>, actions: seq<Action>) {
    && |states| == |actions| + 1 && states[0] == START
    && forall i :: 0 <= i < |actions| ==>
         Enabled(states[i], actions[i]) && states[i + 1] == Apply(p, states[i], actions[i])
  }

  // At every moment of every run at most one window is open, and the golden lists requests
  // in the order their windows were opened.
  lemma {:induction false} OneWindowInOrder(p: Setup, states: seq<State>, actions: seq<Action>, n: nat)
    requires IsRun(p, states, actions) && n < |states|
    ensures Safe(states[n])
    ensures forall g, h :: WindowOpen(states[n], g) && WindowOpen(states[n], h) ==> g == h
    ensures forall i :: 0 <= i < |states[n].golden| ==>
              i < |states[n].windows| && states[n].golden[i].request == states[n].windows[i]
  {
    if n > 0 {
      OneWindowInOrder(p, states, actions, n - 1);
      SafeStep(p, states[n - 1], actions[n - 1]);
    }
    forall g, h | WindowOpen(states[n], g) && WindowOpen(states[n], h) ensures g == h {
      assert Critical(PhaseOf(states[n], g)) && Critical(PhaseOf(states[n], h));
    }
  }

  // ----- attribution ----------------------------------------------------------------------

  // The changes request h caused, in order of arrival.
  ghost function ChangesOf(h: nat, ts: seq<Tagged>): seq<RowChange> { Untag(Rounds.OwnOf(h, ts)) }

  lemma ChangesOfConcat(h: nat, x: seq<Tagged>, y: seq<Tagged>)
    ensures ChangesOf(h, x + y) == ChangesOf(h, x) + ChangesOf(h, y)
  {
    Rounds.OwnConcat(h, x, y);
    Rounds.UntagConcat(Rounds.OwnOf(h, x), Rounds.OwnOf(h, y));
  }

  lemma OwnChanges(h: nat, ts: seq<Tagged>)
    requires forall t :: t in ts ==> t.owner == h
    ensures ChangesOf(h, ts) == Untag(ts)
    ensures forall g :: g != h ==> ChangesOf(g, ts) == []
  {
    Rounds.OwnAll(h, ts);
    forall g | g != h ensures ChangesOf(g, ts) == [] { Rounds.OwnNone(g, ts); }
  }

  // The source keeps up: a request's changes arrive while its window is open, none between
  // windows.
  ghost predicate InTime(s: State, a: Action) {
    a.Pump? ==> exists h :: WindowOpen(s, h) && forall t :: t in a.changes ==> t.owner == h
  }

  // A write-set recorded for h is exactly its normalised changes, or missing because the
  // source has died.
  ghost predicate Exact(p: Setup, s: State, h: nat, ws: Option<seq<WriteEntry>>) {
    && (ws == None || ws == Some(Normalized(ChangesOf(h, s.history), p.noise, p.ignore)))
    && (ws == None ==> s.dead)
  }

  ghost predicate HandlerOk(p: Setup, s: State, h: nat) {
    match PhaseOf(s, h)
    case Waiting => ChangesOf(h, s.history) == []
    case Locked => ChangesOf(h, s.history) == []
    case Opened => s.dead || Untag(s.buffer) == ChangesOf(h, s.history)
    case Served => s.dead || Untag(s.buffer) == ChangesOf(h, s.history)
    case Handed(ws) => Exact(p, s, h, ws)
    case _ => true
  }

  ghost predicate Attributed(p: Setup, s: State) {
    && (forall h :: HandlerOk(p, s, h))
    && (forall i :: 0 <= i < |s.golden| ==> Exact(p, s, s.golden[i].request, s.golden[i].ws))
    && (s.dead || s.buffer == [] || exists h :: WindowOpen(s, h))
  }

  lemma PumpOther(h: nat, g: nat, history: seq<Tagged>, cs: seq<Tagged>)
    requires g != h && forall t :: t in cs ==> t.owner == h
    ensures ChangesOf(g, history + cs) == ChangesOf(g, history)
  {
    OwnChanges(h, cs);
    ChangesOfConcat(g, history, cs);
    assert ChangesOf(g, history) + [] == ChangesOf(g, history);
  }

  lemma PumpStep(p: Setup, s: State, cs: seq<Tagged>, h: nat)
    requires Safe(s) && Attributed(p, s) && !s.dead
    requires WindowOpen(s, h) && forall t :: t in cs ==> t.owner == h
    ensures Attributed(p, Apply(p, s, Pump(cs)))
  {
    var t := Apply(p, s, Pump(cs));
    forall g ensures HandlerOk(p, t, g) {
      assert HandlerOk(p, s, g) && PhaseOf(t, g) == PhaseOf(s, g);
      if g == h {
        OwnChanges(h, cs);
        ChangesOfConcat(h, s.history, cs);
        assert Untag(t.buffer) == Untag(s.buffer) + Untag(cs);
      } else {
        PumpOther(h, g, s.history, cs);
        assert WindowOpen(s, g) ==> Critical(PhaseOf(s, g)) && Critical(PhaseOf(s, h));
      }
    }
    forall i | 0 <= i < |s.golden| ensures Exact(p, t, s.golden[i].request, s.golden[i].ws) {
      assert PhaseOf(s, s.golden[i].request) in {Recorded, Done};
      PumpOther(h, s.golden[i].request, s.history, cs);
    }
    assert WindowOpen(t, h);
  }

  // What an action of handler h does to the others.
  lemma OthersStep(p: Setup, s: State, a: Action, g: nat)
    requires Safe(s) && Attributed(p, s) && Enabled(s, a) && !a.Pump? && !a.Die? && g != a.h
    ensures HandlerOk(p, Apply(p, s, a), g)
  {
    assert HandlerOk(p, s, g) && PhaseOf(Apply(p, s, a), g) == PhaseOf(s, g);
    assert a.Lock? || (Critical(PhaseOf(s, a.h)) && s.lock == Some(a.h) && !Critical(PhaseOf(s, g)));
  }

  lemma OwnStep(p: Setup, s: State, a: Action)
    requires Safe(s) && Attributed(p, s) && Enabled(s, a) && !a.Pump? && !a.Die?
    ensures HandlerOk(p, Apply(p, s, a), a.h)
  {
    var h := a.h;
    assert HandlerOk(p, s, h);
    if a.Open? && !s.dead {
      forall g ensures !WindowOpen(s, g) {
        assert WindowOpen(s, g) ==> Critical(PhaseOf(s, g)) && Critical(PhaseOf(s, h)) && g != h;
      }
      assert Untag([]) == [];
    }
  }

  lemma BufferStep(p: Setup, s: State, a: Action)
    requires Safe(s) && Attributed(p, s) && Enabled(s, a) && !a.Pump? && !a.Die?
    ensures var t := Apply(p, s, a); t.dead || t.buffer == [] || exists h :: WindowOpen(t, h)
  {
    var t := Apply(p, s, a);
    if !t.dead && t.buffer != [] {
      var h :| WindowOpen(s, h);
      assert Critical(PhaseOf(s, h)) && s.lock == Some(h);
      assert a.h == h && (a.Serve? || a.Open?);
      assert WindowOpen(t, h);
    }
  }

  lemma AttributedStep(p: Setup, s: State, a: Action)
    requires Safe(s) && Attributed(p, s) && Enabled(s, a) && InTime(s, a)
    ensures Attributed(p, Apply(p, s, a))
  {
    var t := Apply(p, s, a);
    if a.Pump? {
      var h :| WindowOpen(s, h) && forall c :: c in a.changes ==> c.owner == h;
      PumpStep(p, s, a.changes, h);
    } else if a.Die? {
      forall g ensures HandlerOk(p, t, g) { assert HandlerOk(p, s, g) && PhaseOf(t, g) == PhaseOf(s, g); }
    } else {
      forall g ensures HandlerOk(p, t, g) {
        if g == a.h { OwnStep(p, s, a); } else { OthersStep(p, s, a, g); }
      }
      BufferStep(p, s, a);
      assert HandlerOk(p, s, a.h);
    }
  }

  // If every request's changes arrive in its own window, then in every run, whatever the
  // interleaving and whichever the source, entry i of the golden holds exactly the
  // normalised changes of the i-th request whose window was opened, or no write-set at all,
  // the latter only if the source has died.
  lemma {:induction false} AttributionExact(p: Setup, states: seq<State>, actions: seq<Action>, n: nat)
    requires IsRun(p, states, actions) && n < |states|
    requires forall i :: 0 <= i < |actions| ==> InTime(states[i], actions[i])
    ensures Attributed(p, states[n])
    ensures forall i :: 0 <= i < |states[n].golden| ==>
              && i < |states[n].windows|
              && Exact(p, states[n], states[n].windows[i], states[n].golden[i].ws)
  {
    OneWindowInOrder(p, states, actions, n);
    if n > 0 {
      AttributionExact(p, states, actions, n - 1);
      OneWindowInOrder(p, states, actions, n - 1);
      AttributedStep(p, states[n - 1], actions[n - 1]);
    }
    forall i | 0 <= i < |states[n].golden|
      ensures Exact(p, states[n], states[n].windows[i], states[n].golden[i].ws)
    {
      assert states[n].golden[i].request == states[n].windows[i];
    }
  }
}
