// The MySQL source: a pump turns binlog events into row changes, and a window closes when
// the stream has been quiet long enough.
module BinlogCapture {
  import opened Values
  import opened Norm
  import opened Optional
  import opened Writesets
  import opened Polling

  // ----- binlog rows events -----------------------------------------------------------

  datatype Event =
    | RowsQuery(sql: string)
    | Rows(schema: string, table: string, op: Option<Op>, cols: seq<string>, rows: seq<seq<Raw>>)
    | Died(reason: string)

  const SYSTEM_SCHEMAS := {"mysql", "sys", "information_schema", "performance_schema"}

  function ColumnName(cols: seq<string>, i: nat): string {
    if i < |cols| && cols[i] != "" then cols[i] else "col_" + NatText(i)
  }

  // The first n columns of a row, by name; a repeated name keeps its last value.
  function RowMap(cols: seq<string>, row: seq<Raw>, n: nat): Row
    requires n <= |row|
  {
    if n == 0 then map[] else RowMap(cols, row, n - 1)[ColumnName(cols, n - 1) := row[n - 1]]
  }

  function WholeRow(cols: seq<string>, row: seq<Raw>): Row { RowMap(cols, row, |row|) }

  // Under each column name a row has the last value with that name.
  lemma {:induction false} RowMapAt(cols: seq<string>, row: seq<Raw>, n: nat, i: nat)
    requires i < n <= |row| && forall j :: i < j < n ==> ColumnName(cols, j) != ColumnName(cols, i)
    ensures ColumnName(cols, i) in RowMap(cols, row, n) && RowMap(cols, row, n)[ColumnName(cols, i)] == row[i]
  {
    if i + 1 < n {
      assert ColumnName(cols, n - 1) != ColumnName(cols, i);
      RowMapAt(cols, row, n - 1, i);
    }
  }

  // The rows of an UPDATE come as before/after pairs; an unpaired last row is dropped.
  function Pairs(table: string, cols: seq<string>, rows: seq<seq<Raw>>, query: string): seq<RowChange> {
    seq(|rows| / 2, i requires 0 <= i < |rows| / 2 =>
      RowChange(table, UPDATE, Some(WholeRow(cols, rows[2 * i])), Some(WholeRow(cols, rows[2 * i + 1])), query))
  }

  function Singles(table: string, op: Op, cols: seq<string>, rows: seq<seq<Raw>>, query: string): seq<RowChange> {
    seq(|rows|, i requires 0 <= i < |rows| =>
      if op.INSERT? then RowChange(table, op, None, Some(WholeRow(cols, rows[i])), query)
      else RowChange(table, op, Some(WholeRow(cols, rows[i])), None, query))
  }

  // What an event adds to the buffer.
  function Produced(ev: Event, query: string): seq<RowChange> {
    match ev
    case Rows(schema, table, op, cols, rows) =>
      if schema in SYSTEM_SCHEMAS || op == None then []
      else if op == Some(UPDATE) then Pairs(schema + "." + table, cols, rows, query)
      else Singles(schema + "." + table, op.value, cols, rows, query)
    case _ => []
  }

  // ----- what an event says ---------------------------------------------------------------

  // The name of column i: its own, or one made from its position.
  ghost function NameAt(cols: seq<string>, i: nat): string {
    if i >= |cols| || cols[i] == "" then "col_" + NatText(i) else cols[i]
  }

  // The row has exactly the columns of the image, each with the last value under its name.
  ghost predicate Holds(m: Row, cols: seq<string>, image: seq<Raw>) {
    && (forall i: nat :: i < |image| ==> NameAt(cols, i) in m)
    && (forall i: nat :: LastNamed(cols, |image|, i) ==> NameAt(cols, i) in m && m[NameAt(cols, i)] == image[i])
    && (forall k :: k in m ==> exists i: nat :: i < |image| && NameAt(cols, i) == k)
  }

  ghost predicate LastNamed(cols: seq<string>, n: nat, i: nat) {
    i < n && forall j: nat :: i < j < n ==> NameAt(cols, j) != NameAt(cols, i)
  }

  // Change i of the event. An UPDATE has the image before and the image after, in pairs; an
  // INSERT only an image after, a DELETE only one before.
  ghost predicate ChangeOf(c: RowChange, ev: Event, query: string, i: nat)
    requires ev.Rows? && ev.op != None
  {
    && c.table == ev.schema + "." + ev.table && c.op == ev.op.value && c.query == query
    && (c.before == None <==> c.op.INSERT?) && (c.after == None <==> c.op.DELETE?)
    && (if c.op.UPDATE? then
          2 * i + 1 < |ev.rows| && Holds(c.before.value, ev.cols, ev.rows[2 * i])
          && Holds(c.after.value, ev.cols, ev.rows[2 * i + 1])
        else i < |ev.rows| && Holds(if c.op.INSERT? then c.after.value else c.before.value, ev.cols, ev.rows[i]))
  }

  // The changes of an event: none unless it is a row event with an operation, outside the
  // system schemas. An unpaired last image of an UPDATE is dropped.
  ghost predicate ChangesOf(cs: seq<RowChange>, ev: Event, query: string) {
    if ev.Rows? && ev.op != None && ev.schema !in {"mysql", "sys", "information_schema", "performance_schema"} then
      |cs| == (if ev.op.value.UPDATE? then |ev.rows| / 2 else |ev.rows|)
      && forall i: nat :: i < |cs| ==> ChangeOf(cs[i], ev, query, i)
    else cs == []
  }

  lemma HoldsSnoc(m: Row, cols: seq<string>, image: seq<Raw>, x: Raw)
    requires Holds(m, cols, image)
    ensures Holds(m[NameAt(cols, |image|) := x], cols, image + [x])
  {
    hide NameAt;
    var n, all, r := |image|, image + [x], m[NameAt(cols, |image|) := x];
    forall i: nat | LastNamed(cols, n + 1, i) ensures NameAt(cols, i) in r && r[NameAt(cols, i)] == all[i] {
      if i < n { assert NameAt(cols, n) != NameAt(cols, i) && LastNamed(cols, n, i); }
    }
    hide LastNamed;
    forall k | k in r ensures exists i: nat :: i < n + 1 && NameAt(cols, i) == k {
      if k in m && k != NameAt(cols, n) {
        var i: nat :| i < n && NameAt(cols, i) == k;
      } else {
        assert NameAt(cols, n) == k;
      }
    }
  }

  lemma NoColumns(cols: seq<string>)
    ensures Holds(map[], cols, [])
  {
    hide NameAt;
  }

  lemma {:induction false} RowMapHolds(cols: seq<string>, row: seq<Raw>, n: nat)
    requires n <= |row|
    ensures Holds(RowMap(cols, row, n), cols, row[..n])
  {
    hide Holds, NatText;
    if n == 0 {
      NoColumns(cols);
    } else {
      RowMapHolds(cols, row, n - 1);
      HoldsSnoc(RowMap(cols, row, n - 1), cols, row[..n - 1], row[n - 1]);
      assert row[..n] == row[..n - 1] + [row[n - 1]];
    }
  }

  lemma WholeRowHolds(cols: seq<string>, row: seq<Raw>)
    ensures Holds(WholeRow(cols, row), cols, row)
  {
    RowMapHolds(cols, row, |row|);
    assert row[..|row|] == row;
  }

  lemma ProducedMeaning(ev: Event, query: string)
    ensures ChangesOf(Produced(ev, query), ev, query)
  {
    hide Holds, WholeRow;
    if ev.Rows? && ev.op != None && ev.schema !in SYSTEM_SCHEMAS {
      var cs := Produced(ev, query);
      forall i: nat | i < |cs| ensures ChangeOf(cs[i], ev, query, i) {
        if ev.op.value.UPDATE? {
          WholeRowHolds(ev.cols, ev.rows[2 * i]);
          WholeRowHolds(ev.cols, ev.rows[2 * i + 1]);
        } else {
          WholeRowHolds(ev.cols, ev.rows[i]);
        }
      }
    }
  }

  method BuildRow(cols: seq<string>, row: seq<Raw>) returns (m: Row)
    ensures m == WholeRow(cols, row)
  {
    m := map[];
    var i := 0;
    while i < |row|
      invariant i <= |row| && m == RowMap(cols, row, i)
    {
      m := m[ColumnName(cols, i) := row[i]];
      i := i + 1;
    }
  }

  lemma PairsStep(table: string, cols: seq<string>, rows: seq<seq<Raw>>, query: string, n: nat)
    requires 2 * n + 1 < |rows|
    ensures var ps := Pairs(table, cols, rows, query);
            && n < |ps| == |rows| / 2
            && ps[..n + 1] == ps[..n] + [RowChange(table, UPDATE, Some(WholeRow(cols, rows[2 * n])),
                                                   Some(WholeRow(cols, rows[2 * n + 1])), query)]
  {
    hide WholeRow;
  }

  lemma SinglesStep(table: string, op: Op, cols: seq<string>, rows: seq<seq<Raw>>, query: string, n: nat)
    requires n < |rows|
    ensures var ss, row := Singles(table, op, cols, rows, query), Some(WholeRow(cols, rows[n]));
            && |ss| == |rows|
            && ss[..n + 1] == ss[..n] + [if op.INSERT? then RowChange(table, op, None, row, query)
                                         else RowChange(table, op, row, None, query)]
  {
    hide WholeRow;
  }

  method BuildPairs(table: string, cols: seq<string>, rows: seq<seq<Raw>>, query: string)
    returns (out: seq<RowChange>)
    ensures out == Pairs(table, cols, rows, query)
  {
    out := [];
    var i := 0;
    while i + 1 < |rows|
      invariant 0 <= i <= |rows| && i % 2 == 0 && out == Pairs(table, cols, rows, query)[..i / 2]
    {
      hide Pairs;
      PairsStep(table, cols, rows, query, i / 2);
      var before := BuildRow(cols, rows[i]);
      var after := BuildRow(cols, rows[i + 1]);
      out := out + [RowChange(table, UPDATE, Some(before), Some(after), query)];
      i := i + 2;
    }
  }

  method BuildSingles(table: string, op: Op, cols: seq<string>, rows: seq<seq<Raw>>, query: string)
    returns (out: seq<RowChange>)
    ensures out == Singles(table, op, cols, rows, query)
  {
    out := [];
    var i := 0;
    while i < |rows|
      invariant i <= |rows| && out == Singles(table, op, cols, rows, query)[..i]
    {
      hide Singles;
      SinglesStep(table, op, cols, rows, query, i);
      var row := BuildRow(cols, rows[i]);
      if op == INSERT {
        out := out + [RowChange(table, INSERT, None, Some(row), query)];
      } else {
        out := out + [RowChange(table, op, Some(row), None, query)];
      }
      i := i + 1;
    }
  }

  method Normalize(ev: Event, query: string) returns (out: seq<RowChange>)
    requires ev.Rows? && ev.schema !in SYSTEM_SCHEMAS
    ensures out == Produced(ev, query) && ChangesOf(out, ev, query)
  {
    hide ChangesOf, Pairs, Singles;
    ProducedMeaning(ev, query);
    if ev.op == None {
      out := [];
    } else if ev.op == Some(UPDATE) {
      out := BuildPairs(ev.schema + "." + ev.table, ev.cols, ev.rows, query);
    } else {
      out := BuildSingles(ev.schema + "." + ev.table, ev.op.value, ev.cols, ev.rows, query);
    }
  }

  // ----- the capture as a value -----------------------------------------------------------

  datatype Delivery = Delivery(ev: Event, at: int)

  // The fields of a capture.
  datatype Feed = Feed(changes: seq<RowChange>, lastEvent: Option<int>, err: Option<string>, lastQuery: string)

  const FRESH := Feed([], None, None, "")

  // What an event adds now: nothing once the stream has died.
  function Added(f: Feed, ev: Event): seq<RowChange> { if f.err == None then Produced(ev, f.lastQuery) else [] }

  function Handled(f: Feed, d: Delivery): Feed {
    if f.err != None then f
    else match d.ev
      case RowsQuery(sql) => f.(lastQuery := sql)
      case Died(reason) => f.(err := Some(reason))
      case Rows(_, _, _, _, _) =>
        var cs := Added(f, d.ev);
        if cs == [] then f else f.(changes := f.changes + cs, lastEvent := Some(d.at))
  }

  function HandledAll(f: Feed, ds: seq<Delivery>): Feed {
    if |ds| == 0 then f else Handled(HandledAll(f, ds[..|ds| - 1]), ds[|ds| - 1])
  }

  function Begun(f: Feed): Feed { f.(lastEvent := None) }

  // All changes that a list of deliveries brings, up to the first death.
  function Arrived(f: Feed, ds: seq<Delivery>): seq<RowChange> {
    if |ds| == 0 then []
    else Arrived(f, ds[..|ds| - 1]) + Added(HandledAll(f, ds[..|ds| - 1]), ds[|ds| - 1].ev)
  }

  // The times of the row events among them.
  function Times(f: Feed, ds: seq<Delivery>): set<int> {
    if |ds| == 0 then {}
    else
      var n := |ds| - 1;
      Times(f, ds[..n]) + (if Added(HandledAll(f, ds[..n]), ds[n].ev) != [] then {ds[n].at} else {})
  }

  lemma HandledSnoc(f: Feed, ds: seq<Delivery>, d: Delivery)
    ensures HandledAll(f, ds + [d]) == Handled(HandledAll(f, ds), d)
    ensures Arrived(f, ds + [d]) == Arrived(f, ds) + Added(HandledAll(f, ds), d.ev)
  {
    assert (ds + [d])[..|ds + [d]| - 1] == ds;
  }

  lemma {:induction false} HandledConcat(f: Feed, x: seq<Delivery>, y: seq<Delivery>)
    ensures HandledAll(f, x + y) == HandledAll(HandledAll(f, x), y)
    ensures Arrived(f, x + y) == Arrived(f, x) + Arrived(HandledAll(f, x), y)
  {
    hide Handled, Added;
    if |y| == 0 {
      assert x + y == x && y == [];
    } else {
      var n := |y| - 1;
      HandledConcat(f, x, y[..n]);
      assert (x + y)[..|x + y| - 1] == x + y[..n] && (x + y)[|x + y| - 1] == y[n];
    }
  }

  // The buffer grows by exactly what arrives, in order.
  lemma {:induction false} HandledChanges(f: Feed, ds: seq<Delivery>)
    ensures HandledAll(f, ds).changes == f.changes + Arrived(f, ds)
  {
    if |ds| > 0 {
      hide Produced;
      var n := |ds| - 1;
      HandledChanges(f, ds[..n]);
      OneHandled(HandledAll(f, ds[..n]), ds[n]);
    }
  }

  lemma OneHandled(f: Feed, d: Delivery)
    ensures Handled(f, d).changes == f.changes + Added(f, d.ev)
    ensures Handled(f, d).lastEvent == if Added(f, d.ev) == [] then f.lastEvent else Some(d.at)
    ensures Handled(f, d).err == if f.err == None && d.ev.Died? then Some(d.ev.reason) else f.err
  {
  }

  // One turn of the pump. A dead stream stays as it is; a query is remembered; a row event
  // adds its changes under the last query, and its time counts if it has any.
  lemma HandledMeaning(f: Feed, d: Delivery)
    ensures f.err != None ==> Handled(f, d) == f
    ensures f.err == None && d.ev.RowsQuery? ==> Handled(f, d) == Feed(f.changes, f.lastEvent, None, d.ev.sql)
    ensures f.err == None && d.ev.Died? ==>
              Handled(f, d) == Feed(f.changes, f.lastEvent, Some(d.ev.reason), f.lastQuery)
    ensures f.err == None && d.ev.Rows? ==>
              exists cs :: ChangesOf(cs, d.ev, f.lastQuery)
                && Handled(f, d) == Feed(f.changes + cs, if cs == [] then f.lastEvent else Some(d.at), None,
                                         f.lastQuery)
  {
    ProducedMeaning(d.ev, f.lastQuery);
    hide ChangesOf, Produced;
    if Produced(d.ev, f.lastQuery) == [] { assert f.changes + [] == f.changes; }
  }

  ghost predicate Kills(ds: seq<Delivery>) { exists d :: d in ds && d.ev.Died? }

  // The stream is dead exactly if it was or if its death is among the deliveries.
  lemma {:induction false} DiesExactly(f: Feed, ds: seq<Delivery>)
    ensures HandledAll(f, ds).err != None <==> f.err != None || Kills(ds)
  {
    if |ds| > 0 {
      hide Produced;
      var n := |ds| - 1;
      DiesExactly(f, ds[..n]);
      OneHandled(HandledAll(f, ds[..n]), ds[n]);
      assert ds == ds[..n] + [ds[n]];
    }
  }

  // What the stream died of: the first death counts.
  ghost function Cause(ds: seq<Delivery>): Option<string> {
    if ds == [] then None else if ds[0].ev.Died? then Some(ds[0].ev.reason) else Cause(ds[1..])
  }

  lemma {:induction false} CauseSnoc(ds: seq<Delivery>, d: Delivery)
    ensures Cause(ds + [d]) == if Cause(ds) != None then Cause(ds) else if d.ev.Died? then Some(d.ev.reason) else None
  {
    if ds == [] {
      assert (ds + [d])[1..] == [];
    } else {
      assert (ds + [d])[1..] == ds[1..] + [d];
      CauseSnoc(ds[1..], d);
    }
  }

  lemma {:induction false} DiesOf(f: Feed, ds: seq<Delivery>)
    ensures HandledAll(f, ds).err == if f.err != None then f.err else Cause(ds)
  {
    if |ds| > 0 {
      hide Produced;
      var n := |ds| - 1;
      DiesOf(f, ds[..n]);
      CauseSnoc(ds[..n], ds[n]);
      OneHandled(HandledAll(f, ds[..n]), ds[n]);
      assert ds == ds[..n] + [ds[n]];
    }
  }

  ghost predicate InOrder(from: int, ds: seq<Delivery>, to: int) {
    && from <= to
    && (forall i :: 0 <= i < |ds| ==> from <= ds[i].at <= to)
    && (forall i, j :: 0 <= i < j < |ds| ==> ds[i].at <= ds[j].at)
  }

  // In a window, the last event is the latest row event since the opening.
  lemma {:induction false} LastIsLatest(f: Feed, ds: seq<Delivery>, from: int, to: int)
    requires f.lastEvent == None && InOrder(from, ds, to)
    ensures HandledAll(f, ds).lastEvent == None <==> Times(f, ds) == {}
    ensures HandledAll(f, ds).lastEvent != None ==>
              HandledAll(f, ds).lastEvent.value in Times(f, ds)
              && forall t :: t in Times(f, ds) ==> t <= HandledAll(f, ds).lastEvent.value
  {
    if |ds| > 0 {
      hide Produced;
      var n := |ds| - 1;
      LastIsLatest(f, ds[..n], from, to);
      TimesWithin(f, ds[..n], from, ds[n].at);
      OneHandled(HandledAll(f, ds[..n]), ds[n]);
    }
  }

  lemma {:induction false} TimesWithin(f: Feed, ds: seq<Delivery>, from: int, to: int)
    requires forall i :: 0 <= i < |ds| ==> from <= ds[i].at <= to
    ensures forall t :: t in Times(f, ds) ==> from <= t <= to
  {
    if |ds| > 0 { TimesWithin(f, ds[..|ds| - 1], from, to); }
  }

  // What a stream brings depends only on whether it is dead and on its last query.
  ghost predicate SameReader(f: Feed, g: Feed) { f.err == g.err && f.lastQuery == g.lastQuery }

  lemma {:induction false} ArrivedAlike(f: Feed, g: Feed, ds: seq<Delivery>)
    requires SameReader(f, g)
    ensures Arrived(f, ds) == Arrived(g, ds) && SameReader(HandledAll(f, ds), HandledAll(g, ds))
  {
    if |ds| > 0 {
      hide Produced;
      ArrivedAlike(f, g, ds[..|ds| - 1]);
    }
  }

  // ----- the environment of a window ----------------------------------------------------

  // One turn of the polling loop: what the pump handles before the check, the time and the
  // transaction check's answer, and what the pump handles before the loop goes on.
  datatype Poll = Poll(start: int, early: seq<Delivery>, now: int, activeTrx: bool, late: seq<Delivery>, end: int)

  datatype Exit = Quiet | TimedOut | StreamDied

  // Time runs forward, and at least `step` ms from one check to the next.
  ghost predicate Timely(t0: int, step: nat, env: nat -> Poll) {
    && t0 <= env(0).start
    && (forall k :: InOrder(env(k).start, env(k).early, env(k).now) && InOrder(env(k).now, env(k).late, env(k).end))
    && (forall k, l :: l == k + 1 ==> env(k).end <= env(l).start && env(k).now + step <= env(l).now)
  }

  lemma {:induction false} CheckTimes(t0: int, step: nat, env: nat -> Poll, k: nat)
    requires Timely(t0, step, env)
    ensures env(k).now >= t0 + step * k
  {
    assert InOrder(env(k).start, env(k).early, env(k).now);
    if k > 0 {
      CheckTimes(t0, step, env, k - 1);
      assert env(k - 1).now + step <= env(k).now;
      assert step * k == step * (k - 1) + step;
    }
  }

  // All that is delivered before turn k.
  function Delivered(env: nat -> Poll, k: nat): seq<Delivery> {
    if k == 0 then [] else Delivered(env, k - 1) + env(k - 1).early + env(k - 1).late
  }

  // The capture at the check of turn k.
  function AtCheck(f: Feed, env: nat -> Poll, k: nat): Feed {
    HandledAll(f, Delivered(env, k) + env(k).early)
  }

  lemma TurnHandled(f: Feed, env: nat -> Poll, k: nat)
    ensures HandledAll(HandledAll(f, Delivered(env, k)), env(k).early) == AtCheck(f, env, k)
    ensures HandledAll(AtCheck(f, env, k), env(k).late) == HandledAll(f, Delivered(env, k + 1))
  {
    HandledConcat(f, Delivered(env, k), env(k).early);
    HandledConcat(f, Delivered(env, k) + env(k).early, env(k).late);
  }

  // What a look at the capture decides, if anything.
  function Check(f: Feed, attr: Attribution, t0: int, p: Poll): Option<Exit> {
    var last := if f.lastEvent == None then t0 else f.lastEvent.value;
    if f.err != None then Some(StreamDied)
    else if p.now - last >= attr.quietMs && (!attr.trxCheck || !p.activeTrx) then Some(Quiet)
    else if p.now > t0 + attr.timeoutMs then Some(TimedOut)
    else None
  }

  ghost predicate Decided(f: Feed, attr: Attribution, t0: int, env: nat -> Poll, k: nat) {
    Check(AtCheck(f, env, k), attr, t0, env(k)) != None
  }

  function TurnLimit(attr: Attribution): nat { if attr.timeoutMs < 0 then 0 else attr.timeoutMs / 50 + 1 }

  // At this turn the time is up, if nothing was decided before.
  lemma DecidedInTime(f: Feed, attr: Attribution, t0: int, env: nat -> Poll)
    requires Timely(t0, 50, env)
    ensures Decided(f, attr, t0, env, TurnLimit(attr))
  {
    hide AtCheck, Timely;
    CheckTimes(t0, 50, env, TurnLimit(attr));
  }

  // The first turn whose check decides.
  ghost function LastTurn(f: Feed, attr: Attribution, t0: int, env: nat -> Poll): (n: nat)
    requires Timely(t0, 50, env)
    ensures n <= TurnLimit(attr) && Decided(f, attr, t0, env, n)
    ensures forall i: nat :: i < n ==> !Decided(f, attr, t0, env, i)
  {
    hide Decided, Timely;
    DecidedInTime(f, attr, t0, env);
    var decided := (i: nat) => Decided(f, attr, t0, env, i);
    var n := First(decided, 0, TurnLimit(attr));
    assert forall i: nat {:trigger Decided(f, attr, t0, env, i)} :: i < n ==> !decided(i);
    n
  }

  // How TakeWindow ends, and what it leaves.
  datatype Ending = Ending(outcome: Outcome, exit: Exit, turns: nat, after: Feed)

  ghost function Taking(f: Feed, attr: Attribution, t0: int, env: nat -> Poll): Ending
    requires Timely(t0, 50, env)
  {
    var n := LastTurn(f, attr, t0, env);
    var c := AtCheck(f, env, n);
    var exit := Check(c, attr, t0, env(n)).value;
    if c.err != None then Ending(Failed(c.err.value), exit, n + 1, c)
    else
      var g := HandledAll(f, Delivered(env, n + 1));
      Ending(Taken(g.changes), exit, n + 1, g.(changes := []))
  }

  // All that is delivered until TakeWindow ends.
  ghost function Polled(f: Feed, attr: Attribution, t0: int, env: nat -> Poll): seq<Delivery>
    requires Timely(t0, 50, env)
  {
    var n := LastTurn(f, attr, t0, env);
    if AtCheck(f, env, n).err != None then Delivered(env, n) + env(n).early else Delivered(env, n + 1)
  }

  // The stream is then where these leave it.
  lemma TakingReads(f: Feed, attr: Attribution, t0: int, env: nat -> Poll)
    requires Timely(t0, 50, env)
    ensures SameReader(Taking(f, attr, t0, env).after, HandledAll(f, Polled(f, attr, t0, env)))
  {
    hide HandledAll, Timely, Delivered, LastTurn, Check;
  }

  // All that was delivered from the opening of a window until the check that ended it.
  ghost function Heard(f: Feed, during: seq<Delivery>, attr: Attribution, t0: int, env: nat -> Poll): seq<Delivery>
    requires Timely(t0, 50, env)
  {
    var n := LastTurn(HandledAll(Begun(f), during), attr, t0, env);
    during + (Delivered(env, n) + env(n).early)
  }

  lemma {:induction false} DeliveredInOrder(t0: int, env: nat -> Poll, k: nat)
    requires Timely(t0, 50, env)
    ensures InOrder(t0, Delivered(env, k), env(k).start)
  {
    if k > 0 {
      DeliveredInOrder(t0, env, k - 1);
      var p := env(k - 1);
      assert InOrder(p.start, p.early, p.now) && InOrder(p.now, p.late, p.end) && p.end <= env(k).start;
      OrderConcat(t0, Delivered(env, k - 1), p.start, p.early, p.now);
      OrderConcat(t0, Delivered(env, k - 1) + p.early, p.now, p.late, p.end);
    }
  }

  lemma OrderConcat(from: int, x: seq<Delivery>, mid: int, y: seq<Delivery>, to: int)
    requires InOrder(from, x, mid) && InOrder(mid, y, to)
    ensures InOrder(from, x + y, to)
  {
  }

  // All that was delivered from the opening of a window until the check of turn k.
  ghost function HeardAt(during: seq<Delivery>, env: nat -> Poll, k: nat): seq<Delivery> {
    during + (Delivered(env, k) + env(k).early)
  }

  lemma HeardByCheck(f: Feed, opening: int, during: seq<Delivery>, t0: int, env: nat -> Poll, k: nat)
    requires InOrder(opening, during, t0) && Timely(t0, 50, env)
    ensures AtCheck(HandledAll(Begun(f), during), env, k) == HandledAll(Begun(f), HeardAt(during, env, k))
    ensures InOrder(opening, HeardAt(during, env, k), env(k).now)
  {
    hide HandledAll, Delivered;
    var tail := Delivered(env, k) + env(k).early;
    assert InOrder(env(k).start, env(k).early, env(k).now);
    DeliveredInOrder(t0, env, k);
    OrderConcat(t0, Delivered(env, k), env(k).start, env(k).early, env(k).now);
    OrderConcat(opening, during, t0, tail, env(k).now);
    HandledConcat(Begun(f), during, tail);
  }

  // The stream has been quiet: every row event, or without any the start of the polling, lies
  // quietMs back, and no transaction is active, if that is asked.
  ghost predicate QuietFor(times: set<int>, attr: Attribution, t0: int, p: Poll) {
    && (forall t :: t in times ==> p.now - t >= attr.quietMs)
    && (times == {} ==> p.now - t0 >= attr.quietMs)
    && (attr.trxCheck ==> !p.activeTrx)
  }

  // What a look finds, for all that was delivered since the opening.
  ghost function Seen(f: Feed, heard: seq<Delivery>, attr: Attribution, t0: int, p: Poll): Option<Exit> {
    if f.err != None || Kills(heard) then Some(StreamDied)
    else if QuietFor(Times(Begun(f), heard), attr, t0, p) then Some(Quiet)
    else if p.now > t0 + attr.timeoutMs then Some(TimedOut)
    else None
  }

  lemma LookMeans(f: Feed, opening: int, during: seq<Delivery>, attr: Attribution, t0: int, env: nat -> Poll, k: nat)
    requires InOrder(opening, during, t0) && Timely(t0, 50, env)
    ensures Check(AtCheck(HandledAll(Begun(f), during), env, k), attr, t0, env(k))
      == Seen(f, HeardAt(during, env, k), attr, t0, env(k))
  {
    hide HandledAll, Delivered, Kills, Times, InOrder, Timely, AtCheck, HeardAt;
    var heard := HeardAt(during, env, k);
    HeardByCheck(f, opening, during, t0, env, k);
    DiesExactly(Begun(f), heard);
    LastIsLatest(Begun(f), heard, opening, env(k).now);
  }

  // The end of a window, for all that was delivered since its opening. The first look that
  // finds something decides: the stream was dead or has died, it has been quiet, or the time
  // is up. A window fails exactly in the first case, with what the stream died of.
  lemma EndingMeans(f: Feed, opening: int, during: seq<Delivery>, attr: Attribution, t0: int, env: nat -> Poll)
    requires InOrder(opening, during, t0) && Timely(t0, 50, env)
    ensures var e := Taking(HandledAll(Begun(f), during), attr, t0, env);
            var heard := Heard(f, during, attr, t0, env);
            && e.turns > 0 && heard == HeardAt(during, env, e.turns - 1)
            && Seen(f, heard, attr, t0, env(e.turns - 1)) == Some(e.exit)
            && (forall k: nat :: k < e.turns - 1 ==> Seen(f, HeardAt(during, env, k), attr, t0, env(k)) == None)
            && (e.outcome.Failed? <==> f.err != None || Kills(heard))
            && (e.outcome.Failed? ==> Some(e.outcome.reason) == if f.err != None then f.err else Cause(heard))
            && (e.turns > 1 ==> 50 * (e.turns - 2) <= attr.timeoutMs)
  {
    hide HandledAll, Delivered, Kills, Times, InOrder, AtCheck, Seen, Cause, LastTurn, Timely, Check;
    var o := HandledAll(Begun(f), during);
    var n := LastTurn(o, attr, t0, env);
    LooksMean(f, opening, during, attr, t0, env);
    HeardByCheck(f, opening, during, t0, env, n);
    DiesOf(Begun(f), HeardAt(during, env, n));
    DiesExactly(Begun(f), HeardAt(during, env, n));
    if n > 0 { CheckTimes(t0, 50, env, n - 1); }
  }

  lemma LooksMean(f: Feed, opening: int, during: seq<Delivery>, attr: Attribution, t0: int, env: nat -> Poll)
    requires InOrder(opening, during, t0) && Timely(t0, 50, env)
    ensures var o := HandledAll(Begun(f), during);
            var n := LastTurn(o, attr, t0, env);
            && Check(AtCheck(o, env, n), attr, t0, env(n)) != None
            && Check(AtCheck(o, env, n), attr, t0, env(n)) == Seen(f, HeardAt(during, env, n), attr, t0, env(n))
            && (forall k: nat :: k < n ==> Seen(f, HeardAt(during, env, k), attr, t0, env(k)) == None)
            && (n > 0 ==> env(n - 1).now <= t0 + attr.timeoutMs)
  {
    hide HandledAll, Delivered, Kills, Times, InOrder, AtCheck, Seen, LastTurn, Timely, HeardAt;
    var o := HandledAll(Begun(f), during);
    var n := LastTurn(o, attr, t0, env);
    LookMeans(f, opening, during, attr, t0, env, n);
    assert Decided(o, attr, t0, env, n);
    forall k: nat | k < n
      ensures Seen(f, HeardAt(during, env, k), attr, t0, env(k)) == None && env(k).now <= t0 + attr.timeoutMs
    {
      LookMeans(f, opening, during, attr, t0, env, k);
      assert !Decided(o, attr, t0, env, k);
    }
  }

  // It hands off the buffer as it was and all that arrived until the end; a source that has
  // died keeps them.
  lemma EndingHandsOff(f: Feed, during: seq<Delivery>, attr: Attribution, t0: int, env: nat -> Poll)
    requires Timely(t0, 50, env)
    ensures var o := HandledAll(Begun(f), during);
            var e, all := Taking(o, attr, t0, env), f.changes + Arrived(Begun(f), during + Polled(o, attr, t0, env));
            if e.outcome.Taken? then e.outcome.changes == all && e.after.changes == [] else e.after.changes == all
  {
    hide HandledAll, Arrived, Delivered, LastTurn;
    var o := HandledAll(Begun(f), during);
    HandledConcat(Begun(f), during, Polled(o, attr, t0, env));
    HandledChanges(Begun(f), during + Polled(o, attr, t0, env));
  }

  // No death is ever delivered.
  ghost predicate Lives(env: nat -> Poll) { forall k: nat :: !Kills(env(k).early) && !Kills(env(k).late) }

  lemma {:induction false} DeliveredLives(env: nat -> Poll, k: nat)
    requires Lives(env)
    ensures !Kills(Delivered(env, k))
  {
    if k > 0 {
      DeliveredLives(env, k - 1);
      assert !Kills(env(k - 1).early) && !Kills(env(k - 1).late);
    }
  }

  // Then a live stream stays alive.
  lemma LiveEnding(f: Feed, during: seq<Delivery>, attr: Attribution, t0: int, env: nat -> Poll)
    requires Timely(t0, 50, env) && f.err == None && !Kills(during) && Lives(env)
    ensures !Kills(Heard(f, during, attr, t0, env))
    ensures Taking(HandledAll(Begun(f), during), attr, t0, env).after.err == None
  {
    hide HandledAll, LastTurn, Delivered, Timely;
    var o := HandledAll(Begun(f), during);
    var n := LastTurn(o, attr, t0, env);
    assert !Kills(env(n).early) && !Kills(env(n).late);
    DeliveredLives(env, n);
    DeliveredLives(env, n + 1);
    DiesExactly(Begun(f), during);
    DiesExactly(o, Delivered(env, n) + env(n).early);
    DiesExactly(o, Delivered(env, n + 1));
  }

  class Capture {
    var changes: seq<RowChange>
    var lastEvent: Option<int>
    var err: Option<string>
    var lastQuery: string

    ghost function Now(): Feed
      reads this
    {
      Feed(changes, lastEvent, err, lastQuery)
    }

    constructor ()
      ensures Now() == FRESH
    {
      changes, lastEvent, err, lastQuery := [], None, None, "";
    }

    // One turn of the pump. After the stream has died the pump is gone.
    method Handle(d: Delivery)
      modifies this
      ensures Now() == Handled(old(Now()), d)
    {
      if err != None { return; }
      match d.ev
      case RowsQuery(sql) => lastQuery := sql;
      case Died(reason) => err := Some(reason);
      case Rows(schema, _, _, _, _) =>
        if schema !in SYSTEM_SCHEMAS {
          var cs := Normalize(d.ev, lastQuery);
          if cs != [] {
            changes := changes + cs;
            lastEvent := Some(d.at);
          }
        }
    }

    method HandleAll(ds: seq<Delivery>)
      modifies this
      ensures Now() == HandledAll(old(Now()), ds)
    {
      var i := 0;
      while i < |ds|
        invariant i <= |ds| && Now() == HandledAll(old(Now()), ds[..i])
      {
        Handle(ds[i]);
        HandledSnoc(old(Now()), ds[..i], ds[i]);
        i := i + 1;
        assert ds[..i] == ds[..i - 1] + [ds[i - 1]];
      }
      assert ds[..i] == ds;
    }

    // Leftovers of the previous window stay: they will be charged to this one.
    method BeginWindow()
      modifies this
      ensures Now() == Begun(old(Now()))
    {
      lastEvent := None;
    }

    // Polls every 50 ms until the stream has died, or been quiet for quietMs, or the time is
    // up; then hands off the buffer with all that arrived meanwhile.
    method TakeWindow(attr: Attribution, t0: int, env: nat -> Poll)
      returns (r: Outcome, exit: Exit, polls: nat)
      requires Timely(t0, 50, env)
      modifies this
      ensures Ending(r, exit, polls, Now()) == Taking(old(Now()), attr, t0, env)
    {
      var deadline := t0 + attr.timeoutMs;
      polls, exit := 0, TimedOut;
      ghost var f, n := Now(), LastTurn(Now(), attr, t0, env);
      var done := false;
      while !done
        invariant Now() == HandledAll(f, Delivered(env, polls))
        invariant if done then polls == n + 1 else polls <= n
        invariant done ==> Check(AtCheck(f, env, n), attr, t0, env(n)) == Some(exit) && exit != StreamDied
        decreases !done, n + 1 - polls
      {
        hide HandledAll, LastTurn, Timely, Delivered, AtCheck;
        var p := env(polls);
        HandleAll(p.early);
        TurnHandled(f, env, polls);
        ghost var c := Now();
        assert c == AtCheck(f, env, polls) && (Decided(f, attr, t0, env, polls) <==> Check(c, attr, t0, p) != None);
        polls := polls + 1;
        if err != None {
          return Failed(err.value), StreamDied, polls;
        }
        var last := if lastEvent == None then t0 else lastEvent.value;
        if p.now - last >= attr.quietMs && (!attr.trxCheck || !p.activeTrx) {
          done, exit := true, Quiet;
        } else if p.now > deadline {
          done, exit := true, TimedOut;
        }
        assert Check(c, attr, t0, p) == if done then Some(exit) else None;
        HandleAll(p.late);
      }
      r := Taken(changes);
      changes := [];
    }
  }
}
