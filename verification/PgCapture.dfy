// The PostgreSQL source: row changes come in transactions, each closed by a commit, and a
// window closes on the first commit past the one it was opened at.
module PgCapture {
  import opened Norm
  import opened Optional
  import opened Writesets
  import opened Polling

  // ----- logical decoding messages ------------------------------------------------------

  datatype Relation = Relation(namespace: string, name: string, columns: seq<string>)

  // A column as sent: null, a decoded text value, or an unchanged TOAST value left out.
  datatype Column = NullColumn | Decoded(value: Raw) | Unchanged

  datatype Message =
    | RelationMsg(id: nat, relation: Relation)
    | RowMsg(id: nat, op: Op, before: Option<seq<Column>>, after: Option<seq<Column>>)
    | CommitMsg(lsn: nat)
    | Broken(reason: string)

  // The first n columns of a tuple, by name; columns the relation does not have are dropped.
  function TupleMap(rel: Relation, tuple: seq<Column>, n: nat): Row
    requires n <= |tuple| && n <= |rel.columns|
  {
    if n == 0 then map[]
    else
      var rest := TupleMap(rel, tuple, n - 1);
      match tuple[n - 1]
      case NullColumn => rest[rel.columns[n - 1] := RNull]
      case Decoded(v) => rest[rel.columns[n - 1] := v]
      case Unchanged => rest
  }

  // Column i is sent under this name.
  ghost predicate Sends(rel: Relation, tuple: seq<Column>, i: nat, name: string) {
    i < |tuple| && i < |rel.columns| && !tuple[i].Unchanged? && rel.columns[i] == name
  }

  lemma {:induction false} TupleMapAt(rel: Relation, tuple: seq<Column>, n: nat, i: nat, name: string)
    requires i < n <= |tuple| && n <= |rel.columns| && Sends(rel, tuple, i, name)
    requires forall j: nat :: i < j < n ==> !Sends(rel, tuple, j, name)
    ensures name in TupleMap(rel, tuple, n)
    ensures TupleMap(rel, tuple, n)[name] == if tuple[i].NullColumn? then RNull else tuple[i].value
  {
    if i + 1 < n {
      assert !Sends(rel, tuple, n - 1, name);
      TupleMapAt(rel, tuple, n - 1, i, name);
    }
  }

  lemma {:induction false} TupleMapHas(rel: Relation, tuple: seq<Column>, n: nat, name: string) returns (i: nat)
    requires n <= |tuple| && n <= |rel.columns| && name in TupleMap(rel, tuple, n)
    ensures i < n && Sends(rel, tuple, i, name)
  {
    if Sends(rel, tuple, n - 1, name) {
      i := n - 1;
    } else {
      i := TupleMapHas(rel, tuple, n - 1, name);
    }
  }

  function DecodeTuple(rel: Relation, tuple: seq<Column>): Row {
    TupleMap(rel, tuple, if |tuple| < |rel.columns| then |tuple| else |rel.columns|)
  }

  // A row has exactly the columns that are sent with a value: surplus columns of the tuple
  // are not in it, nor are unchanged ones.
  lemma RowColumns(rel: Relation, tuple: seq<Column>, name: string)
    ensures name in DecodeTuple(rel, tuple) <==> exists i: nat :: Sends(rel, tuple, i, name)
  {
    var n := if |tuple| < |rel.columns| then |tuple| else |rel.columns|;
    if name in DecodeTuple(rel, tuple) {
      var i := TupleMapHas(rel, tuple, n, name);
    } else if i: nat :| Sends(rel, tuple, i, name) {
      LastSent(rel, tuple, n, i, name);
    }
  }

  lemma {:induction false} LastSent(rel: Relation, tuple: seq<Column>, n: nat, i: nat, name: string)
    requires i < n <= |tuple| && n <= |rel.columns| && Sends(rel, tuple, i, name)
    ensures name in TupleMap(rel, tuple, n)
  {
    if i + 1 < n { LastSent(rel, tuple, n - 1, i, name); }
  }

  // Under each name it has the last value sent.
  lemma RowValue(rel: Relation, tuple: seq<Column>, i: nat, name: string)
    requires Sends(rel, tuple, i, name) && forall j: nat :: i < j ==> !Sends(rel, tuple, j, name)
    ensures name in DecodeTuple(rel, tuple)
    ensures DecodeTuple(rel, tuple)[name] == if tuple[i].NullColumn? then RNull else tuple[i].value
  {
    TupleMapAt(rel, tuple, if |tuple| < |rel.columns| then |tuple| else |rel.columns|, i, name);
  }

  function DecodeOptional(rel: Relation, tuple: Option<seq<Column>>): Option<Row> {
    match tuple case None => None case Some(t) => Some(DecodeTuple(rel, t))
  }

  // What a row message adds to the buffer: nothing if its relation was never announced.
  function Recorded(relations: map<nat, Relation>, m: Message): seq<RowChange> {
    if m.RowMsg? && m.id in relations then
      var rel := relations[m.id];
      [RowChange(rel.namespace + "." + rel.name, m.op, DecodeOptional(rel, m.before), DecodeOptional(rel, m.after), "")]
    else []
  }

  // The row has exactly the columns that are sent with a value or null, each with the last
  // one sent under its name.
  ghost predicate Holds(row: Row, rel: Relation, tuple: seq<Column>) {
    && (forall name :: name in row <==> exists i: nat :: Sends(rel, tuple, i, name))
    && (forall name, i: nat :: LastSends(rel, tuple, i, name) ==>
          row[name] == if tuple[i].NullColumn? then RNull else tuple[i].value)
  }

  ghost predicate LastSends(rel: Relation, tuple: seq<Column>, i: nat, name: string) {
    Sends(rel, tuple, i, name) && forall j: nat :: i < j ==> !Sends(rel, tuple, j, name)
  }

  // The images that are sent are there, the others are missing.
  ghost predicate ImageOf(image: Option<Row>, rel: Relation, tuple: Option<seq<Column>>) {
    (image == None <==> tuple == None) && (tuple != None ==> Holds(image.value, rel, tuple.value))
  }

  // The change of a row message, if its relation is known: old tuple before, new one after.
  ghost predicate ChangesOf(cs: seq<RowChange>, relations: map<nat, Relation>, m: Message) {
    if m.RowMsg? && m.id in relations then
      var rel := relations[m.id];
      && |cs| == 1 && cs[0].table == rel.namespace + "." + rel.name && cs[0].op == m.op && cs[0].query == ""
      && ImageOf(cs[0].before, rel, m.before) && ImageOf(cs[0].after, rel, m.after)
    else cs == []
  }

  lemma DecodedHolds(rel: Relation, tuple: seq<Column>)
    ensures Holds(DecodeTuple(rel, tuple), rel, tuple)
  {
    hide DecodeTuple;
    forall name ensures name in DecodeTuple(rel, tuple) <==> exists i: nat :: Sends(rel, tuple, i, name) {
      RowColumns(rel, tuple, name);
    }
    forall name, i: nat | LastSends(rel, tuple, i, name)
      ensures DecodeTuple(rel, tuple)[name] == if tuple[i].NullColumn? then RNull else tuple[i].value
    {
      RowValue(rel, tuple, i, name);
    }
  }

  lemma RecordedMeaning(relations: map<nat, Relation>, m: Message)
    ensures ChangesOf(Recorded(relations, m), relations, m)
  {
    hide Holds, DecodeTuple;
    if m.RowMsg? && m.id in relations {
      if m.before != None { DecodedHolds(relations[m.id], m.before.value); }
      if m.after != None { DecodedHolds(relations[m.id], m.after.value); }
    }
  }

  lemma OnlyRowsRecord(relations: map<nat, Relation>, m: Message)
    requires !m.RowMsg?
    ensures Recorded(relations, m) == []
  {
  }

  // ----- what happened since a window was opened -----------------------------------------

  datatype Event = Row(change: RowChange) | Commit(lsn: nat)

  function RowsOf(es: seq<Event>): seq<RowChange> {
    if es == [] then [] else (if es[0].Row? then [es[0].change] else []) + RowsOf(es[1..])
  }

  function LastLsn(es: seq<Event>, start: nat): nat {
    if es == [] then start else LastLsn(es[1..], if es[0].Commit? then es[0].lsn else start)
  }

  datatype Txn = Txn(rows: seq<RowChange>, lsn: nat)

  function RowEvents(rows: seq<RowChange>): seq<Event> {
    seq(|rows|, i requires 0 <= i < |rows| => Row(rows[i]))
  }

  // Transactions in commit order, each contiguous.
  function Stream(txns: seq<Txn>): seq<Event> {
    if txns == [] then [] else RowEvents(txns[0].rows) + [Commit(txns[0].lsn)] + Stream(txns[1..])
  }

  ghost predicate Increasing(start: nat, txns: seq<Txn>)
    decreases |txns|
  {
    txns == [] || (start < txns[0].lsn && Increasing(txns[0].lsn, txns[1..]))
  }

  lemma {:induction false} RowsOfConcat(x: seq<Event>, y: seq<Event>)
    ensures RowsOf(x + y) == RowsOf(x) + RowsOf(y)
  {
    if x == [] {
      assert x + y == y;
    } else {
      var first := if x[0].Row? then [x[0].change] else [];
      assert (x + y)[0] == x[0] && (x + y)[1..] == x[1..] + y;
      RowsOfConcat(x[1..], y);
      assert first + (RowsOf(x[1..]) + RowsOf(y)) == first + RowsOf(x[1..]) + RowsOf(y);
    }
  }

  lemma {:induction false} LastLsnConcat(x: seq<Event>, y: seq<Event>, start: nat)
    ensures LastLsn(x + y, start) == LastLsn(y, LastLsn(x, start))
  {
    if x == [] {
      assert x + y == y;
    } else {
      assert (x + y)[1..] == x[1..] + y;
      LastLsnConcat(x[1..], y, if x[0].Commit? then x[0].lsn else start);
    }
  }

  lemma {:induction false} RowEventsPlain(rows: seq<RowChange>, start: nat)
    ensures RowsOf(RowEvents(rows)) == rows && LastLsn(RowEvents(rows), start) == start
  {
    if rows != [] {
      assert RowEvents(rows)[1..] == RowEvents(rows[1..]);
      RowEventsPlain(rows[1..], start);
    }
  }

  // Whatever follows the first rows in the stream: once a later commit is visible, all of
  // these rows are in the buffer, in order and in front.
  lemma RowsBeforeCommit(rows: seq<RowChange>, rest: seq<Event>, seen: seq<Event>, start: nat)
    requires seen <= RowEvents(rows) + rest && LastLsn(seen, start) > start
    ensures rows <= RowsOf(seen)
  {
    var all := RowEvents(rows);
    if |seen| <= |rows| {
      assert seen == RowEvents(rows[..|seen|]);
      RowEventsPlain(rows[..|seen|], start);
    } else {
      assert seen == all + seen[|rows|..];
      RowsOfConcat(all, seen[|rows|..]);
      RowEventsPlain(rows, start);
    }
  }

  // What is left of a transaction whose first k rows were decoded before the window was
  // opened, and the transactions after it.
  ghost function Onward(t: Txn, k: nat, later: seq<Txn>): seq<Event>
    requires k <= |t.rows|
  {
    RowEvents(t.rows[k..]) + ([Commit(t.lsn)] + Stream(later))
  }

  // A window that closes on a commit holds exactly the rows of the first transaction that
  // were still to come, in front, and then rows of later ones.
  lemma HalfDecoded(t: Txn, k: nat, later: seq<Txn>, seen: seq<Event>, start: nat)
    requires k <= |t.rows| && seen <= Onward(t, k, later) && LastLsn(seen, start) > start
    ensures t.rows[k..] <= RowsOf(seen) <= t.rows[k..] + RowsOf(Stream(later))
  {
    var rows, rest := RowEvents(t.rows[k..]), [Commit(t.lsn)] + Stream(later);
    RowsBeforeCommit(t.rows[k..], rest, seen, start);
    RowsOfPrefix(seen, rows + rest);
    RowsOfConcat(rows, rest);
    RowEventsPlain(t.rows[k..], start);
    assert rest[1..] == Stream(later);
    assert RowsOf(rest) == RowsOf(Stream(later));
    hide RowsOf, RowEvents, Stream;
  }

  lemma RowsOfPrefix(x: seq<Event>, y: seq<Event>)
    requires x <= y
    ensures RowsOf(x) <= RowsOf(y)
  {
    RowsOfConcat(x, y[|x|..]);
    assert y == x + y[|x|..];
  }

  // So it begins with the whole transaction, whatever the rows are and whatever follows,
  // exactly if none of it was decoded before the opening.
  lemma WholeTransaction(t: Txn, k: nat, start: nat)
    requires k <= |t.rows| && start < t.lsn
    ensures (forall later, seen :: seen <= Onward(t, k, later) && LastLsn(seen, start) > start ==>
               t.rows <= RowsOf(seen)) <==> k == 0
  {
    if k == 0 {
      assert t.rows[0..] == t.rows;
      forall later, seen | seen <= Onward(t, k, later) && LastLsn(seen, start) > start ensures t.rows <= RowsOf(seen) {
        HalfDecoded(t, k, later, seen, start);
      }
    } else {
      var rows, commit := RowEvents(t.rows[k..]), [Commit(t.lsn)];
      var seen := rows + commit;
      assert commit + Stream([]) == commit;
      assert seen <= Onward(t, k, []);
      RowsOfConcat(rows, commit);
      LastLsnConcat(rows, commit, start);
      RowEventsPlain(t.rows[k..], start);
      assert |RowsOf(seen)| == |t.rows| - k;
    }
  }

  // With whole transactions in commit order from the opening on, a window that closes on a
  // commit begins with all row changes of the first transaction committed after opening.
  lemma CommitWindow(txns: seq<Txn>, seen: seq<Event>, start: nat)
    requires seen <= Stream(txns) && Increasing(start, txns) && LastLsn(seen, start) > start
    ensures txns != [] && txns[0].rows <= RowsOf(seen)
  {
    if txns != [] {
      var t := txns[0];
      assert t.rows[0..] == t.rows;
      assert Stream(txns) == Onward(t, 0, txns[1..]);
      HalfDecoded(t, 0, txns[1..], seen, start);
    }
  }

  // ----- the capture as a value -----------------------------------------------------------

  // The fields of a capture.
  datatype Feed = Feed(
    relations: map<nat, Relation>, changes: seq<RowChange>, lastCommitLSN: nat, windowStart: nat, err: Option<string>)

  const FRESH := Feed(map[], [], 0, 0, None)

  function Handled(f: Feed, m: Message): Feed {
    if f.err != None then f
    else match m
      case RelationMsg(id, rel) => f.(relations := f.relations[id := rel])
      case RowMsg(_, _, _, _) => f.(changes := f.changes + Recorded(f.relations, m))
      case CommitMsg(lsn) => f.(lastCommitLSN := lsn)
      case Broken(reason) => f.(err := Some(reason))
  }

  function HandledAll(f: Feed, ms: seq<Message>): Feed {
    if |ms| == 0 then f else Handled(HandledAll(f, ms[..|ms| - 1]), ms[|ms| - 1])
  }

  function Begun(f: Feed): Feed { f.(changes := [], windowStart := f.lastCommitLSN) }

  // The row and commit events of a message: none once the stream has died.
  function Told(f: Feed, m: Message): seq<Event> {
    if f.err != None then [] else if m.CommitMsg? then [Commit(m.lsn)] else RowEvents(Recorded(f.relations, m))
  }

  // The events of a list of messages, up to the first error.
  function Events(f: Feed, ms: seq<Message>): seq<Event> {
    if |ms| == 0 then [] else Events(f, ms[..|ms| - 1]) + Told(HandledAll(f, ms[..|ms| - 1]), ms[|ms| - 1])
  }

  function Arrived(f: Feed, ms: seq<Message>): seq<RowChange> { RowsOf(Events(f, ms)) }

  lemma HandledSnoc(f: Feed, ms: seq<Message>, m: Message)
    ensures HandledAll(f, ms + [m]) == Handled(HandledAll(f, ms), m)
  {
    assert (ms + [m])[..|ms + [m]| - 1] == ms;
  }

  lemma {:induction false} HandledConcat(f: Feed, x: seq<Message>, y: seq<Message>)
    ensures HandledAll(f, x + y) == HandledAll(HandledAll(f, x), y)
    ensures Events(f, x + y) == Events(f, x) + Events(HandledAll(f, x), y)
  {
    hide Handled, Told;
    if |y| == 0 {
      assert x + y == x && y == [];
    } else {
      var n := |y| - 1;
      HandledConcat(f, x, y[..n]);
      assert (x + y)[..|x + y| - 1] == x + y[..n] && (x + y)[|x + y| - 1] == y[n];
    }
  }

  lemma ArrivedConcat(f: Feed, x: seq<Message>, y: seq<Message>)
    ensures Arrived(f, x + y) == Arrived(f, x) + Arrived(HandledAll(f, x), y)
  {
    HandledConcat(f, x, y);
    RowsOfConcat(Events(f, x), Events(HandledAll(f, x), y));
  }

  lemma OneHandled(f: Feed, m: Message)
    ensures Handled(f, m).changes == f.changes + RowsOf(Told(f, m))
    ensures Handled(f, m).lastCommitLSN == LastLsn(Told(f, m), f.lastCommitLSN)
    ensures Handled(f, m).windowStart == f.windowStart
    ensures Handled(f, m).err == if f.err == None && m.Broken? then Some(m.reason) else f.err
  {
    hide RowEvents;
    var rows := Recorded(f.relations, m);
    RowEventsPlain(rows, f.lastCommitLSN);
    if !m.RowMsg? { OnlyRowsRecord(f.relations, m); }
    hide Recorded;
  }

  // One turn of the pump. A dead stream stays as it is; relations are learned, rows of known
  // relations recorded, commits remembered.
  lemma HandledMeaning(f: Feed, m: Message)
    ensures f.err != None ==> Handled(f, m) == f
    ensures f.err == None && m.RelationMsg? ==> Handled(f, m) == f.(relations := f.relations[m.id := m.relation])
    ensures f.err == None && m.CommitMsg? ==> Handled(f, m) == f.(lastCommitLSN := m.lsn)
    ensures f.err == None && m.Broken? ==> Handled(f, m) == f.(err := Some(m.reason))
    ensures f.err == None && m.RowMsg? ==>
              exists cs :: ChangesOf(cs, f.relations, m) && Handled(f, m) == f.(changes := f.changes + cs)
  {
    RecordedMeaning(f.relations, m);
    hide ChangesOf, Recorded;
  }

  // The buffer grows by the rows that arrive, in order, and the last commit moves on.
  lemma {:induction false} HandledEvents(f: Feed, ms: seq<Message>)
    ensures HandledAll(f, ms).changes == f.changes + Arrived(f, ms)
    ensures HandledAll(f, ms).lastCommitLSN == LastLsn(Events(f, ms), f.lastCommitLSN)
    ensures HandledAll(f, ms).windowStart == f.windowStart
  {
    if |ms| > 0 {
      hide Handled, Told;
      var n := |ms| - 1;
      var before, more := Events(f, ms[..n]), Told(HandledAll(f, ms[..n]), ms[n]);
      HandledEvents(f, ms[..n]);
      OneHandled(HandledAll(f, ms[..n]), ms[n]);
      RowsOfConcat(before, more);
      LastLsnConcat(before, more, f.lastCommitLSN);
      hide RowsOf, LastLsn;
    }
  }

  ghost predicate Kills(ms: seq<Message>) { exists m :: m in ms && m.Broken? }

  // What the stream died of: the first error counts.
  ghost function Cause(ms: seq<Message>): Option<string> {
    if ms == [] then None else if ms[0].Broken? then Some(ms[0].reason) else Cause(ms[1..])
  }

  lemma {:induction false} CauseSnoc(ms: seq<Message>, m: Message)
    ensures Cause(ms + [m]) == if Cause(ms) != None then Cause(ms) else if m.Broken? then Some(m.reason) else None
  {
    if ms == [] {
      assert (ms + [m])[1..] == [];
    } else {
      assert (ms + [m])[1..] == ms[1..] + [m];
      CauseSnoc(ms[1..], m);
    }
  }

  lemma {:induction false} DiesOf(f: Feed, ms: seq<Message>)
    ensures HandledAll(f, ms).err == if f.err != None then f.err else Cause(ms)
  {
    if |ms| > 0 {
      hide Handled, Told, RowsOf, LastLsn;
      var n := |ms| - 1;
      DiesOf(f, ms[..n]);
      CauseSnoc(ms[..n], ms[n]);
      OneHandled(HandledAll(f, ms[..n]), ms[n]);
      assert ms == ms[..n] + [ms[n]];
    }
  }

  // The stream is dead exactly if it was or if its error is among the messages.
  lemma {:induction false} DiesExactly(f: Feed, ms: seq<Message>)
    ensures HandledAll(f, ms).err != None <==> f.err != None || Kills(ms)
  {
    if |ms| > 0 {
      hide Handled, Told, RowsOf, LastLsn;
      var n := |ms| - 1;
      DiesExactly(f, ms[..n]);
      OneHandled(HandledAll(f, ms[..n]), ms[n]);
      assert ms == ms[..n] + [ms[n]];
    }
  }

  // ----- the environment of a window ----------------------------------------------------

  // One turn of the polling loop: what the pump handles before the check, the time, and what
  // the pump handles before the loop goes on.
  datatype Turn = Turn(early: seq<Message>, now: int, late: seq<Message>)

  datatype Way = ByCommit | ReadOnly | OnTimeout | OnError

  // At least 20 ms from one check to the next.
  ghost predicate Paced(t0: int, env: nat -> Turn) {
    t0 <= env(0).now && forall k, l :: l == k + 1 ==> env(k).now + 20 <= env(l).now
  }

  lemma {:induction false} CheckTimes(t0: int, env: nat -> Turn, k: nat)
    requires Paced(t0, env)
    ensures env(k).now >= t0 + 20 * k
  {
    if k > 0 {
      CheckTimes(t0, env, k - 1);
      assert env(k - 1).now + 20 <= env(k).now;
    }
  }

  // All that is delivered before turn k.
  function Delivered(env: nat -> Turn, k: nat): seq<Message> {
    if k == 0 then [] else Delivered(env, k - 1) + env(k - 1).early + env(k - 1).late
  }

  // The capture at the check of turn k.
  function AtCheck(f: Feed, env: nat -> Turn, k: nat): Feed {
    HandledAll(f, Delivered(env, k) + env(k).early)
  }

  lemma TurnHandled(f: Feed, env: nat -> Turn, k: nat)
    ensures HandledAll(HandledAll(f, Delivered(env, k)), env(k).early) == AtCheck(f, env, k)
    ensures HandledAll(AtCheck(f, env, k), env(k).late) == HandledAll(f, Delivered(env, k + 1))
  {
    HandledConcat(f, Delivered(env, k), env(k).early);
    HandledConcat(f, Delivered(env, k) + env(k).early, env(k).late);
  }

  // What a look at the capture decides, if anything.
  function Check(f: Feed, attr: Attribution, t0: int, now: int): Option<Way> {
    if f.err != None then Some(OnError)
    else if f.lastCommitLSN > f.windowStart then Some(ByCommit)
    else if |f.changes| == 0 && now - t0 >= attr.quietMs then Some(ReadOnly)
    else if now > t0 + attr.timeoutMs then Some(OnTimeout)
    else None
  }

  ghost predicate Decided(f: Feed, attr: Attribution, t0: int, env: nat -> Turn, k: nat) {
    Check(AtCheck(f, env, k), attr, t0, env(k).now) != None
  }

  function TurnLimit(attr: Attribution): nat { if attr.timeoutMs < 0 then 0 else attr.timeoutMs / 20 + 1 }

  // The first turn whose check decides.
  ghost function LastTurn(f: Feed, attr: Attribution, t0: int, env: nat -> Turn): (n: nat)
    requires Paced(t0, env)
    ensures n <= TurnLimit(attr) && Decided(f, attr, t0, env, n)
    ensures forall i: nat :: i < n ==> !Decided(f, attr, t0, env, i)
  {
    hide AtCheck, Paced;
    CheckTimes(t0, env, TurnLimit(attr));
    var decided := (i: nat) => Decided(f, attr, t0, env, i);
    var n := First(decided, 0, TurnLimit(attr));
    assert forall i: nat {:trigger Decided(f, attr, t0, env, i)} :: i < n ==> !decided(i);
    n
  }

  // How TakeWindow ends, and what it leaves.
  datatype Ending = Ending(outcome: Outcome, way: Way, turns: nat, after: Feed)

  ghost function Taking(f: Feed, attr: Attribution, t0: int, env: nat -> Turn): Ending
    requires Paced(t0, env)
  {
    var n := LastTurn(f, attr, t0, env);
    var c := AtCheck(f, env, n);
    var way := Check(c, attr, t0, env(n).now).value;
    if c.err != None then Ending(Failed(c.err.value), way, n + 1, c)
    else
      var g := HandledAll(f, Delivered(env, n + 1));
      Ending(Taken(g.changes), way, n + 1, g.(changes := []))
  }

  // All that is delivered until TakeWindow ends.
  ghost function Polled(f: Feed, attr: Attribution, t0: int, env: nat -> Turn): seq<Message>
    requires Paced(t0, env)
  {
    var n := LastTurn(f, attr, t0, env);
    if AtCheck(f, env, n).err != None then Delivered(env, n) + env(n).early else Delivered(env, n + 1)
  }

  // All that was delivered from the opening of a window until the check that ended it.
  ghost function Heard(f: Feed, during: seq<Message>, attr: Attribution, t0: int, env: nat -> Turn): seq<Message>
    requires Paced(t0, env)
  {
    var n := LastTurn(HandledAll(Begun(f), during), attr, t0, env);
    during + (Delivered(env, n) + env(n).early)
  }

  // All that was delivered from the opening of a window until the check of turn k.
  ghost function HeardAt(during: seq<Message>, env: nat -> Turn, k: nat): seq<Message> {
    during + (Delivered(env, k) + env(k).early)
  }

  // What a look finds, for all that was delivered since the opening: an error, a commit past
  // the one at the opening, no row for quietMs, or that the time is up.
  ghost function Seen(f: Feed, heard: seq<Message>, attr: Attribution, t0: int, now: int): Option<Way> {
    if f.err != None || Kills(heard) then Some(OnError)
    else if LastLsn(Events(Begun(f), heard), f.lastCommitLSN) > f.lastCommitLSN then Some(ByCommit)
    else if Arrived(Begun(f), heard) == [] && now - t0 >= attr.quietMs then Some(ReadOnly)
    else if now > t0 + attr.timeoutMs then Some(OnTimeout)
    else None
  }

  lemma LookMeans(f: Feed, during: seq<Message>, attr: Attribution, t0: int, env: nat -> Turn, k: nat)
    ensures Check(AtCheck(HandledAll(Begun(f), during), env, k), attr, t0, env(k).now)
      == Seen(f, HeardAt(during, env, k), attr, t0, env(k).now)
  {
    hide HandledAll, Delivered, Kills, Arrived, Events, LastLsn;
    HandledConcat(Begun(f), during, Delivered(env, k) + env(k).early);
    DiesExactly(Begun(f), HeardAt(during, env, k));
    HandledEvents(Begun(f), HeardAt(during, env, k));
  }

  lemma LooksMean(f: Feed, during: seq<Message>, attr: Attribution, t0: int, env: nat -> Turn)
    requires Paced(t0, env)
    ensures var o := HandledAll(Begun(f), during);
            var n := LastTurn(o, attr, t0, env);
            && Check(AtCheck(o, env, n), attr, t0, env(n).now) != None
            && Check(AtCheck(o, env, n), attr, t0, env(n).now) == Seen(f, HeardAt(during, env, n), attr, t0, env(n).now)
            && (forall k: nat :: k < n ==> Seen(f, HeardAt(during, env, k), attr, t0, env(k).now) == None)
            && (n > 0 ==> env(n - 1).now <= t0 + attr.timeoutMs)
  {
    hide HandledAll, Delivered, Kills, AtCheck, Seen, LastTurn, Paced, HeardAt;
    var o := HandledAll(Begun(f), during);
    var n := LastTurn(o, attr, t0, env);
    LookMeans(f, during, attr, t0, env, n);
    assert Decided(o, attr, t0, env, n);
    forall k: nat | k < n
      ensures Seen(f, HeardAt(during, env, k), attr, t0, env(k).now) == None && env(k).now <= t0 + attr.timeoutMs
    {
      LookMeans(f, during, attr, t0, env, k);
      assert !Decided(o, attr, t0, env, k);
    }
  }

  // The end of a window, for all that was delivered since its opening: the first look that
  // finds something decides. A window fails exactly if the stream was dead or died by then,
  // with what it died of.
  lemma EndingMeans(f: Feed, during: seq<Message>, attr: Attribution, t0: int, env: nat -> Turn)
    requires Paced(t0, env)
    ensures var e := Taking(HandledAll(Begun(f), during), attr, t0, env);
            var heard := Heard(f, during, attr, t0, env);
            && e.turns > 0 && heard == HeardAt(during, env, e.turns - 1)
            && Seen(f, heard, attr, t0, env(e.turns - 1).now) == Some(e.way)
            && (forall k: nat :: k < e.turns - 1 ==> Seen(f, HeardAt(during, env, k), attr, t0, env(k).now) == None)
            && (e.outcome.Failed? <==> f.err != None || Kills(heard))
            && (e.outcome.Failed? ==> Some(e.outcome.reason) == if f.err != None then f.err else Cause(heard))
            && (e.turns > 1 ==> 20 * (e.turns - 2) <= attr.timeoutMs)
  {
    hide HandledAll, Delivered, Kills, Paced, Seen, Cause, LastTurn, Check;
    var o := HandledAll(Begun(f), during);
    var n := LastTurn(o, attr, t0, env);
    LooksMean(f, during, attr, t0, env);
    HandledConcat(Begun(f), during, Delivered(env, n) + env(n).early);
    DiesOf(Begun(f), HeardAt(during, env, n));
    DiesExactly(Begun(f), HeardAt(during, env, n));
    if n > 0 { CheckTimes(t0, env, n - 1); }
  }

  lemma PolledIsHeard(f: Feed, during: seq<Message>, attr: Attribution, t0: int, env: nat -> Turn)
    requires Paced(t0, env)
    requires Taking(HandledAll(Begun(f), during), attr, t0, env).outcome.Taken?
    ensures var o := HandledAll(Begun(f), during);
            during + Polled(o, attr, t0, env) == Heard(f, during, attr, t0, env) + env(LastTurn(o, attr, t0, env)).late
  {
    hide HandledAll, LastTurn, Paced, Check;
  }

  // It hands off all rows since the opening, until the end; a source that has died keeps
  // them. If it ends on a commit and transactions arrive whole, in commit order, from the
  // opening on, they begin with all rows of the first transaction committed since.
  lemma EndingHandsOff(f: Feed, during: seq<Message>, attr: Attribution, t0: int, env: nat -> Turn)
    requires Paced(t0, env)
    ensures var o := HandledAll(Begun(f), during);
            var e, all := Taking(o, attr, t0, env), during + Polled(o, attr, t0, env);
            && (if e.outcome.Taken? then e.outcome.changes == Arrived(Begun(f), all) && e.after.changes == []
                else e.after.changes == Arrived(Begun(f), all))
            && (e.way == ByCommit ==>
                  forall txns: seq<Txn> ::
                    Events(Begun(f), all) <= Stream(txns) && Increasing(f.lastCommitLSN, txns) ==>
                      txns != [] && txns[0].rows <= e.outcome.changes)
  {
    hide HandledAll, Arrived, Events, Delivered, LastTurn, Stream, Increasing;
    var o := HandledAll(Begun(f), during);
    var all := during + Polled(o, attr, t0, env);
    HandledConcat(Begun(f), during, Polled(o, attr, t0, env));
    HandledEvents(Begun(f), all);
    if Taking(o, attr, t0, env).way == ByCommit {
      var heard, late := Heard(f, during, attr, t0, env), env(LastTurn(o, attr, t0, env)).late;
      EndingMeans(f, during, attr, t0, env);
      assert all == heard + late by { hide Check; PolledIsHeard(f, during, attr, t0, env); }
      forall txns: seq<Txn> | Events(Begun(f), all) <= Stream(txns) && Increasing(f.lastCommitLSN, txns)
        ensures txns != [] && txns[0].rows <= Arrived(Begun(f), all)
      {
        FirstCommitted(Begun(f), heard, late, txns);
      }
    }
  }

  lemma FirstCommitted(f: Feed, heard: seq<Message>, late: seq<Message>, txns: seq<Txn>)
    requires LastLsn(Events(f, heard), f.lastCommitLSN) > f.lastCommitLSN
    requires Events(f, heard + late) <= Stream(txns) && Increasing(f.lastCommitLSN, txns)
    ensures txns != [] && txns[0].rows <= Arrived(f, heard + late)
  {
    hide HandledAll, Events, Stream, Increasing, LastLsn, RowsOf;
    HandledConcat(f, heard, late);
    FirstOfMore(txns, Events(f, heard), Events(f, heard + late), f.lastCommitLSN);
  }

  lemma FirstOfMore(txns: seq<Txn>, seen: seq<Event>, events: seq<Event>, start: nat)
    requires seen <= events <= Stream(txns) && Increasing(start, txns) && LastLsn(seen, start) > start
    ensures txns != [] && txns[0].rows <= RowsOf(events)
  {
    CommitWindow(txns, seen, start);
    assert events == seen + events[|seen|..];
    RowsOfConcat(seen, events[|seen|..]);
  }

  // No death is ever delivered.
  ghost predicate Lives(env: nat -> Turn) { forall k: nat :: !Kills(env(k).early) && !Kills(env(k).late) }

  lemma {:induction false} DeliveredLives(env: nat -> Turn, k: nat)
    requires Lives(env)
    ensures !Kills(Delivered(env, k))
  {
    if k > 0 {
      DeliveredLives(env, k - 1);
      assert !Kills(env(k - 1).early) && !Kills(env(k - 1).late);
    }
  }

  // Then a live stream stays alive.
  lemma LiveEnding(f: Feed, during: seq<Message>, attr: Attribution, t0: int, env: nat -> Turn)
    requires Paced(t0, env) && f.err == None && !Kills(during) && Lives(env)
    ensures !Kills(Heard(f, during, attr, t0, env))
    ensures Taking(HandledAll(Begun(f), during), attr, t0, env).after.err == None
  {
    hide HandledAll, LastTurn, Delivered, Paced;
    var o := HandledAll(Begun(f), during);
    var n := LastTurn(o, attr, t0, env);
    assert !Kills(env(n).early) && !Kills(env(n).late);
    DeliveredLives(env, n);
    DeliveredLives(env, n + 1);
    DiesExactly(Begun(f), during);
    DiesExactly(o, Delivered(env, n) + env(n).early);
    DiesExactly(o, Delivered(env, n + 1));
  }

  class Capture {
    var relations: map<nat, Relation>
    var changes: seq<RowChange>
    var lastCommitLSN: nat
    var windowStart: nat
    var err: Option<string>

    ghost function Now(): Feed
      reads this
    {
      Feed(relations, changes, lastCommitLSN, windowStart, err)
    }

    constructor ()
      ensures Now() == FRESH
    {
      relations, changes, lastCommitLSN, windowStart, err := map[], [], 0, 0, None;
    }

    method DecodeRow(rel: Relation, tuple: seq<Column>) returns (m: Row)
      ensures m == DecodeTuple(rel, tuple)
    {
      m := map[];
      var n := if |tuple| < |rel.columns| then |tuple| else |rel.columns|;
      var i := 0;
      while i < n
        invariant i <= n && m == TupleMap(rel, tuple, i)
      {
        match tuple[i] {
          case NullColumn => m := m[rel.columns[i] := RNull];
          case Decoded(v) => m := m[rel.columns[i] := v];
          case Unchanged =>
        }
        i := i + 1;
      }
    }

    method Record(m: Message)
      requires m.RowMsg?
      modifies this`changes
      ensures changes == old(changes) + Recorded(relations, m)
    {
      if m.id !in relations { return; }
      var rel := relations[m.id];
      var ch := RowChange(rel.namespace + "." + rel.name, m.op, None, None, "");
      if m.before != None {
        var before := DecodeRow(rel, m.before.value);
        ch := ch.(before := Some(before));
      }
      if m.after != None {
        var after := DecodeRow(rel, m.after.value);
        ch := ch.(after := Some(after));
      }
      changes := changes + [ch];
    }

    // One turn of the pump. After an error the pump is gone.
    method HandleWAL(m: Message)
      modifies this
      ensures Now() == Handled(old(Now()), m)
    {
      hide Recorded;
      if err != None { return; }
      match m
      case RelationMsg(id, rel) => relations := relations[id := rel];
      case RowMsg(_, _, _, _) => Record(m);
      case CommitMsg(lsn) => lastCommitLSN := lsn;
      case Broken(reason) => err := Some(reason);
    }

    method HandleAll(ms: seq<Message>)
      modifies this
      ensures Now() == HandledAll(old(Now()), ms)
    {
      var i := 0;
      while i < |ms|
        invariant i <= |ms| && Now() == HandledAll(old(Now()), ms[..i])
      {
        HandleWAL(ms[i]);
        HandledSnoc(old(Now()), ms[..i], ms[i]);
        i := i + 1;
        assert ms[..i] == ms[..i - 1] + [ms[i - 1]];
      }
      assert ms[..i] == ms;
    }

    // What arrived between windows is dropped.
    method BeginWindow()
      modifies this
      ensures Now() == Begun(old(Now()))
    {
      changes := [];
      windowStart := lastCommitLSN;
    }

    // Polls every 20 ms until the stream has died, or for a commit past the opening, or for
    // quietMs without any row, or until the time is up; then hands off the buffer with all
    // that arrived meanwhile.
    method TakeWindow(attr: Attribution, t0: int, env: nat -> Turn)
      returns (r: Outcome, way: Way, polls: nat)
      requires Paced(t0, env)
      modifies this
      ensures Ending(r, way, polls, Now()) == Taking(old(Now()), attr, t0, env)
    {
      var deadline := t0 + attr.timeoutMs;
      polls, way := 0, OnTimeout;
      ghost var f, n := Now(), LastTurn(Now(), attr, t0, env);
      var done := false;
      while !done
        invariant Now() == HandledAll(f, Delivered(env, polls))
        invariant if done then polls == n + 1 else polls <= n
        invariant done ==> Check(AtCheck(f, env, n), attr, t0, env(n).now) == Some(way) && way != OnError
        decreases !done, n + 1 - polls
      {
        hide HandledAll, LastTurn, Paced, Delivered, AtCheck;
        var turn := env(polls);
        HandleAll(turn.early);
        TurnHandled(f, env, polls);
        ghost var c := Now();
        assert c == AtCheck(f, env, polls);
        assert Decided(f, attr, t0, env, polls) <==> Check(c, attr, t0, turn.now) != None;
        polls := polls + 1;
        if err != None {
          return Failed(err.value), OnError, polls;
        }
        if lastCommitLSN > windowStart {
          done, way := true, ByCommit;
        } else if |changes| == 0 && turn.now - t0 >= attr.quietMs {
          done, way := true, ReadOnly;
        } else if turn.now > deadline {
          done, way := true, OnTimeout;
        }
        assert Check(c, attr, t0, turn.now) == if done then Some(way) else None;
        HandleAll(turn.late);
      }
      r := Taken(changes);
      changes := [];
    }
  }
}
