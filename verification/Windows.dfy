// Attribution windows over a shared change buffer: a pump appends, requests open a window
// and take what the buffer holds. The two sources differ only in what opening does.
module Windows {
  import opened Writesets

  // A row change with the request that caused it. No source can see the owner.
  datatype Tagged = Tagged(owner: nat, change: RowChange)

  function Untag(ts: seq<Tagged>): seq<RowChange> { seq(|ts|, i requires 0 <= i < |ts| => ts[i].change) }

  datatype Step = Append(changes: seq<RowChange>) | Begin | Take

  // The buffer, and the windows handed off so far.
  datatype Log = Log(buffer: seq<RowChange>, taken: seq<seq<RowChange>>)

  datatype Source = Binlog | Postgres

  function Next(src: Source, s: Log, a: Step): Log {
    match a
    case Append(cs) => s.(buffer := s.buffer + cs)
    case Begin => if src.Postgres? then s.(buffer := []) else s
    case Take => Log([], s.taken + [s.buffer])
  }

  function Run(src: Source, steps: seq<Step>): Log {
    if |steps| == 0 then Log([], [])
    else
      var n := |steps| - 1;
      Next(src, Run(src, steps[..n]), steps[n])
  }

  lemma AppendTwice(src: Source, s: Log, x: seq<RowChange>, y: seq<RowChange>)
    ensures Next(src, Next(src, s, Append(x)), Append(y)) == Next(src, s, Append(x + y))
  {
    assert s.buffer + x + y == s.buffer + (x + y);
  }

  // The same from any state on.
  function Continue(src: Source, s: Log, steps: seq<Step>): Log {
    if |steps| == 0 then s
    else
      var n := |steps| - 1;
      Next(src, Continue(src, s, steps[..n]), steps[n])
  }

  lemma ContinueNone(src: Source, s: Log)
    ensures Continue(src, s, []) == s
  {
  }

  lemma ContinueSnoc(src: Source, s: Log, steps: seq<Step>, a: Step)
    ensures Continue(src, s, steps + [a]) == Next(src, Continue(src, s, steps), a)
  {
    assert (steps + [a])[..|steps + [a]| - 1] == steps;
  }

  lemma {:induction false} ContinueConcat(src: Source, s: Log, x: seq<Step>, y: seq<Step>)
    ensures Continue(src, s, x + y) == Continue(src, Continue(src, s, x), y)
  {
    if |y| == 0 {
      assert x + y == x;
    } else {
      var n := |y| - 1;
      assert x + y == x + y[..n] + [y[n]];
      ContinueSnoc(src, s, x + y[..n], y[n]);
      ContinueConcat(src, s, x, y[..n]);
    }
  }

  lemma {:induction false} RunIsContinue(src: Source, steps: seq<Step>)
    ensures Run(src, steps) == Continue(src, Log([], []), steps)
  {
    if |steps| > 0 { RunIsContinue(src, steps[..|steps| - 1]); }
  }

  function Appended(steps: seq<Step>): seq<RowChange> {
    if steps == [] then []
    else Appended(steps[..|steps| - 1]) + (if steps[|steps| - 1].Append? then steps[|steps| - 1].changes else [])
  }

  function Flatten(ws: seq<seq<RowChange>>): seq<RowChange> {
    if ws == [] then [] else Flatten(ws[..|ws| - 1]) + ws[|ws| - 1]
  }

  ghost predicate OnlyAppends(steps: seq<Step>) { forall s :: s in steps ==> s.Append? }

  ghost predicate NoTake(steps: seq<Step>) { forall s :: s in steps ==> !s.Take? }

  lemma RunSnoc(src: Source, steps: seq<Step>, a: Step)
    ensures Run(src, steps + [a]) == Next(src, Run(src, steps), a)
  {
    assert (steps + [a])[..|steps + [a]| - 1] == steps;
  }

  lemma AppendedSnoc(steps: seq<Step>, a: Step)
    ensures Appended(steps + [a]) == Appended(steps) + (if a.Append? then a.changes else [])
  {
    assert (steps + [a])[..|steps + [a]| - 1] == steps;
  }

  lemma {:induction false} AppendedConcat(x: seq<Step>, y: seq<Step>)
    ensures Appended(x + y) == Appended(x) + Appended(y)
  {
    if y == [] {
      assert x + y == x;
    } else {
      var n := |y| - 1;
      assert (x + y)[..|x + y| - 1] == x + y[..n];
      AppendedConcat(x, y[..n]);
    }
  }

  lemma FlattenSnoc(ws: seq<seq<RowChange>>, w: seq<RowChange>)
    ensures Flatten(ws + [w]) == Flatten(ws) + w
  {
    assert (ws + [w])[..|ws + [w]| - 1] == ws;
  }

  // The binlog source loses and repeats nothing: the windows taken so far followed by the
  // buffer are all changes ever appended, in order.
  lemma {:induction false} Conservation(steps: seq<Step>)
    ensures Flatten(Run(Binlog, steps).taken) + Run(Binlog, steps).buffer == Appended(steps)
  {
    if steps != [] {
      var before := Run(Binlog, steps[..|steps| - 1]);
      Conservation(steps[..|steps| - 1]);
      FlattenSnoc(before.taken, before.buffer);
    }
  }

  // Between two hand-offs the binlog buffer only grows.
  lemma {:induction false} BinlogNoTake(p: seq<Step>, mid: seq<Step>)
    requires NoTake(mid)
    ensures Run(Binlog, p + mid) == Log(Run(Binlog, p).buffer + Appended(mid), Run(Binlog, p).taken)
  {
    if |mid| == 0 {
      assert p + mid == p;
    } else {
      var n := |mid| - 1;
      hide Run, Appended;
      var before, a := mid[..n], mid[n];
      assert a in mid && mid == before + [a];
      BinlogNoTake(p, before);
      StepAfter(Binlog, p, before, a);
      AppendedSnoc(before, a);
    }
  }

  lemma StepAfter(src: Source, p: seq<Step>, before: seq<Step>, a: Step)
    ensures Run(src, p + (before + [a])) == Next(src, Run(src, p + before), a)
  {
    assert p + (before + [a]) == (p + before) + [a];
    RunSnoc(src, p + before, a);
  }

  lemma AfterTake(src: Source, p: seq<Step>)
    requires p == [] || p[|p| - 1].Take?
    ensures Run(src, p).buffer == []
  {
  }

  // Each change goes to the first hand-off after it arrived: a window is exactly what was
  // appended since the previous hand-off, windows opened or not.
  lemma FirstHandOff(p: seq<Step>, mid: seq<Step>)
    requires NoTake(mid) && (p == [] || p[|p| - 1].Take?)
    ensures Run(Binlog, p + mid + [Take]) == Log([], Run(Binlog, p).taken + [Appended(mid)])
  {
    AfterTake(Binlog, p);
    BinlogNoTake(p, mid);
    assert [] + Appended(mid) == Appended(mid);
    RunSnoc(Binlog, p + mid, Take);
  }

  lemma {:induction false} OnlyAppendsRun(src: Source, p: seq<Step>, post: seq<Step>)
    requires OnlyAppends(post)
    ensures Run(src, p + post) == Log(Run(src, p).buffer + Appended(post), Run(src, p).taken)
  {
    if |post| == 0 {
      assert p + post == p;
    } else {
      var n := |post| - 1;
      hide Run, Appended;
      var before, a := post[..n], post[n];
      assert a in post && post == before + [a];
      OnlyAppendsRun(src, p, before);
      StepAfter(src, p, before, a);
      AppendedSnoc(before, a);
    }
  }

  lemma PostgresOpened(p: seq<Step>, post: seq<Step>)
    requires OnlyAppends(post)
    ensures Run(Postgres, p + [Begin] + post) == Log(Appended(post), Run(Postgres, p).taken)
  {
    var begun := p + [Begin];
    assert Run(Postgres, begun) == Log([], Run(Postgres, p).taken) by { RunSnoc(Postgres, p, Begin); }
    OnlyAppendsRun(Postgres, begun, post);
  }

  // A PostgreSQL window is what was appended since it was opened.
  lemma PostgresWindow(p: seq<Step>, post: seq<Step>)
    requires OnlyAppends(post)
    ensures Run(Postgres, p + [Begin] + post + [Take]) == Log([], Run(Postgres, p).taken + [Appended(post)])
  {
    PostgresOpened(p, post);
    RunSnoc(Postgres, p + [Begin] + post, Take);
  }

  ghost predicate SuffixOf(x: seq<RowChange>, y: seq<RowChange>) { |x| <= |y| && x == y[|y| - |x|..] }

  // Under one schedule, what the PostgreSQL source holds or hands off is always a suffix of
  // what the binlog source holds or hands off.
  lemma {:induction false} PostgresRefines(steps: seq<Step>)
    ensures SuffixOf(Run(Postgres, steps).buffer, Run(Binlog, steps).buffer)
    ensures |Run(Postgres, steps).taken| == |Run(Binlog, steps).taken|
    ensures forall i :: 0 <= i < |Run(Binlog, steps).taken| ==>
              SuffixOf(Run(Postgres, steps).taken[i], Run(Binlog, steps).taken[i])
  {
    if steps != [] { PostgresRefines(steps[..|steps| - 1]); }
  }

  // The two hand off the same window exactly when nothing arrived between the previous
  // hand-off and the opening.
  lemma SourcesAgree(p: seq<Step>, pre: seq<Step>, post: seq<Step>)
    requires (p == [] || p[|p| - 1].Take?) && NoTake(pre) && OnlyAppends(post)
    ensures var all := p + pre + [Begin] + post + [Take];
            var b, g := Run(Binlog, all).taken, Run(Postgres, all).taken;
            b != [] && g != [] && (b[|b| - 1] == g[|g| - 1] <==> Appended(pre) == [])
  {
    hide Run, Appended;
    var mid := pre + [Begin] + post;
    assert p + pre + [Begin] + post + [Take] == p + mid + [Take];
    FirstHandOff(p, mid);
    PostgresWindow(p + pre, post);
    AppendedAround(pre, post);
    assert Appended(pre) + Appended(post) == Appended(post) <==> |Appended(pre)| == 0;
  }

  lemma AppendedAround(pre: seq<Step>, post: seq<Step>)
    ensures Appended(pre + [Begin] + post) == Appended(pre) + Appended(post)
  {
    AppendedConcat(pre + [Begin], post);
    AppendedSnoc(pre, Begin);
  }

  // A request whose HTTP call fails opens a window and never takes it. Its changes then
  // stay in the binlog buffer and are charged to the next request; the PostgreSQL source
  // drops them.
  lemma FailedCallLeaks(p: seq<Step>, failed: seq<Step>, next: seq<Step>)
    requires (p == [] || p[|p| - 1].Take?) && OnlyAppends(failed) && OnlyAppends(next)
    ensures var all := p + [Begin] + failed + [Begin] + next + [Take];
            && Run(Binlog, all).taken == Run(Binlog, p).taken + [Appended(failed) + Appended(next)]
            && Run(Postgres, all).taken == Run(Postgres, p).taken + [Appended(next)]
  {
    var mid := [Begin] + failed + [Begin] + next;
    assert p + [Begin] + failed + [Begin] + next + [Take] == p + mid + [Take];
    FirstHandOff(p, mid);
    AppendedTwice(failed, next);
    PostgresWindow(p + [Begin] + failed, next);
    PostgresOpened(p, failed);
  }

  lemma AppendedTwice(failed: seq<Step>, next: seq<Step>)
    ensures Appended([Begin] + failed + [Begin] + next) == Appended(failed) + Appended(next)
  {
    var x := [Begin] + failed;
    AppendedConcat(x + [Begin], next);
    AppendedSnoc(x, Begin);
    BeginFirst(failed);
  }

  lemma BeginFirst(y: seq<Step>)
    ensures Appended([Begin] + y) == Appended(y)
  {
    AppendedConcat([Begin], y);
    AppendedSnoc([], Begin);
    assert [] + [Begin] == [Begin] && [] + Appended(y) == Appended(y);
  }
}
