// Many requests, one after the other: what arrives between and during their windows, and
// whom it is charged to.
module Rounds {
  import opened Writesets
  import opened Windows

  // What one request did to a source, and what arrived meanwhile: in the gap before its
  // window, or during it. A request that was never sent opens no window; one whose call or
  // source failed opens a window that is never taken.
  datatype Round<T> =
    | Skipped(gap: seq<T>)
    | Left(gap: seq<T>, arrived: seq<T>)
    | Handed(gap: seq<T>, arrived: seq<T>)

  function All<T>(r: Round<T>): seq<T> { if r.Skipped? then r.gap else r.gap + r.arrived }

  function Steps(r: Round<RowChange>): seq<Step> {
    match r
    case Skipped(gap) => [Append(gap)]
    case Left(gap, cs) => [Append(gap), Begin, Append(cs)]
    case Handed(gap, cs) => [Append(gap), Begin, Append(cs), Take]
  }

  function AllSteps(rs: seq<Round<RowChange>>): seq<Step> {
    if rs == [] then [] else AllSteps(rs[..|rs| - 1]) + Steps(rs[|rs| - 1])
  }

  // The state after one round, outright.
  function Settled(src: Source, s: Log, r: Round<RowChange>): Log {
    var before := s.buffer + r.gap;
    var kept := if src.Postgres? then [] else before;
    match r
    case Skipped(_) => Log(before, s.taken)
    case Left(_, cs) => Log(kept + cs, s.taken)
    case Handed(_, cs) => Log([], s.taken + [kept + cs])
  }

  lemma RoundSettles(src: Source, s: Log, r: Round<RowChange>)
    ensures Continue(src, s, Steps(r)) == Settled(src, s, r)
  {
    hide Continue;
    var gap := [Append(r.gap)];
    assert gap == [] + gap;
    ContinueNone(src, s);
    ContinueSnoc(src, s, [], Append(r.gap));
    if !r.Skipped? {
      var opening := gap + [Begin];
      var filled := opening + [Append(r.arrived)];
      ContinueSnoc(src, s, gap, Begin);
      ContinueSnoc(src, s, opening, Append(r.arrived));
      ContinueSnoc(src, s, filled, Take);
      assert r.Left? ==> Steps(r) == filled;
      assert r.Handed? ==> Steps(r) == filled + [Take];
    }
  }

  lemma RoundsSnoc(src: Source, s: Log, rs: seq<Round<RowChange>>, r: Round<RowChange>)
    ensures Continue(src, s, AllSteps(rs + [r])) == Settled(src, Continue(src, s, AllSteps(rs)), r)
  {
    assert (rs + [r])[..|rs + [r]| - 1] == rs;
    ContinueConcat(src, s, AllSteps(rs), Steps(r));
    RoundSettles(src, Continue(src, s, AllSteps(rs)), r);
  }

  // ----- whose changes they are ------------------------------------------------------------

  function UntagRound(r: Round<Tagged>): Round<RowChange> {
    match r
    case Skipped(gap) => Skipped(Untag(gap))
    case Left(gap, ts) => Left(Untag(gap), Untag(ts))
    case Handed(gap, ts) => Handed(Untag(gap), Untag(ts))
  }

  function UntagRounds(rs: seq<Round<Tagged>>): (bs: seq<Round<RowChange>>)
    ensures |bs| == |rs|
  {
    seq(|rs|, i requires 0 <= i < |rs| => UntagRound(rs[i]))
  }

  // Everything that arrived in the rounds from lo on and before hi.
  function Arrivals(rs: seq<Round<Tagged>>, lo: nat, hi: nat): seq<Tagged>
    requires hi <= |rs|
  {
    if hi <= lo then [] else Arrivals(rs, lo, hi - 1) + All(rs[hi - 1])
  }

  function History(rs: seq<Round<Tagged>>): seq<Tagged> { Arrivals(rs, 0, |rs|) }

  // The round after the last hand-off before round i.
  function Since(rs: seq<Round<Tagged>>, i: nat): (p: nat)
    requires i <= |rs|
    ensures p <= i
  {
    if i == 0 then 0 else if rs[i - 1].Handed? then i else Since(rs, i - 1)
  }

  // What round i is handed, if it is.
  function Window(src: Source, rs: seq<Round<Tagged>>, i: nat): seq<Tagged>
    requires i < |rs| && rs[i].Handed?
  {
    if src.Postgres? then rs[i].arrived else Arrivals(rs, Since(rs, i), i + 1)
  }

  // The hand-offs of the rounds before n.
  function HandOffs(src: Source, rs: seq<Round<Tagged>>, n: nat): seq<seq<RowChange>>
    requires n <= |rs|
  {
    if n == 0 then []
    else HandOffs(src, rs, n - 1) + (if rs[n - 1].Handed? then [Untag(Window(src, rs, n - 1))] else [])
  }

  lemma UntagConcat(x: seq<Tagged>, y: seq<Tagged>)
    ensures Untag(x + y) == Untag(x) + Untag(y)
  {
  }

  // One more round: what a source holds and hands off then.
  lemma NextWindow(src: Source, rs: seq<Round<Tagged>>, n: nat)
    requires n < |rs|
    ensures var r, held := rs[n], Untag(Arrivals(rs, Since(rs, n), n));
            && Untag(Arrivals(rs, Since(rs, n + 1), n + 1)) == (if r.Handed? then [] else held + Untag(All(r)))
            && (r.Handed? ==>
                  Untag(Window(src, rs, n)) == if src.Postgres? then Untag(r.arrived) else held + Untag(All(r)))
  {
    UntagConcat(Arrivals(rs, Since(rs, n), n), All(rs[n]));
    UntagEmpty();
  }

  // The source has handed off these windows, in order, and holds what came since.
  ghost predicate HandedOff(src: Source, s: Log, rs: seq<Round<Tagged>>, n: nat)
    requires n <= |rs|
  {
    s.taken == HandOffs(src, rs, n) && (src.Binlog? ==> s.buffer == Untag(Arrivals(rs, Since(rs, n), n)))
  }

  lemma HandOffStep(src: Source, s: Log, rs: seq<Round<Tagged>>, n: nat)
    requires n < |rs| && HandedOff(src, s, rs, n)
    ensures HandedOff(src, Settled(src, s, UntagRound(rs[n])), rs, n + 1)
  {
    hide Untag, Arrivals, Since, Window, Settled, All;
    NextWindow(src, rs, n);
    SettledUntagged(src, s, rs[n], Untag(Arrivals(rs, Since(rs, n), n)));
  }

  lemma UntagStep(rs: seq<Round<Tagged>>, n: nat)
    requires n < |rs|
    ensures UntagRounds(rs)[..n + 1] == UntagRounds(rs)[..n] + [UntagRound(rs[n])]
  {
    hide UntagRound;
  }

  lemma NothingHandedOff(src: Source, rs: seq<Round<Tagged>>)
    ensures UntagRounds(rs)[..0] == [] && HandedOff(src, Continue(src, Log([], []), AllSteps([])), rs, 0)
  {
    hide UntagRound;
    UntagEmpty();
  }

  lemma {:induction false} RoundsHandOff(src: Source, rs: seq<Round<Tagged>>, n: nat)
    requires n <= |rs|
    ensures HandedOff(src, Continue(src, Log([], []), AllSteps(UntagRounds(rs)[..n])), rs, n)
  {
    hide Continue, AllSteps, HandedOff, Settled, UntagRounds, UntagRound;
    if n > 0 {
      var rest := UntagRounds(rs)[..n - 1];
      RoundsHandOff(src, rs, n - 1);
      UntagStep(rs, n - 1);
      RoundsSnoc(src, Log([], []), rest, UntagRound(rs[n - 1]));
      HandOffStep(src, Continue(src, Log([], []), AllSteps(rest)), rs, n - 1);
    } else {
      NothingHandedOff(src, rs);
    }
  }

  // What one round makes of a source that holds this buffer.
  lemma SettledUntagged(src: Source, s: Log, r: Round<Tagged>, held: seq<RowChange>)
    requires src.Binlog? ==> s.buffer == held
    ensures var t := Settled(src, s, UntagRound(r));
            && (r.Handed? ==> t.taken == s.taken + [if src.Postgres? then Untag(r.arrived) else held + Untag(All(r))])
            && (!r.Handed? ==> t.taken == s.taken)
            && (src.Binlog? ==> t.buffer == if r.Handed? then [] else held + Untag(All(r)))
  {
    hide Untag;
    if !r.Skipped? {
      UntagConcat(r.gap, r.arrived);
      assert held + Untag(r.gap) + Untag(r.arrived) == held + (Untag(r.gap) + Untag(r.arrived));
      assert [] + Untag(r.arrived) == Untag(r.arrived);
    }
  }

  lemma UntagEmpty()
    ensures Untag([]) == []
  {
  }

  // The changes of request h.
  ghost function OwnOf(h: nat, ts: seq<Tagged>): seq<Tagged> {
    if ts == [] then [] else OwnOf(h, ts[..|ts| - 1]) + (if ts[|ts| - 1].owner == h then [ts[|ts| - 1]] else [])
  }

  lemma {:induction false} OwnConcat(h: nat, x: seq<Tagged>, y: seq<Tagged>)
    ensures OwnOf(h, x + y) == OwnOf(h, x) + OwnOf(h, y)
  {
    if y == [] {
      assert x + y == x;
    } else {
      assert (x + y)[..|x + y| - 1] == x + y[..|y| - 1];
      OwnConcat(h, x, y[..|y| - 1]);
    }
  }

  lemma {:induction false} OwnMembers(h: nat, ts: seq<Tagged>, t: Tagged)
    ensures t in OwnOf(h, ts) <==> t in ts && t.owner == h
  {
    if ts != [] {
      var front, last := ts[..|ts| - 1], ts[|ts| - 1];
      OwnMembers(h, front, t);
      assert ts == front + [last];
    }
  }

  lemma {:induction false} OwnAll(h: nat, ts: seq<Tagged>)
    requires forall t :: t in ts ==> t.owner == h
    ensures OwnOf(h, ts) == ts
  {
    if ts != [] {
      OwnAll(h, ts[..|ts| - 1]);
      assert ts[|ts| - 1] in ts;
    }
  }

  lemma {:induction false} OwnNone(h: nat, ts: seq<Tagged>)
    ensures OwnOf(h, ts) == [] <==> forall t :: t in ts ==> t.owner != h
  {
    if ts != [] {
      OwnNone(h, ts[..|ts| - 1]);
      assert ts == ts[..|ts| - 1] + [ts[|ts| - 1]];
    }
  }

  // A slice is all that h owns exactly if h owns all of it and nothing around it.
  lemma SliceOwn(a: seq<Tagged>, w: seq<Tagged>, c: seq<Tagged>, h: nat)
    ensures w == OwnOf(h, a + w + c)
      <==> (forall t :: t in w ==> t.owner == h) && (forall t :: t in a || t in c ==> t.owner != h)
  {
    hide OwnOf;
    var all := a + w + c;
    OwnConcat(h, a + w, c);
    OwnConcat(h, a, w);
    OwnNone(h, a);
    OwnNone(h, c);
    if w == OwnOf(h, all) {
      forall t | t in w ensures t.owner == h { OwnMembers(h, all, t); }
      OwnAll(h, w);
      assert |OwnOf(h, all)| == |OwnOf(h, a)| + |w| + |OwnOf(h, c)|;
    } else if forall t :: t in w ==> t.owner == h {
      OwnAll(h, w);
      assert OwnOf(h, a) == [] && OwnOf(h, c) == [] ==> OwnOf(h, all) == w;
    }
  }

  // ----- when each request is charged with exactly its own ------------------------------------

  // x arrives in round j, in its window or in the gap before it.
  ghost predicate Arrives(rs: seq<Round<Tagged>>, j: nat, inWindow: bool, x: Tagged) {
    j < |rs| && if inWindow then !rs[j].Skipped? && x in rs[j].arrived else x in rs[j].gap
  }

  // That place lies in the interval of round i: for the binlog, after the previous hand-off
  // and before its own; for PostgreSQL, between its opening and its hand-off.
  ghost predicate InInterval(src: Source, rs: seq<Round<Tagged>>, j: nat, inWindow: bool, i: nat)
    requires i < |rs|
  {
    if src.Postgres? then j == i && inWindow
    else j <= i && forall k :: j <= k < i ==> !rs[k].Handed?
  }

  // Every change arrives in the interval of the request that caused it, and in no other.
  ghost predicate InPlace(src: Source, rs: seq<Round<Tagged>>, i: nat)
    requires i < |rs|
  {
    forall j, inWindow, x :: Arrives(rs, j, inWindow, x) ==> (x.owner == i <==> InInterval(src, rs, j, inWindow, i))
  }

  lemma {:induction false} ArrivalsSplit(rs: seq<Round<Tagged>>, lo: nat, mid: nat, hi: nat)
    requires lo <= mid <= hi <= |rs|
    ensures Arrivals(rs, lo, hi) == Arrivals(rs, lo, mid) + Arrivals(rs, mid, hi)
  {
    hide All;
    if mid < hi {
      var x, y, z := Arrivals(rs, lo, mid), Arrivals(rs, mid, hi - 1), All(rs[hi - 1]);
      ArrivalsSplit(rs, lo, mid, hi - 1);
      assert x + y + z == x + (y + z);
    } else {
      assert Arrivals(rs, mid, hi) == [];
    }
  }

  lemma AllArrives(rs: seq<Round<Tagged>>, j: nat, x: Tagged)
    requires j < |rs|
    ensures x in All(rs[j]) <==> Arrives(rs, j, false, x) || Arrives(rs, j, true, x)
  {
  }

  lemma {:induction false} ArrivalsMember(rs: seq<Round<Tagged>>, lo: nat, hi: nat, x: Tagged)
    requires hi <= |rs|
    ensures x in Arrivals(rs, lo, hi) <==> exists j, inWindow :: lo <= j < hi && Arrives(rs, j, inWindow, x)
  {
    hide All, Arrives;
    if lo < hi {
      ArrivalsMember(rs, lo, hi - 1, x);
      AllArrives(rs, hi - 1, x);
      assert Arrivals(rs, lo, hi) == Arrivals(rs, lo, hi - 1) + All(rs[hi - 1]);
    }
  }

  lemma {:induction false} SinceExact(rs: seq<Round<Tagged>>, i: nat, j: nat)
    requires j <= i <= |rs|
    ensures Since(rs, i) <= j <==> forall k :: j <= k < i ==> !rs[k].Handed?
  {
    if i > j && !rs[i - 1].Handed? { SinceExact(rs, i - 1, j); }
  }

  // The history around the window of round i.
  lemma AroundWindow(src: Source, rs: seq<Round<Tagged>>, i: nat) returns (a: seq<Tagged>, c: seq<Tagged>)
    requires i < |rs| && rs[i].Handed?
    ensures History(rs) == a + Window(src, rs, i) + c
    ensures forall x :: x in Window(src, rs, i) <==>
              exists j, w :: Arrives(rs, j, w, x) && InInterval(src, rs, j, w, i)
    ensures forall x :: x in a || x in c <==>
              exists j, w :: Arrives(rs, j, w, x) && !InInterval(src, rs, j, w, i)
  {
    hide All;
    var n, p := |rs|, Since(rs, i);
    ArrivalsSplit(rs, 0, i + 1, n);
    c := Arrivals(rs, i + 1, n);
    if src.Postgres? {
      a := Arrivals(rs, 0, i) + rs[i].gap;
      AroundPostgres(rs, i, a, c);
    } else {
      a := Arrivals(rs, 0, p);
      ArrivalsSplit(rs, 0, p, i + 1);
      AroundBinlog(rs, i, a, c);
    }
  }

  lemma AroundPostgres(rs: seq<Round<Tagged>>, i: nat, a: seq<Tagged>, c: seq<Tagged>)
    requires i < |rs| && rs[i].Handed?
    requires a == Arrivals(rs, 0, i) + rs[i].gap && c == Arrivals(rs, i + 1, |rs|)
    ensures Arrivals(rs, 0, i + 1) == a + Window(Postgres, rs, i)
    ensures forall x :: x in Window(Postgres, rs, i) <==>
              exists j, w :: Arrives(rs, j, w, x) && InInterval(Postgres, rs, j, w, i)
    ensures forall x :: x in a || x in c <==>
              exists j, w :: Arrives(rs, j, w, x) && !InInterval(Postgres, rs, j, w, i)
  {
    forall x
      ensures x in Window(Postgres, rs, i) <==> Arrives(rs, i, true, x)
      ensures x in a || x in c <==> exists j, w :: Arrives(rs, j, w, x) && !InInterval(Postgres, rs, j, w, i)
    {
      ArrivalsMember(rs, 0, i, x);
      ArrivalsMember(rs, i + 1, |rs|, x);
      assert x in rs[i].gap <==> Arrives(rs, i, false, x);
      assert forall j: nat, w :: Arrives(rs, j, w, x) ==> j < |rs|;
      hide Arrives, Arrivals, All;
    }
  }

  lemma AroundBinlog(rs: seq<Round<Tagged>>, i: nat, a: seq<Tagged>, c: seq<Tagged>)
    requires i < |rs| && rs[i].Handed?
    requires a == Arrivals(rs, 0, Since(rs, i)) && c == Arrivals(rs, i + 1, |rs|)
    ensures forall x :: x in Window(Binlog, rs, i) <==>
              exists j, w :: Arrives(rs, j, w, x) && InInterval(Binlog, rs, j, w, i)
    ensures forall x :: x in a || x in c <==>
              exists j, w :: Arrives(rs, j, w, x) && !InInterval(Binlog, rs, j, w, i)
  {
    forall x
      ensures x in Window(Binlog, rs, i) <==> exists j, w :: Arrives(rs, j, w, x) && InInterval(Binlog, rs, j, w, i)
      ensures x in a || x in c <==> exists j, w :: Arrives(rs, j, w, x) && !InInterval(Binlog, rs, j, w, i)
    {
      InBinlogWindow(rs, i, Since(rs, i), x);
    }
  }

  lemma IntervalFrom(rs: seq<Round<Tagged>>, i: nat, j: nat, w: bool)
    requires i < |rs|
    ensures InInterval(Binlog, rs, j, w, i) <==> Since(rs, i) <= j <= i
  {
    if j <= i { SinceExact(rs, i, j); }
  }

  lemma InBinlogWindow(rs: seq<Round<Tagged>>, i: nat, p: nat, x: Tagged)
    requires i < |rs| && p == Since(rs, i)
    ensures x in Arrivals(rs, p, i + 1) <==>
              exists j, w :: Arrives(rs, j, w, x) && InInterval(Binlog, rs, j, w, i)
    ensures x in Arrivals(rs, 0, p) || x in Arrivals(rs, i + 1, |rs|) <==>
              exists j, w :: Arrives(rs, j, w, x) && !InInterval(Binlog, rs, j, w, i)
  {
    hide Arrivals;
    ArrivalsMember(rs, 0, p, x);
    ArrivalsMember(rs, p, i + 1, x);
    ArrivalsMember(rs, i + 1, |rs|, x);
    forall j: nat, w ensures InInterval(Binlog, rs, j, w, i) <==> p <= j <= i { IntervalFrom(rs, i, j, w); }
    assert forall j: nat, w :: Arrives(rs, j, w, x) ==> j < |rs|;
    hide InInterval, Arrives, Since;
  }

  // Whatever arrives whenever: a request that gets a window is charged with exactly its own
  // changes if and only if everything that arrives in its interval is its own, and nothing
  // of its own arrives elsewhere.
  lemma ChargedExactly(src: Source, rs: seq<Round<Tagged>>, i: nat)
    requires i < |rs| && rs[i].Handed?
    ensures Window(src, rs, i) == OwnOf(i, History(rs)) <==> InPlace(src, rs, i)
  {
    hide Window, History, InInterval, Arrives, OwnOf;
    var a, c := AroundWindow(src, rs, i);
    SliceOwn(a, Window(src, rs, i), c, i);
  }
}
