// Passive capture: connection keys, and pairing requests with responses first in, first
// out, as section 9.3.2 of RFC 9112 orders pipelined responses.
module Sniff {
  import opened Strings
  import opened Values

  // ----- connection keys ------------------------------------------------------------------

  // One direction of a TCP connection. Addresses are in their text form.
  datatype Flow = Flow(srcAddr: string, dstAddr: string, srcPort: nat, dstPort: nat)

  function Reverse(f: Flow): Flow { Flow(f.dstAddr, f.srcAddr, f.dstPort, f.srcPort) }

  predicate IsRequest(f: Flow, port: nat) { NatText(f.dstPort) == NatText(port) }

  function FlowText(f: Flow): string {
    f.srcAddr + ("->" + (f.dstAddr + ("|" + (NatText(f.srcPort) + ("->" + NatText(f.dstPort))))))
  }

  // Always from the client's side.
  function ConnKey(f: Flow, port: nat): string { if IsRequest(f, port) then FlowText(f) else FlowText(Reverse(f)) }

  // Text forms of IP addresses.
  ghost predicate AddrChar(c: char) { IsDigit(c) || 'a' <= c <= 'f' || c == '.' || c == ':' }

  ghost predicate Addresses(f: Flow) { All(f.srcAddr, AddrChar) && All(f.dstAddr, AddrChar) }

  // Packets the pipeline looks at: one end is the service port.
  ghost predicate OnPort(f: Flow, port: nat) { f.srcPort == port || f.dstPort == port }

  lemma FlowTextInjective(f: Flow, g: Flow)
    requires Addresses(f) && Addresses(g) && FlowText(f) == FlowText(g)
    ensures f == g
  {
    var pf, pg := NatText(f.srcPort) + ("->" + NatText(f.dstPort)), NatText(g.srcPort) + ("->" + NatText(g.dstPort));
    var df, dg := f.dstAddr + ("|" + pf), g.dstAddr + ("|" + pg);
    TokenUnique(f.srcAddr, "->" + df, g.srcAddr, "->" + dg, AddrChar);
    DropPrefix("->", df, "->", dg);
    TokenUnique(f.dstAddr, "|" + pf, g.dstAddr, "|" + pg, AddrChar);
    DropPrefix("|", pf, "|", pg);
    NatTextDigits(f.srcPort);
    NatTextDigits(g.srcPort);
    TokenUnique(NatText(f.srcPort), "->" + NatText(f.dstPort), NatText(g.srcPort), "->" + NatText(g.dstPort), IsDigit);
    DropPrefix("->", NatText(f.dstPort), "->", NatText(g.dstPort));
    NatTextInjective(f.srcPort, g.srcPort);
    NatTextInjective(f.dstPort, g.dstPort);
  }

  lemma IsRequestExact(f: Flow, port: nat)
    ensures IsRequest(f, port) <==> f.dstPort == port
  {
    if IsRequest(f, port) { NatTextInjective(f.dstPort, port); }
  }

  // Both directions of a connection map to one key exactly unless both ends use the service
  // port (at different addresses), and no other connection maps to it.
  lemma ConnKeyExact(f: Flow, g: Flow, port: nat)
    requires Addresses(f) && Addresses(g) && OnPort(f, port) && OnPort(g, port)
    ensures ConnKey(f, port) == ConnKey(Reverse(f), port) <==> f.srcPort != f.dstPort || f.srcAddr == f.dstAddr
    ensures ConnKey(f, port) == ConnKey(g, port) ==> g == f || g == Reverse(f)
  {
    IsRequestExact(f, port);
    IsRequestExact(g, port);
    IsRequestExact(Reverse(f), port);
    if ConnKey(f, port) == ConnKey(Reverse(f), port) && f.srcPort == f.dstPort { FlowTextInjective(f, Reverse(f)); }
    if ConnKey(f, port) == ConnKey(g, port) {
      var cf, cg := if IsRequest(f, port) then f else Reverse(f), if IsRequest(g, port) then g else Reverse(g);
      FlowTextInjective(cf, cg);
    }
  }

  // The key is written from the client's side: its address first, and the ports likewise.
  lemma ConnKeyText(f: Flow, port: nat)
    ensures f.dstPort == port ==>
              ConnKey(f, port) == f.srcAddr + "->" + f.dstAddr + "|" + NatText(f.srcPort) + "->" + NatText(f.dstPort)
    ensures f.dstPort != port ==>
              ConnKey(f, port) == f.dstAddr + "->" + f.srcAddr + "|" + NatText(f.dstPort) + "->" + NatText(f.srcPort)
  {
    IsRequestExact(f, port);
    hide NatText;
  }

  // ----- pairing ------------------------------------------------------------------------------

  datatype Request = Request(ts: int, verb: string, path: string, headers: map<string, string>, body: Value)
  datatype Response = Response(status: int, body: string)
  datatype Exchange = Exchange(request: Request, response: Response)

  datatype Arrival = Asked(key: string, request: Request) | Answered(key: string, response: Response)

  datatype Conn = Conn(requests: seq<Request>, responses: seq<Response>)

  const EMPTY := Conn([], [])

  function Zip(qs: seq<Request>, rs: seq<Response>): seq<Exchange> {
    seq(if |qs| < |rs| then |qs| else |rs|, i requires 0 <= i < |qs| && i < |rs| => Exchange(qs[i], rs[i]))
  }

  // The exchanges a connection completes, and what stays queued.
  function Settle(c: Conn): (seq<Exchange>, Conn) {
    var n := if |c.requests| < |c.responses| then |c.requests| else |c.responses|;
    (Zip(c.requests, c.responses), Conn(c.requests[n..], c.responses[n..]))
  }

  function Asks(key: string, arrivals: seq<Arrival>): seq<Request> {
    if arrivals == [] then []
    else
      var last := arrivals[|arrivals| - 1];
      Asks(key, arrivals[..|arrivals| - 1]) + (if last.Asked? && last.key == key then [last.request] else [])
  }

  function Answers(key: string, arrivals: seq<Arrival>): seq<Response> {
    if arrivals == [] then []
    else
      var last := arrivals[|arrivals| - 1];
      Answers(key, arrivals[..|arrivals| - 1]) + (if last.Answered? && last.key == key then [last.response] else [])
  }

  // The exchanges the sink got from one connection.
  function From(key: string, out: seq<(string, Exchange)>): seq<Exchange> {
    if out == [] then []
    else From(key, out[..|out| - 1]) + (if out[|out| - 1].0 == key then [out[|out| - 1].1] else [])
  }

  function Tag(key: string, xs: seq<Exchange>): seq<(string, Exchange)> {
    seq(|xs|, i requires 0 <= i < |xs| => (key, xs[i]))
  }

  lemma {:induction false} FromConcat(key: string, x: seq<(string, Exchange)>, y: seq<(string, Exchange)>)
    ensures From(key, x + y) == From(key, x) + From(key, y)
  {
    if y == [] {
      assert x + y == x;
    } else {
      assert (x + y)[..|x + y| - 1] == x + y[..|y| - 1];
      FromConcat(key, x, y[..|y| - 1]);
    }
  }

  lemma {:induction false} FromTag(key: string, k: string, xs: seq<Exchange>)
    ensures From(key, Tag(k, xs)) == if k == key then xs else []
  {
    if xs != [] {
      var n := |xs| - 1;
      assert Tag(k, xs)[..n] == Tag(k, xs[..n]);
      FromTag(key, k, xs[..n]);
    }
  }

  function At(conns: map<string, Conn>, key: string): Conn { if key in conns then conns[key] else EMPTY }

  function Enqueue(c: Conn, a: Arrival): Conn {
    match a
    case Asked(_, q) => c.(requests := c.requests + [q])
    case Answered(_, r) => c.(responses := c.responses + [r])
  }

  // The queues of all connections, and what the sink received.
  datatype State = State(conns: map<string, Conn>, out: seq<(string, Exchange)>)

  function Next(s: State, a: Arrival): State {
    var (xs, c) := Settle(Enqueue(At(s.conns, a.key), a));
    State(s.conns[a.key := c], s.out + Tag(a.key, xs))
  }

  const START := State(map[], [])

  function Run(arrivals: seq<Arrival>): State {
    if |arrivals| == 0 then START
    else
      var n := |arrivals| - 1;
      Next(Run(arrivals[..n]), arrivals[n])
  }

  class Pairer {
    var conns: map<string, Conn>
    var out: seq<(string, Exchange)>

    ghost function Now(): State
      reads this
    {
      State(conns, out)
    }

    constructor ()
      ensures Now() == START
    {
      conns, out := map[], [];
    }

    method AddRequest(key: string, q: Request)
      modifies this
      ensures Now() == Next(old(Now()), Asked(key, q))
    {
      var c := At(conns, key);
      Match(key, c.(requests := c.requests + [q]));
    }

    method AddResponse(key: string, r: Response)
      modifies this
      ensures Now() == Next(old(Now()), Answered(key, r))
    {
      var c := At(conns, key);
      Match(key, c.(responses := c.responses + [r]));
    }

    // Emits pairs while both queues have an element.
    method Match(key: string, queued: Conn)
      modifies this
      ensures conns == old(conns)[key := Settle(queued).1]
      ensures out == old(out) + Tag(key, Settle(queued).0)
    {
      var c := queued;
      ghost var emitted: seq<Exchange> := [];
      while |c.requests| > 0 && |c.responses| > 0
        invariant emitted + Zip(c.requests, c.responses) == Zip(queued.requests, queued.responses)
        invariant Settle(c).1 == Settle(queued).1
        invariant out == old(out) + Tag(key, emitted) && conns == old(conns)
        decreases |c.requests|
      {
        var x := Exchange(c.requests[0], c.responses[0]);
        ZipStep(c);
        TagSnoc(key, emitted, x);
        out := out + [(key, x)];
        emitted := emitted + [x];
        c := Conn(c.requests[1..], c.responses[1..]);
      }
      assert Zip(c.requests, c.responses) == [];
      conns := conns[key := c];
    }
  }

  lemma TagSnoc(key: string, xs: seq<Exchange>, x: Exchange)
    ensures Tag(key, xs + [x]) == Tag(key, xs) + [(key, x)]
  {
  }

  lemma ZipStep(c: Conn)
    requires |c.requests| > 0 && |c.responses| > 0
    ensures Zip(c.requests, c.responses) == [Exchange(c.requests[0], c.responses[0])]
      + Zip(c.requests[1..], c.responses[1..])
    ensures Settle(Conn(c.requests[1..], c.responses[1..])).1 == Settle(c).1
  {
    var n := if |c.requests| < |c.responses| then |c.requests| else |c.responses|;
    assert c.requests[1..][n - 1..] == c.requests[n..] && c.responses[1..][n - 1..] == c.responses[n..];
  }

  // Settling in two steps is settling at once.
  lemma SettleInSteps(qs: seq<Request>, rs: seq<Response>, n: nat)
    requires n <= |qs| && n <= |rs|
    ensures Zip(qs, rs) == Zip(qs[..n], rs[..n]) + Zip(qs[n..], rs[n..])
    ensures Settle(Conn(qs, rs)).1 == Settle(Conn(qs[n..], rs[n..])).1
  {
    var m := if |qs| < |rs| then |qs| else |rs|;
    assert qs[n..][m - n..] == qs[m..] && rs[n..][m - n..] == rs[m..];
  }

  lemma ZipCut(qs: seq<Request>, rs: seq<Response>, n: nat)
    requires n == if |qs| < |rs| then |qs| else |rs|
    ensures Zip(qs[..n], rs[..n]) == Zip(qs, rs)
  {
  }

  // One more element on either side extends the zip by what the queues now complete.
  lemma ZipExtends(qs: seq<Request>, rs: seq<Response>, a: Arrival)
    ensures var c := Settle(Conn(qs, rs)).1;
            var d := Enqueue(Conn(qs, rs), a);
            && Zip(d.requests, d.responses) == Zip(qs, rs) + Zip(Enqueue(c, a).requests, Enqueue(c, a).responses)
            && Settle(d).1 == Settle(Enqueue(c, a)).1
  {
    var n := if |qs| < |rs| then |qs| else |rs|;
    var d := Enqueue(Conn(qs, rs), a);
    assert d.requests[..n] == qs[..n] && d.responses[..n] == rs[..n];
    assert Conn(d.requests[n..], d.responses[n..]) == Enqueue(Conn(qs[n..], rs[n..]), a);
    assert Settle(Conn(qs, rs)).1 == Conn(qs[n..], rs[n..]);
    hide Zip, Settle, Enqueue;
    ZipCut(qs, rs, n);
    SettleInSteps(d.requests, d.responses, n);
  }

  // The sink has the zip of the connection's requests and responses cut to the shorter, and
  // the queues hold the rest of the longer.
  ghost predicate Paired(arrivals: seq<Arrival>, key: string, s: State) {
    && From(key, s.out) == Zip(Asks(key, arrivals), Answers(key, arrivals))
    && At(s.conns, key) == Settle(Conn(Asks(key, arrivals), Answers(key, arrivals))).1
  }

  lemma PairedStep(before: seq<Arrival>, a: Arrival, key: string, s: State)
    requires Paired(before, key, s)
    ensures Paired(before + [a], key, Next(s, a))
  {
    NextOne(s, a, key);
    if a.key == key { PairsStep(before, key, a); } else { OthersStep(before, key, a); }
  }

  // In every run every connection is paired first in, first out.
  lemma {:induction false} RunPairs(arrivals: seq<Arrival>, key: string)
    ensures Paired(arrivals, key, Run(arrivals))
  {
    if |arrivals| == 0 {
      EmptyPaired(key);
    } else {
      var n := |arrivals| - 1;
      var before, a, s := arrivals[..n], arrivals[n], Run(arrivals[..n]);
      assert arrivals == before + [a];
      RunPairs(before, key);
      PairedStep(before, a, key, s);
    }
  }

  // What that means: the sink got the first request with the first response, the second with
  // the second, and so on as long as there are both; the others wait in order.
  lemma PairedMeaning(arrivals: seq<Arrival>, key: string)
    ensures var qs, rs, out := Asks(key, arrivals), Answers(key, arrivals), From(key, Run(arrivals).out);
            && |out| == (if |qs| < |rs| then |qs| else |rs|)
            && (forall i :: 0 <= i < |out| ==> out[i].request == qs[i] && out[i].response == rs[i])
            && At(Run(arrivals).conns, key) == Conn(qs[|out|..], rs[|out|..])
  {
    hide From, Asks, Answers, Run;
    RunPairs(arrivals, key);
  }

  lemma EmptyPaired(key: string)
    ensures Paired([], key, START)
  {
  }

  // Never do both queues of a connection stay non-empty.
  lemma OneQueueEmpty(arrivals: seq<Arrival>, key: string)
    ensures At(Run(arrivals).conns, key).requests == [] || At(Run(arrivals).conns, key).responses == []
  {
    RunPairs(arrivals, key);
    SettleEmpties(Conn(Asks(key, arrivals), Answers(key, arrivals)));
  }

  lemma SettleEmpties(c: Conn)
    ensures Settle(c).1.requests == [] || Settle(c).1.responses == []
  {
  }

  // What one arrival does to one connection.
  lemma NextOne(s: State, a: Arrival, key: string)
    ensures var (xs, c) := Settle(Enqueue(At(s.conns, a.key), a));
            && From(key, Next(s, a).out) == From(key, s.out) + (if a.key == key then xs else [])
            && At(Next(s, a).conns, key) == if a.key == key then c else At(s.conns, key)
  {
    var (xs, c) := Settle(Enqueue(At(s.conns, a.key), a));
    FromConcat(key, s.out, Tag(a.key, xs));
    FromTag(key, a.key, xs);
  }

  lemma OthersStep(before: seq<Arrival>, key: string, a: Arrival)
    requires a.key != key
    ensures Asks(key, before + [a]) == Asks(key, before) && Answers(key, before + [a]) == Answers(key, before)
  {
    assert (before + [a])[..|before + [a]| - 1] == before;
  }

  lemma PairsStep(before: seq<Arrival>, key: string, a: Arrival)
    requires a.key == key
    ensures var c := Settle(Conn(Asks(key, before), Answers(key, before))).1;
            var (xs, d) := Settle(Enqueue(c, a));
            && Zip(Asks(key, before + [a]), Answers(key, before + [a]))
              == Zip(Asks(key, before), Answers(key, before)) + xs
            && Settle(Conn(Asks(key, before + [a]), Answers(key, before + [a]))).1 == d
  {
    var qs, rs := Asks(key, before), Answers(key, before);
    assert (before + [a])[..|before + [a]| - 1] == before;
    ZipExtends(qs, rs, a);
    assert qs + [] == qs && rs + [] == rs;
    assert Conn(Asks(key, before + [a]), Answers(key, before + [a])) == Enqueue(Conn(qs, rs), a);
  }

  // Pairing is interleaving-independent: two interleavings of the same requests and
  // responses of a connection, among any traffic of others, emit the same exchanges for it.
  lemma InterleavingIndependent(arrivals: seq<Arrival>, bs: seq<Arrival>, key: string)
    requires Asks(key, arrivals) == Asks(key, bs) && Answers(key, arrivals) == Answers(key, bs)
    ensures From(key, Run(arrivals).out) == From(key, Run(bs).out)
    ensures At(Run(arrivals).conns, key) == At(Run(bs).conns, key)
  {
    RunPairs(arrivals, key);
    RunPairs(bs, key);
  }
}
