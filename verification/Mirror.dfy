// The traffic mirror simulator: TCP segments with 32-bit sequence numbers, as section 3.4 of
// RFC 9293 counts them.
module Mirror {
  import opened Arith

  const MODULUS := 0x1_0000_0000
  const CHUNK := 1400

  type Uint32 = n: nat | n < MODULUS

  datatype Packet = Packet(fromClient: bool, seqNo: Uint32, syn: bool, fin: bool, chunk: seq<Byte>)

  // A flow as it stands: the next sequence number of each direction, and what was sent.
  datatype Flow = Flow(seqC: Uint32, seqS: Uint32, packets: seq<Packet>)

  function SeqOf(f: Flow, d: bool): Uint32 { if d then f.seqC else f.seqS }

  function Plus(n: Uint32, count: nat): Uint32 { (n + count) % MODULUS }

  lemma PlusPlus(n: Uint32, b: nat, c: nat)
    ensures Plus(Plus(n, b), c) == Plus(n, b + c)
  {
    var q, r := (n + b) / MODULUS, (n + b) % MODULUS;
    assert n + b + c == MODULUS * q + (r + c);
  }

  function Before(n: Uint32): Uint32 { (n + MODULUS - 1) % MODULUS }

  function Min(m: nat, n: nat): nat { if m < n then m else n }

  // The segments of one payload, starting at a sequence number.
  function Chunks(d: bool, n: Uint32, payload: seq<Byte>): seq<Packet>
    decreases |payload|
  {
    if payload == [] then []
    else
      var len := Min(CHUNK, |payload|);
      [Packet(d, n, false, false, payload[..len])] + Chunks(d, Plus(n, len), payload[len..])
  }

  // One payload in one direction.
  datatype Emission = Emission(fromClient: bool, payload: seq<Byte>)

  function Next(f: Flow, e: Emission): Flow {
    var n := Plus(SeqOf(f, e.fromClient), |e.payload|);
    Flow(if e.fromClient then n else f.seqC, if e.fromClient then f.seqS else n,
         f.packets + Chunks(e.fromClient, SeqOf(f, e.fromClient), e.payload))
  }

  function Opened(seqC: Uint32, seqS: Uint32): Flow {
    Flow(seqC, seqS, [Packet(true, Before(seqC), true, false, []), Packet(false, Before(seqS), true, false, [])])
  }

  function Run(f: Flow, es: seq<Emission>): Flow {
    if es == [] then f else Next(Run(f, es[..|es| - 1]), es[|es| - 1])
  }

  class FlowState {
    var seqC: Uint32
    var seqS: Uint32
    var packets: seq<Packet>

    ghost function Now(): Flow
      reads this
    {
      Flow(seqC, seqS, packets)
    }

    constructor (seqC: Uint32, seqS: Uint32)
      ensures Now() == Flow(seqC, seqS, [])
    {
      this.seqC, this.seqS, packets := seqC, seqS, [];
    }

    method Send(d: bool, n: Uint32, syn: bool, fin: bool, chunk: seq<Byte>)
      modifies this`packets
      ensures packets == old(packets) + [Packet(d, n, syn, fin, chunk)]
    {
      packets := packets + [Packet(d, n, syn, fin, chunk)];
    }

    method Handshake()
      modifies this`packets
      ensures old(packets) == [] ==> Now() == Opened(seqC, seqS)
      ensures packets == old(packets) + Opened(seqC, seqS).packets
    {
      Send(true, Before(seqC), true, false, []);
      Send(false, Before(seqS), true, false, []);
    }

    method Finish()
      modifies this`packets
      ensures packets == old(packets) + [Packet(true, seqC, false, true, []), Packet(false, seqS, false, true, [])]
    {
      Send(true, seqC, false, true, []);
      Send(false, seqS, false, true, []);
    }

    method Emit(d: bool, payload: seq<Byte>)
      modifies this
      ensures Now() == Next(old(Now()), Emission(d, payload))
    {
      hide Chunks, Underway;
      ghost var first, start := SeqOf(Now(), d), packets;
      var off := 0;
      NothingSent(start, d, first, payload);
      while off < |payload|
        invariant 0 <= off
        invariant Underway(packets, start, d, first, SeqOf(Now(), d), payload, Min(off, |payload|))
        invariant SeqOf(Now(), !d) == old(SeqOf(Now(), !d))
      {
        hide Plus;
        var end := Min(off + CHUNK, |payload|);
        var n := if d then seqC else seqS;
        SegmentSent(packets, start, d, first, n, payload, off, end);
        Send(d, n, false, false, payload[off..end]);
        if d { seqC := Plus(n, end - off); } else { seqS := Plus(n, end - off); }
        off := off + CHUNK;
      }
      AllSent(packets, start, d, first, SeqOf(Now(), d), payload);
    }
  }

  lemma PlusZero(n: Uint32)
    ensures Plus(n, 0) == n
  {
  }

  // The segments of the first off bytes are sent, and n is the next number.
  ghost predicate Underway(ps: seq<Packet>, start: seq<Packet>, d: bool, first: Uint32, n: Uint32,
                           payload: seq<Byte>, off: nat)
  {
    && off <= |payload| && n == Plus(first, off)
    && ps + Chunks(d, n, payload[off..]) == start + Chunks(d, first, payload)
  }

  lemma NothingSent(start: seq<Packet>, d: bool, first: Uint32, payload: seq<Byte>)
    ensures Underway(start, start, d, first, first, payload, 0)
  {
    assert payload[0..] == payload;
  }

  lemma SegmentSent(ps: seq<Packet>, start: seq<Packet>, d: bool, first: Uint32, n: Uint32, payload: seq<Byte>,
                    off: nat, end: nat)
    requires Underway(ps, start, d, first, n, payload, off) && off < |payload| && end == Min(off + CHUNK, |payload|)
    ensures Underway(ps + [Packet(d, n, false, false, payload[off..end])], start, d, first, Plus(n, end - off),
                     payload, end)
  {
    hide Chunks;
    ChunkStep(d, n, payload, off, end);
    PlusPlus(first, off, end - off);
  }

  lemma AllSent(ps: seq<Packet>, start: seq<Packet>, d: bool, first: Uint32, n: Uint32, payload: seq<Byte>)
    requires Underway(ps, start, d, first, n, payload, |payload|)
    ensures ps == start + Chunks(d, first, payload) && n == Plus(first, |payload|)
  {
    assert payload[|payload|..] == [];
  }

  lemma ChunkStep(d: bool, n: Uint32, payload: seq<Byte>, off: nat, end: nat)
    requires off < |payload| && end == Min(off + CHUNK, |payload|)
    ensures Chunks(d, n, payload[off..]) == [Packet(d, n, false, false, payload[off..end])]
      + Chunks(d, Plus(n, end - off), payload[end..])
  {
    assert payload[off..][..end - off] == payload[off..end] && payload[off..][end - off..] == payload[end..];
  }

  // ----- what the receiver can rely on ---------------------------------------------------------

  // The data segments of one direction, in the order they were sent.
  function DataOf(ps: seq<Packet>, d: bool): seq<Packet> {
    if ps == [] then []
    else
      var p := ps[|ps| - 1];
      DataOf(ps[..|ps| - 1], d) + (if p.fromClient == d && !p.syn && !p.fin then [p] else [])
  }

  function StreamOf(segs: seq<Packet>): seq<Byte> {
    if segs == [] then [] else StreamOf(segs[..|segs| - 1]) + segs[|segs| - 1].chunk
  }

  function Sent(es: seq<Emission>, d: bool): seq<Byte> {
    if es == [] then []
    else Sent(es[..|es| - 1], d) + (if es[|es| - 1].fromClient == d then es[|es| - 1].payload else [])
  }

  // A segment of the right size, numbered by the bytes before it.
  ghost predicate Good(p: Packet, first: Uint32, before: nat) {
    1 <= |p.chunk| <= 1400 && p.seqNo == (first + before) % 0x1_0000_0000
  }

  ghost predicate InSequence(segs: seq<Packet>, first: Uint32) {
    segs == [] || (InSequence(segs[..|segs| - 1], first)
      && Good(segs[|segs| - 1], first, |StreamOf(segs[..|segs| - 1])|))
  }

  lemma {:induction false} DataOfConcat(x: seq<Packet>, y: seq<Packet>, d: bool)
    ensures DataOf(x + y, d) == DataOf(x, d) + DataOf(y, d)
  {
    if y == [] {
      assert x + y == x;
    } else {
      assert (x + y)[..|x + y| - 1] == x + y[..|y| - 1];
      DataOfConcat(x, y[..|y| - 1], d);
    }
  }

  lemma {:induction false} StreamOfConcat(x: seq<Packet>, y: seq<Packet>)
    ensures StreamOf(x + y) == StreamOf(x) + StreamOf(y)
  {
    if y == [] {
      assert x + y == x;
    } else {
      assert (x + y)[..|x + y| - 1] == x + y[..|y| - 1];
      StreamOfConcat(x, y[..|y| - 1]);
    }
  }

  lemma GoodLater(p: Packet, first: Uint32, a: nat, b: nat)
    requires Good(p, Plus(first, a), b)
    ensures Good(p, first, a + b)
  {
    PlusPlus(first, a, b);
    assert (first + (a + b)) % MODULUS == Plus(first, a + b);
  }

  lemma {:induction false} InSequenceConcat(x: seq<Packet>, y: seq<Packet>, first: Uint32, next: Uint32)
    requires InSequence(x, first) && InSequence(y, next) && next == Plus(first, |StreamOf(x)|)
    ensures InSequence(x + y, first)
    decreases |y|
  {
    if y == [] {
      assert x + y == x;
    } else {
      var z, p := y[..|y| - 1], y[|y| - 1];
      InSequenceConcat(x, z, first, next);
      StreamOfConcat(x, z);
      GoodLater(p, first, |StreamOf(x)|, |StreamOf(z)|);
      assert (x + y)[..|x + y| - 1] == x + z && (x + y)[|x + y| - 1] == p;
    }
  }

  lemma Single(p: Packet)
    ensures StreamOf([p]) == p.chunk
    ensures !p.syn && !p.fin ==> DataOf([p], p.fromClient) == [p] && DataOf([p], !p.fromClient) == []
    ensures 1 <= |p.chunk| <= 1400 ==> InSequence([p], p.seqNo)
  {
    assert [p][..0] == [] && [] + p.chunk == p.chunk && [] + [p] == [p];
    PlusZero(p.seqNo);
    assert StreamOf([]) == [] && InSequence([], p.seqNo);
  }

  lemma {:induction false} ChunksData(d: bool, n: Uint32, payload: seq<Byte>)
    ensures DataOf(Chunks(d, n, payload), d) == Chunks(d, n, payload) && DataOf(Chunks(d, n, payload), !d) == []
    decreases |payload|
  {
    if payload != [] {
      var len := Min(CHUNK, |payload|);
      var p, rest := Packet(d, n, false, false, payload[..len]), Chunks(d, Plus(n, len), payload[len..]);
      ChunksData(d, Plus(n, len), payload[len..]);
      Single(p);
      DataOfConcat([p], rest, d);
      DataOfConcat([p], rest, !d);
    }
  }

  lemma {:induction false} ChunksExact(d: bool, n: Uint32, payload: seq<Byte>)
    ensures StreamOf(Chunks(d, n, payload)) == payload && InSequence(Chunks(d, n, payload), n)
    decreases |payload|
  {
    if payload != [] {
      var len := Min(CHUNK, |payload|);
      var p, rest := Packet(d, n, false, false, payload[..len]), Chunks(d, Plus(n, len), payload[len..]);
      ChunksExact(d, Plus(n, len), payload[len..]);
      Single(p);
      StreamOfConcat([p], rest);
      assert payload == payload[..len] + payload[len..];
      InSequenceConcat([p], rest, n, Plus(n, len));
    }
  }

  // All segments of a payload but the last are full.
  lemma {:induction false} ChunksFull(d: bool, n: Uint32, payload: seq<Byte>, i: nat)
    requires i + 1 < |Chunks(d, n, payload)|
    ensures |Chunks(d, n, payload)[i].chunk| == 1400
    decreases |payload|
  {
    var len := Min(CHUNK, |payload|);
    if i > 0 { ChunksFull(d, Plus(n, len), payload[len..], i - 1); }
  }

  // The state of one direction after any sequence of payloads in both.
  ghost predicate Segmented(f: Flow, d: bool, first: Uint32, sent: seq<Byte>) {
    && StreamOf(DataOf(f.packets, d)) == sent
    && InSequence(DataOf(f.packets, d), first)
    && (if d then f.seqC else f.seqS) == (first + |sent|) % 0x1_0000_0000
  }

  lemma SegmentedStep(f: Flow, d: bool, first: Uint32, sent: seq<Byte>, e: Emission)
    requires Segmented(f, d, first, sent)
    ensures Segmented(Next(f, e), d, first, sent + (if e.fromClient == d then e.payload else []))
  {
    if e.fromClient == d {
      OwnStep(f, d, first, sent, e.payload);
    } else {
      var cs := Chunks(e.fromClient, SeqOf(f, e.fromClient), e.payload);
      ChunksData(e.fromClient, SeqOf(f, e.fromClient), e.payload);
      DataOfConcat(f.packets, cs, d);
      assert DataOf(f.packets, d) + [] == DataOf(f.packets, d) && sent + [] == sent;
    }
  }

  lemma OwnStep(f: Flow, d: bool, first: Uint32, sent: seq<Byte>, payload: seq<Byte>)
    requires Segmented(f, d, first, sent)
    ensures Segmented(Next(f, Emission(d, payload)), d, first, sent + payload)
  {
    hide InSequence, StreamOf, DataOf, Chunks;
    var n, had := SeqOf(f, d), DataOf(f.packets, d);
    var cs := Chunks(d, n, payload);
    ChunksData(d, n, payload);
    DataOfConcat(f.packets, cs, d);
    ChunksExact(d, n, payload);
    StreamOfConcat(had, cs);
    InSequenceConcat(had, cs, first, n);
    PlusPlus(first, |sent|, |payload|);
  }

  lemma OpenedSegmented(seqC: Uint32, seqS: Uint32, d: bool)
    ensures Segmented(Opened(seqC, seqS), d, SeqOf(Opened(seqC, seqS), d), [])
  {
    var ps := Opened(seqC, seqS).packets;
    assert ps[..1] == [ps[0]] && [ps[0]][..0] == [];
    assert DataOf([ps[0]], d) == [];
    PlusZero(SeqOf(Opened(seqC, seqS), d));
  }

  lemma RunLast(f: Flow, es: seq<Emission>, d: bool)
    requires es != []
    ensures var n := |es| - 1;
            && Run(f, es) == Next(Run(f, es[..n]), es[n])
            && Sent(es, d) == Sent(es[..n], d) + (if es[n].fromClient == d then es[n].payload else [])
  {
  }

  // Over any interleaving of payloads in both directions, the segments of a direction carry
  // 1 to 1400 bytes each and concatenate to exactly what was sent in it; the segment after
  // b bytes is numbered SYN + 1 + b modulo 2^32, and so is the FIN after all of them.
  lemma {:induction false} MirrorExact(seqC: Uint32, seqS: Uint32, es: seq<Emission>, d: bool)
    ensures Segmented(Run(Opened(seqC, seqS), es), d, SeqOf(Opened(seqC, seqS), d), Sent(es, d))
  {
    var f := Opened(seqC, seqS);
    if es == [] {
      OpenedSegmented(seqC, seqS, d);
    } else {
      var n := |es| - 1;
      MirrorExact(seqC, seqS, es[..n], d);
      SegmentedStep(Run(f, es[..n]), d, SeqOf(f, d), Sent(es[..n], d), es[n]);
      RunLast(f, es, d);
    }
  }

  // The first number is one past the SYN's.
  lemma SynBefore(seqC: Uint32, seqS: Uint32, d: bool)
    ensures var f := Opened(seqC, seqS);
            && |f.packets| == 2 && f.seqC == seqC && f.seqS == seqS
            && var syn := f.packets[if d then 0 else 1];
               && syn.syn && !syn.fin && syn.fromClient == d && syn.chunk == []
               && (syn.seqNo + 1) % 0x1_0000_0000 == if d then seqC else seqS
  {
  }
}
