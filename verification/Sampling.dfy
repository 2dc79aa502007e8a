// The sniffer's output: sampling of reads, and why it does not disturb a replay.
module Sampling {
  import opened Values
  import opened Optional
  import opened Golden
  import opened GoldenFile
  import opened Sniff

  function IsRead(verb: string): bool { verb == "GET" || verb == "HEAD" }

  // A rate outside (0, 1) keeps everything; otherwise a draw from [0, 1) decides, for reads
  // and, unless they are always kept, for writes.
  function SampledOut(rate: real, allWrites: bool, verb: string, draw: real): bool {
    0.0 < rate < 1.0 && (IsRead(verb) || !allWrites) && draw >= rate
  }

  // A read is a GET or a HEAD. Only with a rate between 0 and 1 and a draw not below it is
  // an exchange left out, and a write only if writes are not always kept.
  ghost predicate LeftOut(rate: real, allWrites: bool, verb: string, draw: real) {
    rate > 0.0 && rate < 1.0 && !(draw < rate) && (allWrites ==> verb in {"GET", "HEAD"})
  }

  lemma SampledOutIs(rate: real, allWrites: bool, verb: string, draw: real)
    ensures SampledOut(rate, allWrites, verb, draw) <==> LeftOut(rate, allWrites, verb, draw)
  {
  }

  // What an entry holds of an exchange; it has a time stamp and no write-set.
  ghost predicate Holds(e: Entry, number: nat, ts: string, x: Exchange) {
    && e.expected.status == x.response.status && e.expected.body == x.response.body && e.expected.writeset == None
    && e.verb == x.request.verb && e.path == x.request.path && e.headers == x.request.headers
    && e.body == x.request.body && e.ts == ts
    && e.name == "sniff-" + NatText(number) + "-" + x.request.verb + "-" + x.request.path
  }

  // The file grows by the line of this entry.
  ghost predicate Grown(before: seq<Line>, now: seq<Line>, number: nat, ts: string, x: Exchange) {
    exists e :: Holds(e, number, ts, x) && now == before + [LineOf(EntryValue(e))]
  }

  function EntryOf(number: nat, ts: string, x: Exchange): Entry {
    Entry("sniff-" + NatText(number) + "-" + x.request.verb + "-" + x.request.path, ts, x.request.verb, x.request.path,
          x.request.headers, x.request.body, Expected(x.response.status, x.response.body, None))
  }

  class Output {
    const rate: real
    const allWrites: bool
    const writer: Writer
    var number: nat
    var count: nat
    var skipped: nat
    ghost var offered: nat
    ghost var failed: nat

    // Every exchange offered was written, skipped or lost to a write error.
    ghost predicate Valid()
      reads this
    {
      count + skipped + failed == offered && number == count + failed
    }

    constructor (rate: real, allWrites: bool, writer: Writer)
      ensures Valid() && offered == 0 && this.rate == rate && this.allWrites == allWrites && this.writer == writer
    {
      this.rate, this.allWrites, this.writer := rate, allWrites, writer;
      number, count, skipped, offered, failed := 0, 0, 0, 0, 0;
    }

    // Goldens from passive capture carry no write-set.
    method Sink(x: Exchange, ts: string, draw: real, ioError: Option<string>)
      requires Valid()
      modifies this, writer
      ensures Valid() && offered == old(offered) + 1
      ensures var out := LeftOut(rate, allWrites, x.request.verb, draw);
              && failed == old(failed) + (if ioError != None && !out then 1 else 0)
              && skipped == old(skipped) + (if out then 1 else 0)
              && (if out || ioError != None then writer.lines == old(writer.lines)
                  else Grown(old(writer.lines), writer.lines, old(number) + 1, ts, x))
    {
      SampledOutIs(rate, allWrites, x.request.verb, draw);
      hide SampledOut, LeftOut, EntryValue;
      offered := offered + 1;
      if SampledOut(rate, allWrites, x.request.verb, draw) {
        skipped := skipped + 1;
        return;
      }
      number := number + 1;
      var err := writer.Append(EntryOf(number, ts, x), ioError);
      if err != None {
        failed := failed + 1;
        return;
      }
      count := count + 1;
      assert Holds(EntryOf(number, ts, x), number, ts, x);
    }
  }

  // ----- sampling and replay --------------------------------------------------------------

  // The state a deterministic service is in after a sequence of requests.
  ghost function After<S, Q, R>(step: (S, Q) -> (S, R), start: S, qs: seq<Q>): S {
    if qs == [] then start else step(After(step, start, qs[..|qs| - 1]), qs[|qs| - 1]).0
  }

  function Kept<Q>(qs: seq<Q>, keep: Q -> bool): seq<Q> {
    if qs == [] then []
    else Kept(qs[..|qs| - 1], keep) + (if keep(qs[|qs| - 1]) then [qs[|qs| - 1]] else [])
  }

  lemma AfterSnoc<S, Q, R>(step: (S, Q) -> (S, R), start: S, qs: seq<Q>, q: Q)
    ensures After(step, start, qs + [q]) == step(After(step, start, qs), q).0
  {
    assert (qs + [q])[..|qs + [q]| - 1] == qs;
  }

  // If everything that is dropped leaves the service's state unchanged, the kept requests
  // drive it through the same states.
  lemma {:induction false} KeptState<S(!new), Q, R>(step: (S, Q) -> (S, R), start: S, qs: seq<Q>, keep: Q -> bool)
    requires forall q, s :: q in qs && !keep(q) ==> step(s, q).0 == s
    ensures After(step, start, Kept(qs, keep)) == After(step, start, qs)
  {
    if qs != [] {
      var n := |qs| - 1;
      assert qs[n] in qs && forall q :: q in qs[..n] ==> q in qs;
      KeptState(step, start, qs[..n], keep);
      if keep(qs[n]) {
        AfterSnoc(step, start, Kept(qs[..n], keep), qs[n]);
      } else {
        assert Kept(qs, keep) == Kept(qs[..n], keep);
      }
    }
  }

  // An offered exchange with the draw made for it.
  datatype Offer = Offer(request: Request, draw: real)

  ghost function KeepOffer(rate: real): Offer -> bool { (o: Offer) => !LeftOut(rate, true, o.request.verb, o.draw) }

  // Sampling preserves replay: with writes always kept, for every draw and every
  // deterministic service whose reads leave its state unchanged, a kept exchange is replayed
  // in the state it was recorded in, and so with the same response.
  lemma SamplingPreservesReplay<S(!new), R>(step: (S, Request) -> (S, R), start: S, offers: seq<Offer>,
                                            rate: real, i: nat)
    requires forall s, q: Request :: q.verb in {"GET", "HEAD"} ==> step(s, q).0 == s
    requires i < |offers| && KeepOffer(rate)(offers[i])
    ensures var drive := (s: S, o: Offer) => step(s, o.request);
            var full := After(drive, start, offers[..i]);
            var replayed := After(drive, start, Kept(offers[..i], KeepOffer(rate)));
            replayed == full && step(replayed, offers[i].request).1 == step(full, offers[i].request).1
    ensures Kept(offers[..i + 1], KeepOffer(rate)) == Kept(offers[..i], KeepOffer(rate)) + [offers[i]]
  {
    var drive := (s: S, o: Offer) => step(s, o.request);
    KeptState(drive, start, offers[..i], KeepOffer(rate));
    assert offers[..i + 1][..i] == offers[..i];
  }

  // Keeping every write is needed: a service that counts writes notices each one dropped.
  ghost function CountWrites(s: nat, o: Offer): (nat, nat) {
    (if o.request.verb in {"GET", "HEAD"} then s else s + 1, s)
  }

  lemma {:induction false} DroppedWriteShows(offers: seq<Offer>, keep: Offer -> bool)
    ensures After(CountWrites, 0, Kept(offers, keep)) <= After(CountWrites, 0, offers)
    ensures After(CountWrites, 0, Kept(offers, keep)) == After(CountWrites, 0, offers)
      <==> forall o :: o in offers && o.request.verb !in {"GET", "HEAD"} ==> keep(o)
  {
    if offers != [] {
      var n := |offers| - 1;
      DroppedWriteShows(offers[..n], keep);
      assert forall o :: o in offers <==> o in offers[..n] || o == offers[n];
      if keep(offers[n]) {
        AfterSnoc(CountWrites, 0, Kept(offers[..n], keep), offers[n]);
      } else {
        assert Kept(offers, keep) == Kept(offers[..n], keep);
      }
    }
  }
}
