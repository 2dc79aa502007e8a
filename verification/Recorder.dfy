// The recording proxy's golden output.
module Recorder {
  import opened Values
  import opened Optional
  import opened Writesets
  import opened Golden
  import opened GoldenFile
  import opened Polling
  import Firing
  import Replay

  // A proxied request, and what the upstream answered.
  datatype Exchange = Exchange(
    verb: string, urlPath: string, query: string, headers: map<string, string>, body: Value,
    status: int, answer: string)

  function EntryOf(number: nat, x: Exchange, ws: Option<seq<WriteEntry>>): Entry {
    Entry("cap-" + NatText(number) + "-" + x.verb + "-" + x.urlPath, "", x.verb,
          if x.query == "" then x.urlPath else x.urlPath + "?" + x.query,
          x.headers, x.body, Expected(x.status, x.answer, ws))
  }

  // What an entry holds of an exchange: the status and the body of the answer, the request as
  // it came, with its query if there is one, and no time stamp.
  ghost predicate Records(e: Entry, number: nat, x: Exchange, ws: Option<seq<WriteEntry>>) {
    && e.expected.status == x.status && e.expected.body == x.answer && e.expected.writeset == ws
    && e.verb == x.verb && e.headers == x.headers && e.body == x.body && e.ts == ""
    && (x.query == "" ==> e.path == x.urlPath) && (x.query != "" ==> e.path == x.urlPath + "?" + x.query)
    && e.name == "cap-" + NatText(number) + "-" + x.verb + "-" + x.urlPath
  }

  // The entries grow by this one, unless it cannot be written.
  ghost predicate Grown(before: seq<Entry>, now: seq<Entry>, number: nat, x: Exchange, ws: Option<seq<WriteEntry>>,
                        ioError: Option<string>)
  {
    if ioError == None then |now| == |before| + 1 && before <= now && Records(now[|before|], number, x, ws)
    else now == before
  }

  class Recorder {
    const writer: Writer
    ghost const meta: Meta
    var number: nat
    var count: nat
    var lastErr: Option<string>
    // the entries written so far
    ghost var entries: seq<Entry>

    // The file is a meta line and the entries, in the order they were recorded, none stamped.
    ghost predicate Valid()
      reads this, writer
    {
      && writer.lines == Written(meta, entries)
      && count == |entries| <= number
      && forall e :: e in entries ==> e.ts == ""
    }

    constructor (writer: Writer, ghost meta: Meta)
      requires writer.lines == Written(meta, [])
      ensures Valid() && entries == [] && this.writer == writer && this.meta == meta && number == 0 && lastErr == None
    {
      this.writer, this.meta := writer, meta;
      number, count, lastErr, entries := 0, 0, None, [];
    }

    // The number is used up even if the write fails.
    method RecordGolden(x: Exchange, ws: Option<seq<WriteEntry>>, ioError: Option<string>)
      requires Valid()
      modifies this, writer
      ensures Valid() && number == old(number) + 1
      ensures Grown(old(entries), entries, number, x, ws, ioError)
      ensures lastErr == if ioError == None then old(lastErr) else ioError
    {
      number := number + 1;
      var err := writer.Append(EntryOf(number, x, ws), ioError);
      if err != None {
        lastErr := err;
        return;
      }
      WrittenSnoc(meta, entries, EntryOf(number, x, ws));
      entries := entries + [EntryOf(number, x, ws)];
      count := count + 1;
    }

    // The golden path of the handler, under the lock. The window is taken whatever the
    // upstream answered; only what arrives after the hand-off, or once the source has failed,
    // is left for later.
    method Serve(x: Exchange, s: Firing.Stack, cfg: Replay.Config, attr: Attribution, w: Firing.Weather,
                 ioError: Option<string>)
      requires Valid() && Firing.Calm(w)
      requires Firing.Footprint(s) !! {this, writer}
      modifies this, writer, Firing.Footprint(s)
      ensures Valid() && number == old(number) + 1
      ensures var c := Attributed(old(Firing.Now(s)), attr, w);
              && Firing.Now(s) == c.after
              && Grown(old(entries), entries, number, x, WindowOf(c, cfg), ioError)
              && lastErr == if ioError != None then ioError
                            else if c.outcome.Failed? then Some(c.outcome.reason) else old(lastErr)
    {
      hide Firing.Calm, Firing.Closed, Firing.Opened, Normalized, Grown;
      Firing.OpenWindow(s, w);
      var taken := Firing.CloseWindow(s, attr, w);
      var found := None;
      if taken.Failed? {
        lastErr := Some(taken.reason);
      } else if !s.NoSource? {
        var es := NormalizeWriteset(taken.changes, cfg.noiseColumns, cfg.ignoreTables);
        found := Some(es);
      }
      RecordGolden(x, found, ioError);
    }
  }

  // How the window around one proxied request ends.
  ghost function Attributed(f: Firing.Feed, attr: Attribution, w: Firing.Weather): Firing.Closing
    requires Firing.Calm(w)
  {
    Firing.Closed(Firing.Opened(f, w), attr, w)
  }

  ghost function WindowOf(c: Firing.Closing, cfg: Replay.Config): Option<seq<WriteEntry>> {
    if c.after.NoFeed? || c.outcome.Failed? then None
    else Some(Normalized(c.outcome.changes, cfg.noiseColumns, cfg.ignoreTables))
  }

  // An entry has a write-set exactly if there is a source and it lives until the last check.
  // It is then the normal form of what a replay of the same request would be charged with,
  // whatever the upstream answers there.
  lemma RecordedAsReplayed(f: Firing.Feed, shot: Firing.Shot, cfg: Replay.Config, attr: Attribution)
    requires Firing.Calm(shot.w)
    ensures var ws := WindowOf(Attributed(f, attr, shot.w), cfg);
            && (ws != None <==> !f.NoFeed? && !Firing.SourceDies(f, attr, shot.w))
            && (ws != None && shot.call.Answered? ==>
                  var r := Firing.FireFrom(f, shot, attr).fired;
                  r.Fired? && ws == Some(Normalized(r.changes, cfg.noiseColumns, cfg.ignoreTables)))
  {
    Firing.ClosedExactly(f, attr, shot.w);
    Firing.OpenedKind(f, shot.w);
    hide Firing.SourceDies, Firing.Opened;
  }
}
