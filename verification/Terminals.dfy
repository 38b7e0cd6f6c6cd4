/** From the bytes that terminals write, through any reads, handlers and batches, to the totals. */
module Terminals {
  import opened Text
  import opened Messages
  import opened Lists
  import opened Framing
  import opened DailyTotals
  import Parser
  import Transactions
  import In = Ingestion
  import EndToEnd
  import Pipe = Pipeline
  import Pg = PostgresConsumer
  import Rows = PostgresRows
  import Producer

  // ----- what a terminal writes -----

  /** A transaction of twenty values with a filler, sent behind a length header or in the fixed
      format. */
  datatype Sending = Sending(values: map<Field, string>, filler: string, hasHeader: bool)

  predicate Composed(sent: seq<Sending>) {
    forall i :: 0 <= i < |sent| ==> Parser.Fits(sent[i].values)
  }

  function FrameSent(m: Sending): Frame
    requires Parser.Fits(m.values)
  {
    Frame(Transactions.Sent(m.values, m.filler), m.hasHeader)
  }

  function FramesSent(sent: seq<Sending>): (frames: seq<Frame>)
    requires Composed(sent)
    ensures |frames| == |sent|
  {
    seq(|sent|, i requires 0 <= i < |sent| => FrameSent(sent[i]))
  }

  function PieceOf(f: Frame): Piece {
    if f.hasHeader then Prefixed(f.payload) else Fixed(f.payload)
  }

  function PiecesOf(frames: seq<Frame>): (pieces: seq<Piece>)
    ensures |pieces| == |frames|
  {
    seq(|frames|, i requires 0 <= i < |frames| => PieceOf(frames[i]))
  }

  /** What a terminal sent, and the reads in which its bytes arrived. */
  datatype Terminal = Terminal(sent: seq<Sending>, chunks: seq<string>)

  /** The bytes are those of its transactions, each of which the listener accepts. */
  ghost predicate Writes(t: Terminal, maxFrame: nat) {
    && Composed(t.sent) && AllSound(PiecesOf(FramesSent(t.sent)), maxFrame)
    && Concat(t.chunks) == Wire(PiecesOf(FramesSent(t.sent)))
  }

  lemma {:induction false} FramesOfPieces(frames: seq<Frame>)
    ensures FramesOf(PiecesOf(frames)) == frames
  {
    if frames == [] {
    } else {
      FramesOfPieces(frames[1..]);
      assert PiecesOf(frames)[1..] == PiecesOf(frames[1..]);
    }
  }

  /** Frames that the listener accepts are handed on whole and in order, however they arrive. */
  lemma FramesArrive(frames: seq<Frame>, chunks: seq<string>, maxFrame: nat)
    requires AllSound(PiecesOf(frames), maxFrame) && Concat(chunks) == Wire(PiecesOf(frames))
    ensures FramesOf(Feed(chunks, maxFrame).pieces) == frames
  {
    WireDeframes(PiecesOf(frames), maxFrame);
    AllHandedOn(chunks, maxFrame);
    FramesOfPieces(frames);
  }

  // ----- which handler works on which transaction -----

  /** The terminal and the number of the frame that a TCP handler works on, and its clock. */
  datatype Origin = Origin(terminal: nat, frame: nat, nowMs: int)

  ghost predicate ComesFrom(msg: QueueMessage, o: Origin, terminals: seq<Terminal>, maxFrame: nat) {
    && o.terminal < |terminals|
    && var frames := FramesOf(Feed(terminals[o.terminal].chunks, maxFrame).pieces);
       && o.frame < |frames|
       && Parser.ParseFrame(frames[o.frame].payload, o.nowMs) == Some(msg)
  }

  /** Every TCP handler works on a frame of a terminal. */
  ghost predicate Serves(handlers: EndToEnd.Handlers, origins: map<nat, Origin>,
                         terminals: seq<Terminal>, maxFrame: nat) {
    forall who :: who in handlers && handlers[who].source.Tcp? ==>
      who in origins && ComesFrom(handlers[who].source.msg, origins[who], terminals, maxFrame)
  }

  ghost predicate AllWrite(terminals: seq<Terminal>, maxFrame: nat) {
    forall i :: 0 <= i < |terminals| ==> Writes(terminals[i], maxFrame)
  }

  function ValuesAt(o: Origin, terminals: seq<Terminal>): map<Field, string> {
    if o.terminal < |terminals| && o.frame < |terminals[o.terminal].sent|
    then terminals[o.terminal].sent[o.frame].values else map[]
  }

  /** The message of a handler is that of the values its terminal sent. */
  lemma MessageSent(msg: QueueMessage, o: Origin, terminals: seq<Terminal>, maxFrame: nat)
    requires AllWrite(terminals, maxFrame) && ComesFrom(msg, o, terminals, maxFrame)
    ensures Parser.Fits(ValuesAt(o, terminals))
    ensures msg == Parser.MessageOf(ValuesAt(o, terminals), o.nowMs)
  {
    var t := terminals[o.terminal];
    FramesArrive(FramesSent(t.sent), t.chunks, maxFrame);
    Parser.ParseOfComposed(t.sent[o.frame].values, t.sent[o.frame].filler, o.nowMs);
  }

  // ----- the values queued -----

  /** The values of the transactions that the broker took, in the order it took them. */
  function ValuesQueued(log: seq<In.Entry>, handlers: EndToEnd.Handlers, origins: map<nat, Origin>,
                        terminals: seq<Terminal>): seq<map<Field, string>>
  {
    if log == [] then []
    else
      var before, last := ValuesQueued(log[..|log| - 1], handlers, origins, terminals), log[|log| - 1];
      if last.deed == In.Enqueued && last.who in handlers && handlers[last.who].source.Tcp? && last.who in origins
      then before + [ValuesAt(origins[last.who], terminals)] else before
  }

  /** What a transaction adds to the totals. */
  function RowFor(values: map<Field, string>): Option<DailyRow> {
    if Parser.Fits(values) && Transactions.Bookable(values)
    then Some(DailyRow(Transactions.KeyOf(values),
                       Transactions.Booked(values, Transactions.AmountSent(values))))
    else None
  }

  lemma {:induction false} RowsOfValues(log: seq<In.Entry>, handlers: EndToEnd.Handlers,
                                        origins: map<nat, Origin>, terminals: seq<Terminal>, maxFrame: nat)
    requires AllWrite(terminals, maxFrame) && Serves(handlers, origins, terminals, maxFrame)
    ensures Collect(EndToEnd.Transactions(log, handlers), Rows.ToDailyRow)
            == Collect(ValuesQueued(log, handlers, origins, terminals), RowFor)
  {
    if log == [] {
    } else {
      var init, last := log[..|log| - 1], log[|log| - 1];
      RowsOfValues(init, handlers, origins, terminals, maxFrame);
      if last.deed == In.Enqueued && last.who in handlers && handlers[last.who].source.Tcp? {
        var msg, values := handlers[last.who].source.msg, ValuesAt(origins[last.who], terminals);
        RowOfMessage(msg, origins[last.who], terminals, maxFrame);
        CollectConcat(EndToEnd.Transactions(init, handlers), [msg], Rows.ToDailyRow);
        CollectConcat(ValuesQueued(init, handlers, origins, terminals), [values], RowFor);
        One(msg, Rows.ToDailyRow);
        One(values, RowFor);
      }
    }
  }

  lemma RowOfMessage(msg: QueueMessage, o: Origin, terminals: seq<Terminal>, maxFrame: nat)
    requires AllWrite(terminals, maxFrame) && ComesFrom(msg, o, terminals, maxFrame)
    ensures Rows.ToDailyRow(msg) == RowFor(ValuesAt(o, terminals))
  {
    MessageSent(msg, o, terminals, maxFrame);
    Transactions.RowOfSent(ValuesAt(o, terminals), o.nowMs);
  }

  /** From bytes to totals: for any terminals, any reads, any interleaving of handlers and any
      batches, when no UPSERT fails, the totals with what is buffered and queued are the first
      totals and the rows of the values sent in the transactions that the broker took. */
  lemma TotalsOfValues(cfg: Pipe.Config, ttl: nat, events: seq<EndToEnd.Event>,
                       origins: map<nat, Origin>, terminals: seq<Terminal>, maxFrame: nat)
    requires Pipe.Deployed(cfg) && cfg.postgres && EndToEnd.CanRun(cfg, ttl, events)
    requires Pg.AllOk(EndToEnd.After(cfg, ttl, events).pipe.pgEvents)
    requires AllWrite(terminals, maxFrame)
    requires Serves(EndToEnd.After(cfg, ttl, events).ingest.handlers, origins, terminals, maxFrame)
    ensures var s := EndToEnd.After(cfg, ttl, events);
            var pg := Pipe.PgState(cfg, s.pipe);
            Pg.OneByOne(pg.table, pg.buffer + Producer.InQueue(s.pipe.contents, cfg.pgPair.queue))
            == Merge(cfg.totals,
                     TotalOf(Collect(ValuesQueued(s.ingest.log, s.ingest.handlers, origins, terminals), RowFor)))
  {
    var s := EndToEnd.After(cfg, ttl, events);
    var msgs := EndToEnd.Transactions(s.ingest.log, s.ingest.handlers);
    EndToEnd.TotalsOfTransactions(cfg, ttl, events);
    Pg.OneByOneAdds(cfg.totals, EndToEnd.Numbered(msgs));
    EndToEnd.RowsOfNumbered(msgs);
    RowsOfValues(s.ingest.log, s.ingest.handlers, origins, terminals, maxFrame);
  }

  // ----- no transaction is booked twice for one frame -----

  /** No handler has two messages queued. */
  ghost predicate QueuesApart(log: seq<In.Entry>) {
    forall i, j :: 0 <= i < j < |log| && log[i].deed == In.Enqueued && log[j].deed == In.Enqueued ==>
      log[i].who != log[j].who
  }

  lemma {:induction false} HandlersQueueOnce(ttl: nat, steps: seq<In.Step>)
    requires In.CanRun(ttl, steps)
    ensures QueuesApart(In.After(ttl, steps).log)
  {
    if steps == [] {
    } else {
      var before, step := steps[..|steps| - 1], steps[|steps| - 1];
      var s, log := In.After(ttl, before), In.After(ttl, steps).log;
      HandlersQueueOnce(ttl, before);
      In.LogGrows(s, ttl, step);
      forall i, j | 0 <= i < j < |log| && log[i].deed == In.Enqueued && log[j].deed == In.Enqueued
        ensures log[i].who != log[j].who
      {
        if j < |s.log| {
          assert log[i] == s.log[i] && log[j] == s.log[j];
        } else {
          NewlyQueued(ttl, before, step, i, j);
        }
      }
    }
  }

  lemma NewlyQueued(ttl: nat, steps: seq<In.Step>, step: In.Step, i: nat, j: nat)
    requires In.CanRun(ttl, steps) && In.Enabled(In.After(ttl, steps), step)
    requires var s, t := In.After(ttl, steps), In.Apply(In.After(ttl, steps), ttl, step);
             && i < j < |t.log| && |s.log| <= j
             && t.log[i].deed == In.Enqueued && t.log[j].deed == In.Enqueued
    ensures var t := In.Apply(In.After(ttl, steps), ttl, step);
            t.log[i].who != t.log[j].who
  {
    var s, t := In.After(ttl, steps), In.Apply(In.After(ttl, steps), ttl, step);
    if !(step.BrokerDecides? && step.taken) {
      EndToEnd.NothingAdded(s, ttl, step);
    } else {
      EndToEnd.NotYetQueued(ttl, steps, step.who, t.log[i].id);
      assert t.log[i] == s.log[i];
    }
  }

  /** No two handlers work on the same frame. */
  ghost predicate OneHandlerEach(origins: map<nat, Origin>) {
    forall a, b :: a in origins && b in origins && a != b ==>
      origins[a].terminal != origins[b].terminal || origins[a].frame != origins[b].frame
  }

  /** Each frame of each terminal is queued at most once. */
  lemma FrameQueuedOnce(ttl: nat, steps: seq<In.Step>, origins: map<nat, Origin>, i: nat, j: nat)
    requires In.CanRun(ttl, steps) && OneHandlerEach(origins)
    requires var log := In.After(ttl, steps).log;
             && i < j < |log| && log[i].deed == In.Enqueued && log[j].deed == In.Enqueued
             && log[i].who in origins && log[j].who in origins
    ensures var log := In.After(ttl, steps).log;
            var a, b := origins[log[i].who], origins[log[j].who];
            a.terminal != b.terminal || a.frame != b.frame
  {
    HandlersQueueOnce(ttl, steps);
  }
}
