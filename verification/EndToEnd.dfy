/** The handlers and the pipeline as one system: what a handler gets the broker to take is what the
    consumers are given. */
module EndToEnd {
  import opened Text
  import opened Messages
  import opened Lists
  import opened Deliveries
  import DailyTotals
  import Dedup
  import In = Ingestion
  import Pipe = Pipeline
  import Pg = PostgresConsumer
  import Rows = PostgresRows
  import Parser
  import Producer

  // ----- the joint system -----

  /** A step of a handler, or a step of a consumer. */
  datatype Event = Handler(step: In.Step) | Consumer(action: Pipe.Action)

  datatype State = State(ingest: In.State, pipe: Pipe.State)

  const INITIAL := State(In.INITIAL, Pipe.INITIAL)

  /** TCP handlers work on parsed frames. */
  ghost predicate IsParsed(msg: QueueMessage) {
    exists frame, nowMs :: Parser.ParseFrame(frame, nowMs) == Some(msg)
  }

  ghost predicate Enabled(cfg: Pipe.Config, s: State, e: Event) {
    match e
    case Handler(step) =>
      && In.Enabled(s.ingest, step)
      && (step.Begin? && step.source.Tcp? ==> IsParsed(step.source.msg))
    case Consumer(action) => !action.Publish? && Pipe.Enabled(cfg, s.pipe, action)
  }

  /** The message that a handler publishes. */
  function Published(h: In.Handler): QueueMessage {
    match h.source
    case Http(event) => In.MessageOf(event, h.sentAt.GetOr(0))
    case Tcp(msg) => msg
  }

  /** When the broker takes a message, that is a publish of the pipeline. */
  function Apply(cfg: Pipe.Config, ttl: nat, s: State, e: Event): State
    requires e.Handler? ==> In.Enabled(s.ingest, e.step)
    requires e.Consumer? ==> Pipe.Enabled(cfg, s.pipe, e.action)
  {
    match e
    case Consumer(action) => s.(pipe := Pipe.Apply(cfg, s.pipe, action))
    case Handler(step) =>
      var ingest := In.Apply(s.ingest, ttl, step);
      if step.BrokerDecides? && step.taken then
        var msg := Published(s.ingest.handlers[step.who]);
        State(ingest, Pipe.Apply(cfg, s.pipe, Pipe.Publish(Message(msg))))
      else s.(ingest := ingest)
  }

  ghost predicate CanRun(cfg: Pipe.Config, ttl: nat, events: seq<Event>)
    decreases |events|, 0
  {
    events == []
    || (CanRun(cfg, ttl, events[..|events| - 1])
        && Enabled(cfg, After(cfg, ttl, events[..|events| - 1]), events[|events| - 1]))
  }

  ghost function After(cfg: Pipe.Config, ttl: nat, events: seq<Event>): State
    requires CanRun(cfg, ttl, events)
    decreases |events|, 1
  {
    if events == [] then INITIAL
    else Apply(cfg, ttl, After(cfg, ttl, events[..|events| - 1]), events[|events| - 1])
  }

  // ----- each half runs as it does alone -----

  ghost predicate HandlersReach(ttl: nat, steps: seq<In.Step>, s: In.State) {
    In.CanRun(ttl, steps) && In.After(ttl, steps) == s
  }

  ghost predicate PipelineReaches(cfg: Pipe.Config, actions: seq<Pipe.Action>, s: Pipe.State) {
    Pipe.CanRun(cfg, actions) && Pipe.After(cfg, actions) == s
  }

  lemma HandlersNext(ttl: nat, steps: seq<In.Step>, s: In.State, step: In.Step)
    requires HandlersReach(ttl, steps, s) && In.Enabled(s, step)
    ensures HandlersReach(ttl, steps + [step], In.Apply(s, ttl, step))
  {
    assert (steps + [step])[..|steps|] == steps;
  }

  lemma PipelineNext(cfg: Pipe.Config, actions: seq<Pipe.Action>, s: Pipe.State, action: Pipe.Action)
    requires PipelineReaches(cfg, actions, s) && Pipe.Enabled(cfg, s, action)
    ensures PipelineReaches(cfg, actions + [action], Pipe.Apply(cfg, s, action))
  {
    assert (actions + [action])[..|actions|] == actions;
  }

  /** A run of the system is a run of the handlers and a run of the pipeline. */
  lemma {:induction false} Halves(cfg: Pipe.Config, ttl: nat, events: seq<Event>)
      returns (steps: seq<In.Step>, actions: seq<Pipe.Action>)
    requires CanRun(cfg, ttl, events)
    ensures HandlersReach(ttl, steps, After(cfg, ttl, events).ingest)
    ensures PipelineReaches(cfg, actions, After(cfg, ttl, events).pipe)
  {
    if events == [] {
      steps, actions := [], [];
    } else {
      var before, e := events[..|events| - 1], events[|events| - 1];
      steps, actions := Halves(cfg, ttl, before);
      var s := After(cfg, ttl, before);
      match e {
        case Consumer(action) =>
          PipelineNext(cfg, actions, s.pipe, action);
          actions := actions + [action];
        case Handler(step) =>
          HandlersNext(ttl, steps, s.ingest, step);
          steps := steps + [step];
          if step.BrokerDecides? && step.taken {
            var msg := Published(s.ingest.handlers[step.who]);
            PipelineNext(cfg, actions, s.pipe, Pipe.Publish(Message(msg)));
            actions := actions + [Pipe.Publish(Message(msg))];
          }
      }
    }
  }

  // ----- the messages that the broker has taken, in log order -----

  type Handlers = map<nat, In.Handler>

  /** Every entry of the log is by a known handler and under its id. */
  ghost predicate Known(log: seq<In.Entry>, handlers: Handlers) {
    forall i :: 0 <= i < |log| ==>
      && log[i].who in handlers && log[i].id == In.IdOf(handlers[log[i].who].source)
      && (log[i].deed == In.Enqueued ==> handlers[log[i].who].sentAt != None)
  }

  /** A handler that has only won has sent nothing. */
  ghost predicate Coherent(handlers: Handlers) {
    forall who :: who in handlers && (handlers[who].pc == In.Arrived || handlers[who].pc == In.Won) ==>
      handlers[who].sentAt == None
  }

  function Queued(log: seq<In.Entry>, handlers: Handlers): seq<QueueMessage> {
    if log == [] then []
    else
      var before, last := Queued(log[..|log| - 1], handlers), log[|log| - 1];
      if last.deed == In.Enqueued && last.who in handlers
      then before + [Published(handlers[last.who])] else before
  }

  /** The deliveries of a list of messages, numbered in order. */
  function Numbered(msgs: seq<QueueMessage>): (ds: seq<Delivery>)
    ensures |ds| == |msgs|
  {
    seq(|msgs|, i requires 0 <= i < |msgs| => Delivery(i, Message(msgs[i])))
  }

  /** The handlers stay, and keep their sources and what they have sent. */
  ghost predicate Keeps(before: Handlers, after: Handlers) {
    forall who :: who in before ==>
      && who in after && after[who].source == before[who].source
      && (before[who].sentAt != None ==> after[who].sentAt == before[who].sentAt)
  }

  lemma {:induction false} QueuedKept(log: seq<In.Entry>, before: Handlers, after: Handlers)
    requires Known(log, before) && Keeps(before, after)
    ensures Known(log, after) && Queued(log, after) == Queued(log, before)
  {
    if log == [] {
    } else {
      var init := log[..|log| - 1];
      assert Known(init, before) by {
        assert forall i :: 0 <= i < |init| ==> init[i] == log[i];
      }
      QueuedKept(init, before, after);
      assert log[|log| - 1].who in before;
    }
  }

  lemma {:induction false} QueuedConcat(a: seq<In.Entry>, b: seq<In.Entry>, handlers: Handlers)
    ensures Queued(a + b, handlers) == Queued(a, handlers) + Queued(b, handlers)
  {
    if b == [] {
      assert a + b == a;
    } else {
      QueuedConcat(a, b[..|b| - 1], handlers);
      Init(a, b);
    }
  }

  lemma {:induction false} NothingQueued(log: seq<In.Entry>, handlers: Handlers)
    requires forall i :: 0 <= i < |log| ==> log[i].deed != In.Enqueued
    ensures Queued(log, handlers) == []
  {
    if log == [] {
    } else {
      NothingQueued(log[..|log| - 1], handlers);
    }
  }

  /** What one move of a handler queues. */
  lemma MoveQueues(s: In.State, who: nat, h: In.Handler, deeds: seq<In.Deed>)
    requires Known(s.log, s.handlers) && Keeps(s.handlers, s.handlers[who := h])
    requires In.Enqueued !in deeds || (deeds == [In.Enqueued] && h.sentAt != None)
    ensures var t := In.Move(s, who, h, deeds);
            && Known(t.log, t.handlers)
            && Queued(t.log, t.handlers)
               == Queued(s.log, s.handlers) + if In.Enqueued in deeds then [Published(h)] else []
  {
    var t := In.Move(s, who, h, deeds);
    var entries := In.Entries(who, In.IdOf(h.source), s.now, deeds);
    QueuedKept(s.log, s.handlers, t.handlers);
    QueuedConcat(s.log, entries, t.handlers);
    MovedEntries(who, h, s.now, deeds, t.handlers);
  }

  lemma MovedEntries(who: nat, h: In.Handler, at: int, deeds: seq<In.Deed>, handlers: Handlers)
    requires who in handlers && handlers[who] == h
    requires In.Enqueued !in deeds || (deeds == [In.Enqueued] && h.sentAt != None)
    ensures var entries := In.Entries(who, In.IdOf(h.source), at, deeds);
            && Known(entries, handlers)
            && Queued(entries, handlers) == if In.Enqueued in deeds then [Published(h)] else []
  {
    var entries := In.Entries(who, In.IdOf(h.source), at, deeds);
    if In.Enqueued in deeds {
      assert entries[..0] == [];
    } else {
      assert forall i :: 0 <= i < |entries| ==> entries[i].deed == deeds[i];
      NothingQueued(entries, handlers);
    }
  }

  /** What one step of the handlers queues. */
  function Queues(s: In.State, step: In.Step): seq<QueueMessage>
    requires In.Enabled(s, step)
  {
    if step.BrokerDecides? && step.taken then [Published(s.handlers[step.who])] else []
  }

  lemma StepQueues(s: In.State, ttl: nat, step: In.Step)
    requires Known(s.log, s.handlers) && Coherent(s.handlers) && In.Enabled(s, step)
    ensures var t := In.Apply(s, ttl, step);
            && Known(t.log, t.handlers) && Coherent(t.handlers)
            && Queued(t.log, t.handlers) == Queued(s.log, s.handlers) + Queues(s, step)
  {
    if step.Advance? {
      assert Queued(s.log, s.handlers) + [] == Queued(s.log, s.handlers);
    } else {
      var (h, deeds) := In.Next(s, ttl, step);
      In.StepIsMove(s, ttl, step);
      NextKeeps(s, ttl, step);
      MoveQueues(s.(keys := In.Apply(s, ttl, step).keys), step.who, h, deeds);
    }
  }

  lemma NextKeeps(s: In.State, ttl: nat, step: In.Step)
    requires Coherent(s.handlers) && In.Enabled(s, step) && !step.Advance?
    ensures var (h, deeds) := In.Next(s, ttl, step);
            && Coherent(s.handlers[step.who := h])
            && Keeps(s.handlers, s.handlers[step.who := h])
            && (In.Enqueued in deeds <==> step.BrokerDecides? && step.taken)
            && (step.BrokerDecides? && step.taken ==>
                  deeds == [In.Enqueued] && h.sentAt != None && Published(h) == Published(s.handlers[step.who]))
  {
  }

  // ----- the pipeline publishes what the handlers queue -----

  ghost predicate Joined(s: State) {
    && Known(s.ingest.log, s.ingest.handlers) && Coherent(s.ingest.handlers)
    && s.pipe.published == Numbered(Queued(s.ingest.log, s.ingest.handlers))
  }

  lemma NumberedNext(msgs: seq<QueueMessage>, msg: QueueMessage)
    ensures Numbered(msgs + [msg]) == Numbered(msgs) + [Delivery(|msgs|, Message(msg))]
  {
  }

  lemma StepJoined(cfg: Pipe.Config, ttl: nat, s: State, e: Event)
    requires Joined(s) && Enabled(cfg, s, e)
    ensures Joined(Apply(cfg, ttl, s, e))
  {
    match e
    case Consumer(action) =>
    case Handler(step) =>
      var queued := Queued(s.ingest.log, s.ingest.handlers);
      StepQueues(s.ingest, ttl, step);
      if step.BrokerDecides? && step.taken {
        NumberedNext(queued, Published(s.ingest.handlers[step.who]));
      } else {
        assert queued + [] == queued;
      }
  }

  /** In every run of handlers and consumers the messages published are those that the broker took
      from the handlers, in the order of the log. */
  lemma {:induction false} PublishedAsQueued(cfg: Pipe.Config, ttl: nat, events: seq<Event>)
    requires CanRun(cfg, ttl, events)
    ensures Joined(After(cfg, ttl, events))
  {
    if events == [] {
    } else {
      var before := events[..|events| - 1];
      PublishedAsQueued(cfg, ttl, before);
      StepJoined(cfg, ttl, After(cfg, ttl, before), events[|events| - 1]);
    }
  }

  /** An event is published with its own members, the time at which its handler sent it, and no
      table key. */
  lemma EventPublished(cfg: Pipe.Config, ttl: nat, s: State, who: nat, event: In.IncomingEvent, sentAt: int)
    requires In.Enabled(s.ingest, In.BrokerDecides(who, true))
    requires s.ingest.handlers[who].source == In.Http(event) && s.ingest.handlers[who].sentAt == Some(sentAt)
    ensures var timestamp := if event.timestamp.Some? then event.timestamp.value else sentAt;
            var msg := QueueMessage(event.id, event.eventType, event.payload, timestamp, sentAt, None);
            Apply(cfg, ttl, s, Handler(In.BrokerDecides(who, true))).pipe.published
            == s.pipe.published + [Delivery(|s.pipe.published|, Message(msg))]
  {
  }

  lemma SentNow(s: In.State, ttl: nat, who: nat)
    requires In.Enabled(s, In.SendToBroker(who))
    ensures var t := In.Apply(s, ttl, In.SendToBroker(who));
            && t.handlers == s.handlers[who := s.handlers[who].(pc := In.Waiting, sentAt := Some(s.now))]
            && t.log == s.log + [In.Entry(who, In.IdOf(s.handlers[who].source), s.now, In.Send)]
  {
  }

  // ----- the totals are those of the card transactions queued -----

  /** The queued messages of TCP handlers, in log order. */
  function Transactions(log: seq<In.Entry>, handlers: Handlers): seq<QueueMessage> {
    if log == [] then []
    else
      var before, last := Transactions(log[..|log| - 1], handlers), log[|log| - 1];
      if last.deed == In.Enqueued && last.who in handlers && handlers[last.who].source.Tcp?
      then before + [handlers[last.who].source.msg] else before
  }

  lemma {:induction false} RowsOfNumbered(msgs: seq<QueueMessage>)
    ensures Rows.RowsOf(Numbered(msgs)) == Collect(msgs, Rows.ToDailyRow)
  {
    if msgs == [] {
    } else {
      var init := msgs[..|msgs| - 1];
      RowsOfNumbered(init);
      assert Numbered(msgs)[..|msgs| - 1] == Numbered(init);
    }
  }

  lemma HttpHasNoRow(event: In.IncomingEvent, at: int)
    ensures Rows.ToDailyRow(In.MessageOf(event, at)) == None
  {
  }

  lemma {:induction false} RowsOfQueued(log: seq<In.Entry>, handlers: Handlers)
    ensures Collect(Queued(log, handlers), Rows.ToDailyRow) == Collect(Transactions(log, handlers), Rows.ToDailyRow)
  {
    if log == [] {
    } else {
      var init, last := log[..|log| - 1], log[|log| - 1];
      RowsOfQueued(init, handlers);
      if last.deed == In.Enqueued && last.who in handlers {
        var source := handlers[last.who].source;
        var msg := Published(handlers[last.who]);
        CollectConcat(Queued(init, handlers), [msg], Rows.ToDailyRow);
        One(msg, Rows.ToDailyRow);
        if source.Http? {
          HttpHasNoRow(source.event, handlers[last.who].sentAt.GetOr(0));
          var rows := Collect(Queued(init, handlers), Rows.ToDailyRow);
          assert rows + [] == rows;
        } else {
          CollectConcat(Transactions(init, handlers), [source.msg], Rows.ToDailyRow);
        }
      }
    }
  }

  /** End to end: when no UPSERT fails, then at every point of every run of handlers and consumers
      the totals, with what is still buffered and queued added message by message, are those of one
      UPSERT for each card transaction that the broker took, in the order it took them. */
  lemma TotalsOfTransactions(cfg: Pipe.Config, ttl: nat, events: seq<Event>)
    requires Pipe.Deployed(cfg) && cfg.postgres && CanRun(cfg, ttl, events)
    requires Pg.AllOk(After(cfg, ttl, events).pipe.pgEvents)
    ensures var s := After(cfg, ttl, events);
            var pg := Pipe.PgState(cfg, s.pipe);
            Pg.OneByOne(pg.table, pg.buffer + Producer.InQueue(s.pipe.contents, cfg.pgPair.queue))
            == Pg.OneByOne(cfg.totals, Numbered(Transactions(s.ingest.log, s.ingest.handlers)))
  {
    var s := After(cfg, ttl, events);
    var _, actions := Halves(cfg, ttl, events);
    Pipe.PipelineOnlyDelays(cfg, actions);
    PublishedAsQueued(cfg, ttl, events);
    SameRows(cfg.totals, s.ingest.log, s.ingest.handlers);
  }

  lemma SameRows(t: DailyTotals.Totals, log: seq<In.Entry>, handlers: Handlers)
    ensures Pg.OneByOne(t, Numbered(Queued(log, handlers))) == Pg.OneByOne(t, Numbered(Transactions(log, handlers)))
  {
    Pg.OneByOneAdds(t, Numbered(Queued(log, handlers)));
    Pg.OneByOneAdds(t, Numbered(Transactions(log, handlers)));
    RowsOfNumbered(Queued(log, handlers));
    RowsOfNumbered(Transactions(log, handlers));
    RowsOfQueued(log, handlers);
  }

  // ----- how often an id is queued -----

  function CountId(msgs: seq<QueueMessage>, id: string): nat {
    if msgs == [] then 0
    else CountId(msgs[..|msgs| - 1], id) + if msgs[|msgs| - 1].id == id then 1 else 0
  }

  /** The handlers of an id that have left a deed in the log. */
  function Doers(log: seq<In.Entry>, id: string, deed: In.Deed): set<nat> {
    set i | 0 <= i < |log| && log[i].id == id && log[i].deed == deed :: log[i].who
  }

  lemma CountNext(msgs: seq<QueueMessage>, msg: QueueMessage, id: string)
    ensures CountId(msgs + [msg], id) == CountId(msgs, id) + if msg.id == id then 1 else 0
  {
    assert (msgs + [msg])[..|msgs|] == msgs;
  }

  lemma DoersConcat(a: seq<In.Entry>, b: seq<In.Entry>, id: string, deed: In.Deed)
    ensures Doers(a + b, id, deed) == Doers(a, id, deed) + Doers(b, id, deed)
  {
    forall who | who in Doers(a, id, deed) + Doers(b, id, deed)
      ensures who in Doers(a + b, id, deed)
    {
      if who in Doers(a, id, deed) {
        var i :| 0 <= i < |a| && a[i].id == id && a[i].deed == deed && a[i].who == who;
        assert (a + b)[i] == a[i];
      } else {
        var i :| 0 <= i < |b| && b[i].id == id && b[i].deed == deed && b[i].who == who;
        assert (a + b)[|a| + i] == b[i];
      }
    }
  }

  /** What one step of the handlers adds to the log. */
  lemma StepEnqueuers(s: In.State, ttl: nat, step: In.Step, id: string)
    requires In.Enabled(s, step)
    ensures Doers(In.Apply(s, ttl, step).log, id, In.Enqueued)
            == Doers(s.log, id, In.Enqueued)
               + if step.BrokerDecides? && step.taken && In.IdOf(s.handlers[step.who].source) == id
                 then {step.who} else {}
  {
    var t := In.Apply(s, ttl, step);
    In.LogGrows(s, ttl, step);
    var added := t.log[|s.log|..];
    assert t.log == s.log + added;
    DoersConcat(s.log, added, id, In.Enqueued);
    if step.BrokerDecides? && step.taken {
      assert added == In.Entries(step.who, In.IdOf(s.handlers[step.who].source), s.now, [In.Enqueued]);
      assert added[0].deed == In.Enqueued;
    } else {
      NothingAdded(s, ttl, step);
    }
  }

  lemma NothingAdded(s: In.State, ttl: nat, step: In.Step)
    requires In.Enabled(s, step) && !(step.BrokerDecides? && step.taken)
    ensures var t := In.Apply(s, ttl, step);
            forall i :: |s.log| <= i < |t.log| ==> t.log[i].deed != In.Enqueued
  {
  }

  /** Each handler has its message queued at most once. */
  lemma {:induction false} QueuedOnce(ttl: nat, steps: seq<In.Step>, id: string)
    requires In.CanRun(ttl, steps)
    ensures var s := In.After(ttl, steps);
            && Known(s.log, s.handlers) && Coherent(s.handlers)
            && CountId(Queued(s.log, s.handlers), id) == |Doers(s.log, id, In.Enqueued)|
  {
    if steps == [] {
    } else {
      var before, step := steps[..|steps| - 1], steps[|steps| - 1];
      var s := In.After(ttl, before);
      QueuedOnce(ttl, before, id);
      StepQueues(s, ttl, step);
      StepEnqueuers(s, ttl, step, id);
      if step.BrokerDecides? && step.taken {
        NotYetQueued(ttl, before, step.who, id);
        CountNext(Queued(s.log, s.handlers), Published(s.handlers[step.who]), id);
      } else {
        assert Queued(s.log, s.handlers) + [] == Queued(s.log, s.handlers);
      }
    }
  }

  lemma NotYetQueued(ttl: nat, steps: seq<In.Step>, who: nat, id: string)
    requires In.CanRun(ttl, steps)
    requires who in In.After(ttl, steps).handlers && In.After(ttl, steps).handlers[who].taken == None
    ensures who !in Doers(In.After(ttl, steps).log, id, In.Enqueued)
  {
    var log := In.After(ttl, steps).log;
    In.EveryStory(ttl, steps, who);
    NotInTrace(In.After(ttl, steps).handlers[who], who, In.Inputs(steps, who), In.Trace(log, who));
    if who in Doers(log, id, In.Enqueued) {
      var i :| 0 <= i < |log| && log[i].id == id && log[i].deed == In.Enqueued && log[i].who == who;
      In.EntryInTrace(log, i);
    }
  }

  lemma NotInTrace(h: In.Handler, who: nat, inputs: seq<In.Step>, trace: seq<In.Deed>)
    requires In.Story(h, who, inputs, trace) && h.taken == None
    ensures In.Enqueued !in trace
  {
    if h.sentAt != None {
      assert trace == trace[..2] + trace[2..];
    }
  }

  lemma {:induction false} DeedInLog(log: seq<In.Entry>, who: nat, deed: In.Deed)
    requires deed in In.Trace(log, who)
    ensures exists i :: 0 <= i < |log| && log[i].who == who && log[i].deed == deed
  {
    var init := log[..|log| - 1];
    if deed in In.Trace(init, who) {
      DeedInLog(init, who, deed);
      var i :| 0 <= i < |init| && init[i].who == who && init[i].deed == deed;
      assert log[i] == init[i];
    } else {
      assert log[|log| - 1].who == who && log[|log| - 1].deed == deed;
    }
  }

  /** Whoever has a message queued has won. */
  lemma EnqueuersWin(ttl: nat, steps: seq<In.Step>, id: string)
    requires In.CanRun(ttl, steps) && Known(In.After(ttl, steps).log, In.After(ttl, steps).handlers)
    ensures Doers(In.After(ttl, steps).log, id, In.Enqueued) <= Doers(In.After(ttl, steps).log, id, In.Win)
  {
    var log := In.After(ttl, steps).log;
    forall who | who in Doers(log, id, In.Enqueued)
      ensures who in Doers(log, id, In.Win)
    {
      var j :| 0 <= j < |log| && log[j].id == id && log[j].deed == In.Enqueued && log[j].who == who;
      In.EntryInTrace(log, j);
      In.EveryHandler(ttl, steps, who);
      OrderlyWins(In.Trace(log, who));
      DeedInLog(log, who, In.Win);
    }
  }

  lemma OrderlyWins(trace: seq<In.Deed>)
    requires In.Orderly(trace) && In.Enqueued in trace
    ensures In.Win in trace
  {
    var i :| 0 <= i < |trace| && trace[i] == In.Enqueued;
    assert trace[0] == In.Win;
  }

  ghost predicate Timed(log: seq<In.Entry>, now: int) {
    forall i :: 0 <= i < |log| ==> 0 <= log[i].at <= now
  }

  lemma {:induction false} AllTimed(ttl: nat, steps: seq<In.Step>)
    requires In.CanRun(ttl, steps)
    ensures In.After(ttl, steps).now >= 0 && Timed(In.After(ttl, steps).log, In.After(ttl, steps).now)
  {
    if steps == [] {
    } else {
      AllTimed(ttl, steps[..|steps| - 1]);
    }
  }

  lemma {:induction false} WinnersCounted(log: seq<In.Entry>, id: string, now: nat)
    requires Timed(log, now)
    ensures |Doers(log, id, In.Win)| <= |In.WinsIn(log, id, 0, now + 1)|
  {
    if log == [] {
      assert Doers(log, id, In.Win) == {};
    } else {
      var init, last := log[..|log| - 1], log[|log| - 1];
      assert log == init + [last];
      WinnersCounted(init, id, now);
      DoersConcat(init, [last], id, In.Win);
      assert Doers([last], id, In.Win) == if last.id == id && last.deed == In.Win then {last.who} else {};
    }
  }

  /** In a run of a given length one id is queued, and so booked, at most once for each started time
      to live. */
  lemma IdQueuedPerTtl(ttl: nat, steps: seq<In.Step>, id: string)
    requires In.CanRun(ttl, steps) && ttl > 0
    ensures var s := In.After(ttl, steps);
            CountId(Queued(s.log, s.handlers), id) <= (s.now + ttl) / ttl
  {
    var s := In.After(ttl, steps);
    QueuedOnce(ttl, steps, id);
    EnqueuersWin(ttl, steps, id);
    Subset(Doers(s.log, id, In.Enqueued), Doers(s.log, id, In.Win));
    AllTimed(ttl, steps);
    WinnersCounted(s.log, id, s.now);
    In.WinsPerWindow(ttl, steps, id, 0, s.now + 1);
  }

  /** The same of the pipeline: of all messages published at most one per time to live has the id. */
  lemma IdPublishedPerTtl(cfg: Pipe.Config, ttl: nat, events: seq<Event>, id: string)
    requires CanRun(cfg, ttl, events) && ttl > 0
    ensures var s := After(cfg, ttl, events);
            && s.pipe.published == Numbered(Queued(s.ingest.log, s.ingest.handlers))
            && CountId(Queued(s.ingest.log, s.ingest.handlers), id) <= (s.ingest.now + ttl) / ttl
  {
    var s := After(cfg, ttl, events);
    var steps, _ := Halves(cfg, ttl, events);
    PublishedAsQueued(cfg, ttl, events);
    IdQueuedPerTtl(ttl, steps, id);
  }

  // ----- all that is published comes from the listeners -----

  ghost predicate Parsed(handlers: Handlers) {
    forall who :: who in handlers && handlers[who].source.Tcp? ==> IsParsed(handlers[who].source.msg)
  }

  lemma {:induction false} SourcesParsed(cfg: Pipe.Config, ttl: nat, events: seq<Event>)
    requires CanRun(cfg, ttl, events)
    ensures Parsed(After(cfg, ttl, events).ingest.handlers)
  {
    if events == [] {
    } else {
      var before, e := events[..|events| - 1], events[|events| - 1];
      SourcesParsed(cfg, ttl, before);
      if e.Handler? {
        StepParsed(After(cfg, ttl, before).ingest, ttl, e.step);
      }
    }
  }

  lemma StepParsed(s: In.State, ttl: nat, step: In.Step)
    requires Parsed(s.handlers) && In.Enabled(s, step)
    requires step.Begin? && step.source.Tcp? ==> IsParsed(step.source.msg)
    ensures Parsed(In.Apply(s, ttl, step).handlers)
  {
    if !step.Advance? {
      MovedParsed(s.handlers, step.who, In.Next(s, ttl, step).0);
      In.StepIsMove(s, ttl, step);
    }
  }

  lemma MovedParsed(handlers: Handlers, who: nat, h: In.Handler)
    requires Parsed(handlers) && (h.source.Tcp? ==> IsParsed(h.source.msg))
    ensures Parsed(handlers[who := h])
  {
  }

  lemma {:induction false} QueuedFromListeners(log: seq<In.Entry>, handlers: Handlers, i: nat)
    requires Parsed(handlers) && i < |Queued(log, handlers)|
    ensures Rows.FromListeners(Queued(log, handlers)[i])
  {
    var init, last := log[..|log| - 1], log[|log| - 1];
    if i < |Queued(init, handlers)| {
      QueuedFromListeners(init, handlers, i);
    } else {
      assert handlers[last.who].source.Tcp? ==> IsParsed(handlers[last.who].source.msg);
    }
  }

  lemma PublishedFromListeners(cfg: Pipe.Config, ttl: nat, events: seq<Event>)
    requires CanRun(cfg, ttl, events)
    ensures Rows.AllFromListeners(After(cfg, ttl, events).pipe.published)
  {
    var s := After(cfg, ttl, events);
    PublishedAsQueued(cfg, ttl, events);
    SourcesParsed(cfg, ttl, events);
    forall i | 0 <= i < |s.pipe.published|
      ensures Rows.FromListeners(s.pipe.published[i].body.msg)
    {
      QueuedFromListeners(s.ingest.log, s.ingest.handlers, i);
    }
  }

  lemma NextFromListeners(published: seq<Delivery>, received: seq<Delivery>, queued: seq<Delivery>)
    requires Rows.AllFromListeners(published) && published == received + queued && queued != []
    ensures Rows.AllFromListeners(received + [queued[0]])
  {
    var next := received + [queued[0]];
    forall i | 0 <= i < |next| && next[i].body.Message?
      ensures Rows.FromListeners(next[i].body.msg)
    {
      assert next[i] == published[i];
    }
  }

  /** End to end no batch overflows: not when the next queued message completes it, and not before. */
  lemma NeverOverflows(cfg: Pipe.Config, ttl: nat, events: seq<Event>, n: nat, k: DailyTotals.Key)
    requires Pipe.Deployed(cfg) && cfg.postgres && CanRun(cfg, ttl, events)
    requires 1 <= cfg.pgBatch <= Rows.MAX_SAFE_BATCH
    requires Producer.InQueue(After(cfg, ttl, events).pipe.contents, cfg.pgPair.queue) != []
    ensures var s := After(cfg, ttl, events).pipe;
            var batch := Pipe.PgState(cfg, s).buffer + [Producer.InQueue(s.contents, cfg.pgPair.queue)[0]];
            n <= |batch| ==>
              Rows.Within(DailyTotals.Get(DailyTotals.TotalOf(Rows.RowsOf(batch[..n])), k), I64_MAX, I32_MAX)
  {
    var s := After(cfg, ttl, events).pipe;
    var queued := Producer.InQueue(s.contents, cfg.pgPair.queue);
    var _, actions := Halves(cfg, ttl, events);
    Pipe.DeployedRoutes(cfg);
    Pipe.RunKeeps(cfg, actions, cfg.pgPair.dlq);
    PublishedFromListeners(cfg, ttl, events);
    NextFromListeners(s.published, Received(s.pgEvents), queued);
    Pg.RunNeverOverflows(cfg.totals, cfg.pgBatch, s.pgEvents, queued[0], n, k);
  }
}
