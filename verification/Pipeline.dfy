/** The whole path of a message: published to the exchange, queued for the consumers, buffered,
    written to the databases, and acknowledged or dead-lettered. */
module Pipeline {
  import opened Text
  import opened Messages
  import opened Lists
  import opened Deliveries
  import opened Producer
  import DailyTotals
  import Pg = PostgresConsumer
  import My = MysqlConsumer

  /** `postgres`: a PostgreSQL database is configured, so its queue is declared and consumed. */
  datatype Config = Config(
    exchange: string, dlx: string, postgres: bool, pgPair: Pair, myPair: Pair, topology: Topology,
    pgBatch: nat, myBatch: nat, totals: DailyTotals.Totals, tables: My.Database)

  function Pairs(cfg: Config): seq<Pair> {
    if cfg.postgres then [cfg.myPair, cfg.pgPair] else [cfg.myPair]
  }

  /** `connect` has made the topology, and the consumers read different queues. */
  ghost predicate Deployed(cfg: Config) {
    && Connected(FRESH, cfg.exchange, cfg.dlx, Pairs(cfg)) == Some(cfg.topology)
    && (cfg.postgres ==> cfg.pgPair.queue != cfg.myPair.queue)
  }

  function MainTargets(cfg: Config): set<string> {
    if cfg.postgres then {cfg.myPair.queue, cfg.pgPair.queue} else {cfg.myPair.queue}
  }

  function DeadTargets(cfg: Config): set<string> {
    if cfg.postgres then {cfg.myPair.dlq, cfg.pgPair.dlq} else {cfg.myPair.dlq}
  }

  /** A publish reaches the consumers' queues, and their rejects reach their dead-letter queues. */
  ghost predicate Routed(cfg: Config) {
    && FanoutTargets(cfg.topology, cfg.exchange) == MainTargets(cfg)
    && DeadLetterTargets(cfg.topology, cfg.myPair.queue) == {cfg.myPair.dlq}
    && (cfg.postgres ==> DeadLetterTargets(cfg.topology, cfg.pgPair.queue) == {cfg.pgPair.dlq})
    && MainTargets(cfg) !! DeadTargets(cfg)
    && (cfg.postgres ==> cfg.pgPair.queue != cfg.myPair.queue)
  }

  lemma DeployedRoutes(cfg: Config)
    requires Deployed(cfg)
    ensures Routed(cfg)
  {
    PairsOfBoth(cfg);
    ConnectIff(cfg.exchange, cfg.dlx, Pairs(cfg));
    RoutesOfTwo(cfg.topology, cfg.exchange, cfg.dlx, Pairs(cfg),
                cfg.myPair, if cfg.postgres then cfg.pgPair else cfg.myPair);
  }

  lemma PairsOfBoth(cfg: Config)
    ensures forall p :: p in Pairs(cfg) <==> p == cfg.myPair || (cfg.postgres && p == cfg.pgPair)
  {
  }

  /** What has been published, what lies in the queues, and what each consumer has seen. */
  datatype State = State(
    published: seq<Delivery>,
    contents: Contents,
    pgEvents: seq<Event<bool>>,
    myEvents: seq<Event<set<string>>>)

  const INITIAL := State([], map[], [], [])

  function PgState(cfg: Config, s: State): Pg.State {
    Pg.Steps(Pg.Start(cfg.totals), cfg.pgBatch, s.pgEvents)
  }

  function MyState(cfg: Config, s: State): My.State {
    My.Steps(My.Start(cfg.tables), cfg.myBatch, s.myEvents)
  }

  // ----- the steps -----

  /** A publish, a delivery taken by a consumer, or a tick of a consumer. */
  datatype Action =
    | Publish(body: Body)
    | PgTake(dbOk: bool)
    | PgTick(dbOk: bool)
    | MyTake(failing: set<string>)
    | MyTick(failing: set<string>)

  predicate Enabled(cfg: Config, s: State, a: Action) {
    match a
    case PgTake(_) => cfg.postgres && InQueue(s.contents, cfg.pgPair.queue) != []
    case PgTick(_) => cfg.postgres
    case MyTake(_) => InQueue(s.contents, cfg.myPair.queue) != []
    case _ => true
  }

  /** The queue without its first message. */
  function Pop(c: Contents, queue: string): Contents
    requires InQueue(c, queue) != []
  {
    c[queue := c[queue][1..]]
  }

  /** The deliveries rejected since the log was `before`. */
  function NewNacks(before: seq<Settlement>, after: seq<Settlement>): seq<Delivery> {
    With(if |before| <= |after| then after[|before|..] else [], Nack)
  }

  function DeadLetter(cfg: Config, c: Contents, queue: string, rejected: seq<Delivery>): Contents {
    Append(c, DeadLetterTargets(cfg.topology, queue), rejected)
  }

  function PgTurn(cfg: Config, s: State, e: Event<bool>): State {
    var t := s.(pgEvents := s.pgEvents + [e]);
    var rejected := NewNacks(PgState(cfg, s).settled, PgState(cfg, t).settled);
    t.(contents := DeadLetter(cfg, s.contents, cfg.pgPair.queue, rejected))
  }

  function MyTurn(cfg: Config, s: State, e: Event<set<string>>): State {
    var t := s.(myEvents := s.myEvents + [e]);
    var rejected := NewNacks(MyState(cfg, s).settled, MyState(cfg, t).settled);
    t.(contents := DeadLetter(cfg, s.contents, cfg.myPair.queue, rejected))
  }

  function Apply(cfg: Config, s: State, a: Action): State
    requires Enabled(cfg, s, a)
  {
    match a
    case Publish(body) =>
      var d := Delivery(|s.published|, body);
      s.(published := s.published + [d],
         contents := Append(s.contents, FanoutTargets(cfg.topology, cfg.exchange), [d]))
    case PgTake(dbOk) =>
      var q := cfg.pgPair.queue;
      PgTurn(cfg, s.(contents := Pop(s.contents, q)), Arrival(InQueue(s.contents, q)[0], dbOk))
    case PgTick(dbOk) => PgTurn(cfg, s, Tick(dbOk))
    case MyTake(failing) =>
      var q := cfg.myPair.queue;
      MyTurn(cfg, s.(contents := Pop(s.contents, q)), Arrival(InQueue(s.contents, q)[0], failing))
    case MyTick(failing) => MyTurn(cfg, s, Tick(failing))
  }

  predicate CanRun(cfg: Config, actions: seq<Action>)
    decreases |actions|, 0
  {
    actions == []
    || (CanRun(cfg, actions[..|actions| - 1])
        && Enabled(cfg, After(cfg, actions[..|actions| - 1]), actions[|actions| - 1]))
  }

  function After(cfg: Config, actions: seq<Action>): State
    requires CanRun(cfg, actions)
    decreases |actions|, 1
  {
    if actions == [] then INITIAL
    else Apply(cfg, After(cfg, actions[..|actions| - 1]), actions[|actions| - 1])
  }

  // ----- queues are first in, first out -----

  /** What a consumer has received, followed by what its queue holds, is what was published. */
  ghost predicate Ordered(cfg: Config, s: State) {
    && (cfg.postgres ==> s.published == Received(s.pgEvents) + InQueue(s.contents, cfg.pgPair.queue))
    && s.published == Received(s.myEvents) + InQueue(s.contents, cfg.myPair.queue)
  }

  /** The dead-letter queues hold the rejected deliveries of the consumers they serve. */
  ghost predicate DeadLettersOk(cfg: Config, s: State, dlq: string) {
    multiset(InQueue(s.contents, dlq))
    == (if cfg.postgres && dlq == cfg.pgPair.dlq then multiset(With(PgState(cfg, s).settled, Nack)) else multiset{})
       + (if dlq == cfg.myPair.dlq then multiset(With(MyState(cfg, s).settled, Nack)) else multiset{})
  }

  lemma ReceivedNext<O>(events: seq<Event<O>>, e: Event<O>)
    ensures Received(events + [e]) == if e.Arrival? then Received(events) + [e.delivery] else Received(events)
  {
    assert (events + [e])[..|events|] == events;
  }

  lemma PgTurnOrdered(cfg: Config, s: State, e: Event<bool>)
    requires Routed(cfg) && cfg.postgres
    ensures var t := PgTurn(cfg, s, e);
            && InQueue(t.contents, cfg.pgPair.queue) == InQueue(s.contents, cfg.pgPair.queue)
            && InQueue(t.contents, cfg.myPair.queue) == InQueue(s.contents, cfg.myPair.queue)
            && t.published == s.published
            && t.myEvents == s.myEvents
            && Received(t.pgEvents)
               == (if e.Arrival? then Received(s.pgEvents) + [e.delivery] else Received(s.pgEvents))
  {
    ReceivedNext(s.pgEvents, e);
    var t := s.(pgEvents := s.pgEvents + [e]);
    var rejected := NewNacks(PgState(cfg, s).settled, PgState(cfg, t).settled);
    AppendAt(s.contents, {cfg.pgPair.dlq}, rejected, cfg.pgPair.queue);
    AppendAt(s.contents, {cfg.pgPair.dlq}, rejected, cfg.myPair.queue);
  }

  lemma MyTurnOrdered(cfg: Config, s: State, e: Event<set<string>>)
    requires Routed(cfg)
    ensures var t := MyTurn(cfg, s, e);
            && (cfg.postgres ==> InQueue(t.contents, cfg.pgPair.queue) == InQueue(s.contents, cfg.pgPair.queue))
            && InQueue(t.contents, cfg.myPair.queue) == InQueue(s.contents, cfg.myPair.queue)
            && t.published == s.published
            && t.pgEvents == s.pgEvents
            && Received(t.myEvents)
               == (if e.Arrival? then Received(s.myEvents) + [e.delivery] else Received(s.myEvents))
  {
    ReceivedNext(s.myEvents, e);
    var t := s.(myEvents := s.myEvents + [e]);
    var rejected := NewNacks(MyState(cfg, s).settled, MyState(cfg, t).settled);
    AppendAt(s.contents, {cfg.myPair.dlq}, rejected, cfg.pgPair.queue);
    AppendAt(s.contents, {cfg.myPair.dlq}, rejected, cfg.myPair.queue);
  }

  lemma Taken<T>(a: seq<T>, b: seq<T>)
    requires b != []
    ensures a + b == (a + [b[0]]) + b[1..]
  {
  }

  lemma QueueExtended(c: Contents, targets: set<string>, d: Delivery, queue: string,
                      published: seq<Delivery>, received: seq<Delivery>)
    requires queue in targets && published == received + InQueue(c, queue)
    ensures published + [d] == received + InQueue(Append(c, targets, [d]), queue)
  {
    AppendAt(c, targets, [d], queue);
    assert received + (InQueue(c, queue) + [d]) == (received + InQueue(c, queue)) + [d];
  }

  lemma PublishOrdered(cfg: Config, s: State, body: Body)
    requires Routed(cfg) && Ordered(cfg, s)
    ensures Ordered(cfg, Apply(cfg, s, Publish(body)))
  {
    var d := Delivery(|s.published|, body);
    var targets := FanoutTargets(cfg.topology, cfg.exchange);
    if cfg.postgres {
      QueueExtended(s.contents, targets, d, cfg.pgPair.queue, s.published, Received(s.pgEvents));
    }
    QueueExtended(s.contents, targets, d, cfg.myPair.queue, s.published, Received(s.myEvents));
  }

  lemma StepOrdered(cfg: Config, s: State, a: Action)
    requires Routed(cfg) && Ordered(cfg, s) && Enabled(cfg, s, a)
    ensures Ordered(cfg, Apply(cfg, s, a))
  {
    var pgQueue, myQueue := InQueue(s.contents, cfg.pgPair.queue), InQueue(s.contents, cfg.myPair.queue);
    match a
    case Publish(body) => PublishOrdered(cfg, s, body);
    case PgTake(dbOk) =>
      Taken(Received(s.pgEvents), pgQueue);
      PgTurnOrdered(cfg, s.(contents := Pop(s.contents, cfg.pgPair.queue)), Arrival(pgQueue[0], dbOk));
    case PgTick(dbOk) => PgTurnOrdered(cfg, s, Tick(dbOk));
    case MyTake(failing) =>
      Taken(Received(s.myEvents), myQueue);
      MyTurnOrdered(cfg, s.(contents := Pop(s.contents, cfg.myPair.queue)), Arrival(myQueue[0], failing));
    case MyTick(failing) => MyTurnOrdered(cfg, s, Tick(failing));
  }

  // ----- dead letters -----

  lemma NacksGrow(before: seq<Settlement>, after: seq<Settlement>)
    requires before <= after
    ensures With(after, Nack) == With(before, Nack) + NewNacks(before, after)
  {
    assert after == before + after[|before|..];
    WithConcat(before, after[|before|..], Nack);
  }

  lemma PgTurnDeadLetters(cfg: Config, s: State, e: Event<bool>, dlq: string)
    requires Routed(cfg) && cfg.postgres && DeadLettersOk(cfg, s, dlq)
    ensures DeadLettersOk(cfg, PgTurn(cfg, s, e), dlq)
  {
    var events := s.pgEvents + [e];
    assert events[..|s.pgEvents|] == s.pgEvents;
    var before := PgState(cfg, s);
    var after := Pg.Step(before, cfg.pgBatch, e);
    assert PgState(cfg, s.(pgEvents := events)) == after;
    Pg.LogGrows(before, cfg.pgBatch, e);
    NacksGrow(before.settled, after.settled);
    AppendAt(s.contents, {cfg.pgPair.dlq}, NewNacks(before.settled, after.settled), dlq);
  }

  lemma MyTurnDeadLetters(cfg: Config, s: State, e: Event<set<string>>, dlq: string)
    requires Routed(cfg) && DeadLettersOk(cfg, s, dlq)
    ensures DeadLettersOk(cfg, MyTurn(cfg, s, e), dlq)
  {
    var events := s.myEvents + [e];
    assert events[..|s.myEvents|] == s.myEvents;
    var before := MyState(cfg, s);
    var after := My.Step(before, cfg.myBatch, e);
    assert MyState(cfg, s.(myEvents := events)) == after;
    My.LogGrows(before, cfg.myBatch, e);
    NacksGrow(before.settled, after.settled);
    AppendAt(s.contents, {cfg.myPair.dlq}, NewNacks(before.settled, after.settled), dlq);
  }

  lemma StepDeadLetters(cfg: Config, s: State, a: Action, dlq: string)
    requires Routed(cfg) && DeadLettersOk(cfg, s, dlq) && Enabled(cfg, s, a)
    requires dlq in DeadTargets(cfg)
    ensures DeadLettersOk(cfg, Apply(cfg, s, a), dlq)
  {
    var pgQueue, myQueue := cfg.pgPair.queue, cfg.myPair.queue;
    match a
    case Publish(body) =>
      AppendAt(s.contents, MainTargets(cfg), [Delivery(|s.published|, body)], dlq);
    case PgTake(dbOk) =>
      var popped := s.(contents := Pop(s.contents, pgQueue));
      assert InQueue(popped.contents, dlq) == InQueue(s.contents, dlq);
      PgTurnDeadLetters(cfg, popped, Arrival(InQueue(s.contents, pgQueue)[0], dbOk), dlq);
    case PgTick(dbOk) => PgTurnDeadLetters(cfg, s, Tick(dbOk), dlq);
    case MyTake(failing) =>
      var popped := s.(contents := Pop(s.contents, myQueue));
      assert InQueue(popped.contents, dlq) == InQueue(s.contents, dlq);
      MyTurnDeadLetters(cfg, popped, Arrival(InQueue(s.contents, myQueue)[0], failing), dlq);
    case MyTick(failing) => MyTurnDeadLetters(cfg, s, Tick(failing), dlq);
  }

  // ----- conservation -----

  lemma {:induction false} RunKeeps(cfg: Config, actions: seq<Action>, dlq: string)
    requires Routed(cfg) && CanRun(cfg, actions)
    requires dlq in DeadTargets(cfg)
    ensures Ordered(cfg, After(cfg, actions))
    ensures DeadLettersOk(cfg, After(cfg, actions), dlq)
  {
    if actions == [] {
    } else {
      var before, a := actions[..|actions| - 1], actions[|actions| - 1];
      RunKeeps(cfg, before, dlq);
      StepOrdered(cfg, After(cfg, before), a);
      StepDeadLetters(cfg, After(cfg, before), a, dlq);
    }
  }

  /** A queue's messages are still queued, buffered by its consumer, acknowledged or rejected. */
  ghost predicate Conserved(published: seq<Delivery>, queued: seq<Delivery>, buffer: seq<Delivery>,
                            log: seq<Settlement>) {
    multiset(published)
    == multiset(queued) + multiset(buffer) + multiset(With(log, Ack)) + multiset(With(log, Nack))
  }

  lemma Adds(published: seq<Delivery>, received: seq<Delivery>, queued: seq<Delivery>,
             buffer: seq<Delivery>, log: seq<Settlement>)
    requires published == received + queued
    requires multiset(received) == multiset(Settled(log)) + multiset(buffer)
    ensures Conserved(published, queued, buffer, log)
  {
    LogSplits(log);
  }

  /** Pipeline conservation: after every run from a fresh broker, for each deployed queue the
      published messages are exactly those queued, buffered, acknowledged and rejected; the
      dead-letter queues hold exactly the rejected ones; and the databases hold exactly the
      acknowledged ones, as if each had been written by itself. */
  lemma PipelineConservation(cfg: Config, actions: seq<Action>)
    requires Deployed(cfg) && CanRun(cfg, actions)
    ensures var s := After(cfg, actions);
            var pg, my := PgState(cfg, s), MyState(cfg, s);
            && Conserved(s.published, InQueue(s.contents, cfg.myPair.queue), my.buffer, my.settled)
            && DeadLettersOk(cfg, s, cfg.myPair.dlq)
            && my.db == My.InsertEach(cfg.tables, With(my.settled, Ack))
            && (cfg.postgres ==>
                  && Conserved(s.published, InQueue(s.contents, cfg.pgPair.queue), pg.buffer, pg.settled)
                  && DeadLettersOk(cfg, s, cfg.pgPair.dlq)
                  && pg.table == Pg.OneByOne(cfg.totals, With(pg.settled, Ack)))
  {
    DeployedRoutes(cfg);
    RunKeeps(cfg, actions, cfg.myPair.dlq);
    MyConserved(cfg, actions);
    if cfg.postgres {
      RunKeeps(cfg, actions, cfg.pgPair.dlq);
      PgConserved(cfg, actions);
    }
  }

  lemma MyConserved(cfg: Config, actions: seq<Action>)
    requires CanRun(cfg, actions) && Ordered(cfg, After(cfg, actions))
    ensures var s := After(cfg, actions);
            var my := MyState(cfg, s);
            && Conserved(s.published, InQueue(s.contents, cfg.myPair.queue), my.buffer, my.settled)
            && my.db == My.InsertEach(cfg.tables, With(my.settled, Ack))
  {
    var s := After(cfg, actions);
    var my := MyState(cfg, s);
    My.RunAccounts(cfg.tables, cfg.myBatch, s.myEvents);
    Adds(s.published, Received(s.myEvents), InQueue(s.contents, cfg.myPair.queue), my.buffer, my.settled);
  }

  lemma PgConserved(cfg: Config, actions: seq<Action>)
    requires CanRun(cfg, actions) && cfg.postgres && Ordered(cfg, After(cfg, actions))
    ensures var s := After(cfg, actions);
            var pg := PgState(cfg, s);
            && Conserved(s.published, InQueue(s.contents, cfg.pgPair.queue), pg.buffer, pg.settled)
            && pg.table == Pg.OneByOne(cfg.totals, With(pg.settled, Ack))
  {
    var s := After(cfg, actions);
    var pg := PgState(cfg, s);
    Pg.ExactlyOnce(cfg.totals, cfg.pgBatch, s.pgEvents);
    Pg.BatchRefinement(cfg.totals, cfg.pgBatch, s.pgEvents);
    Adds(s.published, Received(s.pgEvents), InQueue(s.contents, cfg.pgPair.queue), pg.buffer, pg.settled);
  }

  /** When no UPSERT fails, the totals are only late: adding what is still buffered and what is
      still queued, message by message, gives exactly the totals of all published messages. */
  lemma PipelineOnlyDelays(cfg: Config, actions: seq<Action>)
    requires Deployed(cfg) && cfg.postgres && CanRun(cfg, actions)
    requires Pg.AllOk(After(cfg, actions).pgEvents)
    ensures var s := After(cfg, actions);
            var pg := PgState(cfg, s);
            Pg.OneByOne(pg.table, pg.buffer + InQueue(s.contents, cfg.pgPair.queue))
            == Pg.OneByOne(cfg.totals, s.published)
  {
    var s := After(cfg, actions);
    var pg, queued := PgState(cfg, s), InQueue(s.contents, cfg.pgPair.queue);
    DeployedRoutes(cfg);
    RunKeeps(cfg, actions, cfg.pgPair.dlq);
    Pg.BatchingOnlyDelays(cfg.totals, cfg.pgBatch, s.pgEvents);
    Pg.OneByOneConcat(pg.table, pg.buffer, queued);
    Pg.OneByOneConcat(cfg.totals, Received(s.pgEvents), queued);
  }

  /** When no INSERT into a table fails, that table is only late, whatever happens to the others. */
  lemma TablesOnlyLate(cfg: Config, actions: seq<Action>, table: string)
    requires Deployed(cfg) && CanRun(cfg, actions)
    requires My.NeverFails(After(cfg, actions).myEvents, table)
    ensures var s := After(cfg, actions);
            var my := MyState(cfg, s);
            My.Get(my.db, table) + My.Rows(My.Group(my.buffer + InQueue(s.contents, cfg.myPair.queue), table))
            == My.Get(cfg.tables, table) + My.Rows(My.Group(s.published, table))
  {
    var s := After(cfg, actions);
    var my, queued := MyState(cfg, s), InQueue(s.contents, cfg.myPair.queue);
    DeployedRoutes(cfg);
    RunKeeps(cfg, actions, cfg.myPair.dlq);
    My.TableIsolation(cfg.tables, cfg.myBatch, s.myEvents, table);
    RowsOfBoth(my.buffer, queued, table);
    RowsOfBoth(Received(s.myEvents), queued, table);
    Associative(My.Get(my.db, table), My.Rows(My.Group(my.buffer, table)), My.Rows(My.Group(queued, table)));
    Associative(My.Get(cfg.tables, table), My.Rows(My.Group(Received(s.myEvents), table)),
                My.Rows(My.Group(queued, table)));
  }

  lemma RowsOfBoth(a: seq<Delivery>, b: seq<Delivery>, table: string)
    ensures My.Rows(My.Group(a + b, table)) == My.Rows(My.Group(a, table)) + My.Rows(My.Group(b, table))
  {
    My.GroupConcat(a, b, table);
    CollectConcat(My.Group(a, table), My.Group(b, table), My.RowOf);
  }

  // ----- catching up -----

  ghost predicate Reachable(cfg: Config, s: State) {
    exists actions :: CanRun(cfg, actions) && After(cfg, actions) == s
  }

  lemma NextReachable(cfg: Config, s: State, a: Action)
    requires Reachable(cfg, s) && Enabled(cfg, s, a)
    ensures Reachable(cfg, Apply(cfg, s, a))
  {
    var actions :| CanRun(cfg, actions) && After(cfg, actions) == s;
    RunOn(cfg, actions, a);
  }

  lemma RunOn(cfg: Config, actions: seq<Action>, a: Action)
    requires CanRun(cfg, actions) && Enabled(cfg, After(cfg, actions), a)
    ensures CanRun(cfg, actions + [a]) && After(cfg, actions + [a]) == Apply(cfg, After(cfg, actions), a)
  {
    assert (actions + [a])[..|actions|] == actions;
  }

  lemma ReachableOrdered(cfg: Config, s: State)
    requires Routed(cfg) && Reachable(cfg, s)
    ensures Ordered(cfg, s)
  {
    var actions :| CanRun(cfg, actions) && After(cfg, actions) == s;
    RunKeeps(cfg, actions, cfg.myPair.dlq);
  }

  function PgTakeAny(cfg: Config, s: State): State {
    if Enabled(cfg, s, PgTake(true)) then Apply(cfg, s, PgTake(true)) else s
  }

  /** The PostgreSQL consumer takes up to `n` messages. */
  function PgTaking(cfg: Config, s: State, n: nat): State {
    if n == 0 then s else PgTakeAny(cfg, PgTaking(cfg, s, n - 1))
  }

  /** `n` messages have been taken, and nothing has failed. */
  ghost predicate PgTaken(cfg: Config, s: State, t: State, n: nat)
    requires n <= |InQueue(s.contents, cfg.pgPair.queue)|
  {
    && InQueue(t.contents, cfg.pgPair.queue) == InQueue(s.contents, cfg.pgPair.queue)[n..]
    && t.published == s.published
    && (Pg.AllOk(s.pgEvents) ==> Pg.AllOk(t.pgEvents))
  }

  lemma PgTakeOne(cfg: Config, s: State)
    requires Routed(cfg) && Enabled(cfg, s, PgTake(true))
    ensures PgTaken(cfg, s, Apply(cfg, s, PgTake(true)), 1)
  {
    var q := cfg.pgPair.queue;
    PgTurnOrdered(cfg, s.(contents := Pop(s.contents, q)), Arrival(InQueue(s.contents, q)[0], true));
  }

  lemma PgTakesNext(cfg: Config, s: State, t: State, n: nat)
    requires Routed(cfg) && 0 < n <= |InQueue(s.contents, cfg.pgPair.queue)|
    requires PgTaken(cfg, s, t, n - 1) && Enabled(cfg, t, PgTake(true))
    ensures PgTaken(cfg, s, PgTakeAny(cfg, t), n)
  {
    var queued := InQueue(s.contents, cfg.pgPair.queue);
    PgTakeOne(cfg, t);
    assert queued[n - 1..][1..] == queued[n..];
  }

  lemma {:induction false} PgTakes(cfg: Config, s: State, n: nat)
    requires Routed(cfg) && cfg.postgres && n <= |InQueue(s.contents, cfg.pgPair.queue)|
    ensures PgTaken(cfg, s, PgTaking(cfg, s, n), n)
  {
    if n == 0 {
    } else {
      PgTakes(cfg, s, n - 1);
      PgTakesNext(cfg, s, PgTaking(cfg, s, n - 1), n);
    }
  }

  lemma {:induction false} PgTakesReach(cfg: Config, s: State, n: nat)
    requires Reachable(cfg, s)
    ensures Reachable(cfg, PgTaking(cfg, s, n))
  {
    if n == 0 {
    } else {
      PgTakesReach(cfg, s, n - 1);
      PgTakeReaches(cfg, PgTaking(cfg, s, n - 1));
    }
  }

  lemma PgTakeReaches(cfg: Config, s: State)
    requires Reachable(cfg, s)
    ensures Reachable(cfg, PgTakeAny(cfg, s))
  {
    if Enabled(cfg, s, PgTake(true)) {
      NextReachable(cfg, s, PgTake(true));
    }
  }

  lemma PgTickEmpties(cfg: Config, s: State)
    requires Routed(cfg) && cfg.postgres && Ordered(cfg, s) && InQueue(s.contents, cfg.pgPair.queue) == []
    ensures var t := Apply(cfg, s, PgTick(true));
            var pg := PgState(cfg, t);
            && t.published == s.published
            && pg.buffer == []
            && multiset(s.published) == multiset(With(pg.settled, Ack)) + multiset(With(pg.settled, Nack))
            && (Pg.AllOk(s.pgEvents) ==> pg.table == Pg.OneByOne(cfg.totals, s.published))
  {
    assert s.published == Received(s.pgEvents);
    Pg.TickSettlesAll(cfg.totals, cfg.pgBatch, s.pgEvents, true);
    LogSplits(PgState(cfg, Apply(cfg, s, PgTick(true))).settled);
  }

  /** Take everything that is queued, and tick. */
  function PgDrained(cfg: Config, s: State): State
    requires cfg.postgres
  {
    Apply(cfg, PgTaking(cfg, s, |InQueue(s.contents, cfg.pgPair.queue)|), PgTick(true))
  }

  /** From every reachable state the PostgreSQL consumer can catch up: when it has taken what is
      queued and ticked, everything published is acknowledged or rejected; and if no UPSERT has
      ever failed, the totals are those of one UPSERT per published message. */
  lemma PgCatchesUp(cfg: Config, s: State)
    requires Deployed(cfg) && cfg.postgres && Reachable(cfg, s)
    ensures var t := PgDrained(cfg, s);
            var pg := PgState(cfg, t);
            && Reachable(cfg, t)
            && t.published == s.published
            && pg.buffer == []
            && multiset(s.published) == multiset(With(pg.settled, Ack)) + multiset(With(pg.settled, Nack))
            && (Pg.AllOk(s.pgEvents) ==> pg.table == Pg.OneByOne(cfg.totals, s.published))
  {
    var n := |InQueue(s.contents, cfg.pgPair.queue)|;
    var t := PgTaking(cfg, s, n);
    DeployedRoutes(cfg);
    PgTakes(cfg, s, n);
    PgTakesReach(cfg, s, n);
    NextReachable(cfg, t, PgTick(true));
    ReachableOrdered(cfg, t);
    PgTickEmpties(cfg, t);
  }

  function MyTakeAny(cfg: Config, s: State): State {
    if Enabled(cfg, s, MyTake({})) then Apply(cfg, s, MyTake({})) else s
  }

  /** The MySQL consumer takes up to `n` messages. */
  function MyTaking(cfg: Config, s: State, n: nat): State {
    if n == 0 then s else MyTakeAny(cfg, MyTaking(cfg, s, n - 1))
  }

  /** `n` messages have been taken, and nothing has failed. */
  ghost predicate MyTaken(cfg: Config, s: State, t: State, n: nat, table: string)
    requires n <= |InQueue(s.contents, cfg.myPair.queue)|
  {
    && InQueue(t.contents, cfg.myPair.queue) == InQueue(s.contents, cfg.myPair.queue)[n..]
    && t.published == s.published
    && (My.NeverFails(s.myEvents, table) ==> My.NeverFails(t.myEvents, table))
  }

  lemma MyTakeOne(cfg: Config, s: State, table: string)
    requires Routed(cfg) && Enabled(cfg, s, MyTake({}))
    ensures MyTaken(cfg, s, Apply(cfg, s, MyTake({})), 1, table)
  {
    var q := cfg.myPair.queue;
    MyTurnOrdered(cfg, s.(contents := Pop(s.contents, q)), Arrival(InQueue(s.contents, q)[0], {}));
  }

  lemma MyTakesNext(cfg: Config, s: State, t: State, n: nat, table: string)
    requires Routed(cfg) && 0 < n <= |InQueue(s.contents, cfg.myPair.queue)|
    requires MyTaken(cfg, s, t, n - 1, table) && Enabled(cfg, t, MyTake({}))
    ensures MyTaken(cfg, s, MyTakeAny(cfg, t), n, table)
  {
    var queued := InQueue(s.contents, cfg.myPair.queue);
    MyTakeOne(cfg, t, table);
    assert queued[n - 1..][1..] == queued[n..];
  }

  lemma {:induction false} MyTakes(cfg: Config, s: State, n: nat, table: string)
    requires Routed(cfg) && n <= |InQueue(s.contents, cfg.myPair.queue)|
    ensures MyTaken(cfg, s, MyTaking(cfg, s, n), n, table)
  {
    if n == 0 {
    } else {
      MyTakes(cfg, s, n - 1, table);
      MyTakesNext(cfg, s, MyTaking(cfg, s, n - 1), n, table);
    }
  }

  lemma {:induction false} MyTakesReach(cfg: Config, s: State, n: nat)
    requires Reachable(cfg, s)
    ensures Reachable(cfg, MyTaking(cfg, s, n))
  {
    if n == 0 {
    } else {
      MyTakesReach(cfg, s, n - 1);
      MyTakeReaches(cfg, MyTaking(cfg, s, n - 1));
    }
  }

  lemma MyTakeReaches(cfg: Config, s: State)
    requires Reachable(cfg, s)
    ensures Reachable(cfg, MyTakeAny(cfg, s))
  {
    if Enabled(cfg, s, MyTake({})) {
      NextReachable(cfg, s, MyTake({}));
    }
  }

  lemma MyTickEmpties(cfg: Config, s: State, table: string)
    requires Routed(cfg) && Ordered(cfg, s) && InQueue(s.contents, cfg.myPair.queue) == []
    ensures var t := Apply(cfg, s, MyTick({}));
            var my := MyState(cfg, t);
            && t.published == s.published
            && my.buffer == []
            && multiset(s.published) == multiset(With(my.settled, Ack)) + multiset(With(my.settled, Nack))
            && (My.NeverFails(s.myEvents, table) ==>
                  My.Get(my.db, table) == My.Get(cfg.tables, table) + My.Rows(My.Group(s.published, table)))
  {
    assert s.published == Received(s.myEvents);
    My.TickSettlesAll(cfg.tables, cfg.myBatch, s.myEvents, {}, table);
    LogSplits(MyState(cfg, Apply(cfg, s, MyTick({}))).settled);
  }

  /** Take everything that is queued, and tick. */
  function MyDrained(cfg: Config, s: State): State
  {
    Apply(cfg, MyTaking(cfg, s, |InQueue(s.contents, cfg.myPair.queue)|), MyTick({}))
  }

  /** From every reachable state the MySQL consumer can catch up: when it has taken what is queued
      and ticked, everything published is acknowledged or rejected, and a table whose INSERTs have
      never failed has every row published for it. */
  lemma MyCatchesUp(cfg: Config, s: State, table: string)
    requires Deployed(cfg) && Reachable(cfg, s)
    ensures var t := MyDrained(cfg, s);
            var my := MyState(cfg, t);
            && Reachable(cfg, t)
            && t.published == s.published
            && my.buffer == []
            && multiset(s.published) == multiset(With(my.settled, Ack)) + multiset(With(my.settled, Nack))
            && (My.NeverFails(s.myEvents, table) ==>
                  My.Get(my.db, table) == My.Get(cfg.tables, table) + My.Rows(My.Group(s.published, table)))
  {
    var n := |InQueue(s.contents, cfg.myPair.queue)|;
    var t := MyTaking(cfg, s, n);
    DeployedRoutes(cfg);
    MyTakes(cfg, s, n, table);
    MyTakesReach(cfg, s, n);
    NextReachable(cfg, t, MyTick({}));
    ReachableOrdered(cfg, t);
    MyTickEmpties(cfg, t, table);
  }
}
