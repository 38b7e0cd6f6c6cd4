/** The PostgreSQL consumer: deliveries are buffered, and a full buffer or a tick turns the buffer
    into one additive UPSERT and settles it. */
module PostgresConsumer {
  import opened Text
  import opened Messages
  import opened Lists
  import opened Deliveries
  import opened DailyTotals
  import opened PostgresRows

  // ----- the state machine -----

  datatype State = State(buffer: seq<Delivery>, table: Totals, settled: seq<Settlement>)

  /** A consumer that starts on a table with some contents. */
  function Start(table: Totals): State {
    State([], table, [])
  }

  /** Deliveries without a row are acknowledged first; the others get the verdict of the
      statement, which adds the sums of all their rows or nothing. */
  function Flush(st: State, dbOk: bool): State {
    var kept, skipped := Having(st.buffer, RowOf), Lacking(st.buffer, RowOf);
    State(
      [],
      if dbOk then Merge(st.table, TotalOf(RowsOf(st.buffer))) else st.table,
      st.settled + Settle(skipped, Ack) + Settle(kept, if dbOk then Ack else Nack))
  }

  function Receive(st: State, d: Delivery): State {
    if d.body.Message? then st.(buffer := st.buffer + [d])
    else st.(settled := st.settled + [Settlement(d, Nack)])
  }

  /** One turn of the loop of `run`. */
  function Step(st: State, batchSize: nat, e: Event<bool>): State {
    match e
    case Arrival(d, dbOk) =>
      var received := Receive(st, d);
      if |received.buffer| >= batchSize then Flush(received, dbOk) else received
    case Tick(dbOk) => if st.buffer != [] then Flush(st, dbOk) else st
    case _ => st
  }

  /** The state at the loop head after a list of events. */
  function Steps(st: State, batchSize: nat, events: seq<Event<bool>>): State {
    if events == [] then st
    else Step(Steps(st, batchSize, events[..|events| - 1]), batchSize, events[|events| - 1])
  }

  /** The log only grows. */
  lemma LogGrows(st: State, batchSize: nat, e: Event<bool>)
    ensures st.settled <= Step(st, batchSize, e).settled
  {
  }

  // ----- exactly-once settlement -----

  predicate AllMessages(ds: seq<Delivery>) {
    forall i :: 0 <= i < |ds| ==> ds[i].body.Message?
  }

  lemma FlushSettles(st: State, dbOk: bool)
    ensures var kept, skipped := Having(st.buffer, RowOf), Lacking(st.buffer, RowOf);
            && Settled(Flush(st, dbOk).settled) == Settled(st.settled) + skipped + kept
            && With(Flush(st, dbOk).settled, Ack)
               == With(st.settled, Ack) + skipped + (if dbOk then kept else [])
            && multiset(st.buffer) == multiset(kept) + multiset(skipped)
  {
    var kept, skipped := Having(st.buffer, RowOf), Lacking(st.buffer, RowOf);
    var verdict := if dbOk then Ack else Nack;
    var first := st.settled + Settle(skipped, Ack);
    HalvesOf(st.buffer, RowOf);
    SettledBy(skipped, Ack);
    SettledBy(kept, verdict);
    SettledConcat(st.settled, Settle(skipped, Ack));
    SettledConcat(first, Settle(kept, verdict));
    WithConcat(st.settled, Settle(skipped, Ack), Ack);
    WithConcat(first, Settle(kept, verdict), Ack);
  }

  /** What every turn keeps: a delivery is buffered or settled once. */
  ghost predicate Accounted(st: State, received: seq<Delivery>, batchSize: nat) {
    |st.buffer| < Max(1, batchSize) && Counted(st, received)
  }

  ghost predicate Counted(st: State, received: seq<Delivery>) {
    && AllMessages(st.buffer)
    && multiset(received) == multiset(Settled(st.settled)) + multiset(st.buffer)
  }

  lemma FlushAccounts(st: State, received: seq<Delivery>, batchSize: nat, dbOk: bool)
    requires Counted(st, received)
    ensures Accounted(Flush(st, dbOk), received, batchSize)
  {
    FlushSettles(st, dbOk);
  }

  lemma ReceiveAccounts(st: State, received: seq<Delivery>, d: Delivery)
    requires Counted(st, received)
    ensures Counted(Receive(st, d), received + [d])
  {
    if !d.body.Message? {
      var log := st.settled + [Settlement(d, Nack)];
      assert log[..|log| - 1] == st.settled;
    }
  }

  lemma StepAccounts(st: State, received: seq<Delivery>, batchSize: nat, e: Event<bool>)
    requires Accounted(st, received, batchSize)
    ensures Accounted(Step(st, batchSize, e), if e.Arrival? then received + [e.delivery] else received, batchSize)
  {
    match e
    case Arrival(d, dbOk) =>
      ReceiveAccounts(st, received, d);
      if |Receive(st, d).buffer| >= batchSize {
        FlushAccounts(Receive(st, d), received + [d], batchSize, dbOk);
      }
    case Tick(dbOk) =>
      FlushAccounts(st, received, batchSize, dbOk);
    case _ =>
  }

  /** Exactly-once settlement: at every loop head the buffer is short of a batch, and the
      deliveries received are exactly those settled, each by one ack or nack, and those buffered. */
  lemma {:induction false} ExactlyOnce(t: Totals, batchSize: nat, events: seq<Event<bool>>)
    ensures Accounted(Steps(Start(t), batchSize, events), Received(events), batchSize)
  {
    if events == [] {
    } else {
      var before, e := events[..|events| - 1], events[|events| - 1];
      ExactlyOnce(t, batchSize, before);
      StepAccounts(Steps(Start(t), batchSize, before), Received(before), batchSize, e);
    }
  }

  // ----- the totals are those of one UPSERT per message -----

  /** The reference: each convertible message runs its own one-row UPSERT, in order. */
  function OneByOne(t: Totals, ds: seq<Delivery>): Totals {
    if ds == [] then t
    else
      var u, last := OneByOne(t, ds[..|ds| - 1]), ds[|ds| - 1];
      match RowOf(last)
      case None => u
      case Some(row) => Upsert(u, [row]).GetOr(u)
  }

  lemma UpsertOne(t: Totals, row: DailyRow)
    ensures Upsert(t, [row]) == Some(UpsertRow(t, row))
  {
    var rows := [row];
    assert rows[..0] == [];
  }

  lemma {:induction false} OneByOneAdds(t: Totals, ds: seq<Delivery>)
    ensures OneByOne(t, ds) == Merge(t, TotalOf(RowsOf(ds)))
  {
    if ds == [] {
      MergeEmpty(t);
    } else {
      var init, last := ds[..|ds| - 1], ds[|ds| - 1];
      OneByOneAdds(t, init);
      match RowOf(last)
      case None =>
      case Some(row) =>
        UpsertOne(OneByOne(t, init), row);
        UpsertRowAdds(OneByOne(t, init), row);
        TotalOfOneMore(t, RowsOf(init), row);
    }
  }

  lemma {:induction false} OneByOneConcat(t: Totals, a: seq<Delivery>, b: seq<Delivery>)
    ensures OneByOne(t, a + b) == OneByOne(OneByOne(t, a), b)
  {
    if b == [] {
      assert a + b == a;
    } else {
      OneByOneConcat(t, a, b[..|b| - 1]);
      Init(a, b);
    }
  }

  lemma TotalOfOneMore(t: Totals, rows: seq<DailyRow>, row: DailyRow)
    ensures Merge(t, TotalOf(rows + [row])) == Merge(Merge(t, TotalOf(rows)), map[row.key := row.sums])
  {
    assert (rows + [row])[..|rows|] == rows;
    MergeAssociative(t, TotalOf(rows), map[row.key := row.sums]);
  }

  /** The table holds its first contents and the rows of the acknowledged deliveries. */
  ghost predicate Booked(st: State, t: Totals) {
    st.table == Merge(t, TotalOf(RowsOf(With(st.settled, Ack))))
  }

  lemma FlushBooks(st: State, t: Totals, dbOk: bool)
    requires Booked(st, t)
    ensures Booked(Flush(st, dbOk), t)
  {
    var acked := With(st.settled, Ack);
    var kept, skipped := Having(st.buffer, RowOf), Lacking(st.buffer, RowOf);
    FlushSettles(st, dbOk);
    ImagesOfHalves(st.buffer, RowOf);
    CollectConcat(acked, skipped, RowOf);
    CollectConcat(acked + skipped, kept, RowOf);
    TotalOfConcat(RowsOf(acked), RowsOf(kept));
    MergeAssociative(t, TotalOf(RowsOf(acked)), TotalOf(RowsOf(kept)));
    assert RowsOf(acked) + [] == RowsOf(acked);
    assert acked + skipped + [] == acked + skipped;
  }

  lemma ReceiveBooks(st: State, t: Totals, d: Delivery)
    requires Booked(st, t)
    ensures Booked(Receive(st, d), t)
  {
    if !d.body.Message? {
      var log := st.settled + [Settlement(d, Nack)];
      assert log[..|log| - 1] == st.settled;
    }
  }

  lemma {:induction false} TableIsBooked(t: Totals, batchSize: nat, events: seq<Event<bool>>)
    ensures Booked(Steps(Start(t), batchSize, events), t)
  {
    if events == [] {
      MergeEmpty(t);
    } else {
      var before, e := events[..|events| - 1], events[|events| - 1];
      TableIsBooked(t, batchSize, before);
      var st := Steps(Start(t), batchSize, before);
      match e
      case Arrival(d, dbOk) =>
        ReceiveBooks(st, t, d);
        FlushBooks(Receive(st, d), t, dbOk);
      case Tick(dbOk) =>
        FlushBooks(st, t, dbOk);
      case _ =>
    }
  }

  /** Batch refinement: after any run, whatever the batch size, the ticks and the outcomes of
      the statements, the table is what one UPSERT per acknowledged message would have made it. */
  lemma BatchRefinement(t: Totals, batchSize: nat, events: seq<Event<bool>>)
    ensures var st := Steps(Start(t), batchSize, events);
            st.table == OneByOne(t, With(st.settled, Ack))
  {
    TableIsBooked(t, batchSize, events);
    OneByOneAdds(t, With(Steps(Start(t), batchSize, events).settled, Ack));
  }

  predicate AllOk(events: seq<Event<bool>>) {
    forall i :: 0 <= i < |events| && (events[i].Arrival? || events[i].Tick?) ==> events[i].outcome
  }

  /** In arrival order, the rows booked and the rows buffered are the rows received. */
  ghost predicate InOrder(st: State, received: seq<Delivery>) {
    RowsOf(With(st.settled, Ack)) + RowsOf(st.buffer) == RowsOf(received)
  }

  lemma FlushInOrder(st: State, received: seq<Delivery>)
    requires InOrder(st, received)
    ensures InOrder(Flush(st, true), received)
  {
    var acked := With(st.settled, Ack);
    var kept, skipped := Having(st.buffer, RowOf), Lacking(st.buffer, RowOf);
    FlushSettles(st, true);
    ImagesOfHalves(st.buffer, RowOf);
    CollectConcat(acked, skipped, RowOf);
    CollectConcat(acked + skipped, kept, RowOf);
    assert RowsOf(acked) + [] == RowsOf(acked);
  }

  lemma ReceiveInOrder(st: State, received: seq<Delivery>, d: Delivery)
    requires InOrder(st, received)
    ensures InOrder(Receive(st, d), received + [d])
  {
    CollectConcat(received, [d], RowOf);
    One(d, RowOf);
    if d.body.Message? {
      CollectConcat(st.buffer, [d], RowOf);
      Associative(RowsOf(With(st.settled, Ack)), RowsOf(st.buffer), RowsOf([d]));
    } else {
      var log := st.settled + [Settlement(d, Nack)];
      assert log[..|log| - 1] == st.settled;
      assert RowsOf(received) + [] == RowsOf(received);
    }
  }

  lemma {:induction false} RowsStayInOrder(t: Totals, batchSize: nat, events: seq<Event<bool>>)
    requires AllOk(events)
    ensures InOrder(Steps(Start(t), batchSize, events), Received(events))
  {
    if events == [] {
    } else {
      var before, e := events[..|events| - 1], events[|events| - 1];
      RowsStayInOrder(t, batchSize, before);
      var st, received := Steps(Start(t), batchSize, before), Received(before);
      match e
      case Arrival(d, dbOk) =>
        ReceiveInOrder(st, received, d);
        FlushInOrder(Receive(st, d), received + [d]);
      case Tick(dbOk) =>
        FlushInOrder(st, received);
      case _ =>
    }
  }

  /** When every UPSERT succeeds, upserting the messages still buffered one by one gives exactly
      the table of upserting all messages received one by one: batching only delays. */
  lemma BatchingOnlyDelays(t: Totals, batchSize: nat, events: seq<Event<bool>>)
    requires AllOk(events)
    ensures var st := Steps(Start(t), batchSize, events);
            OneByOne(st.table, st.buffer) == OneByOne(t, Received(events))
  {
    var st := Steps(Start(t), batchSize, events);
    TableIsBooked(t, batchSize, events);
    RowsStayInOrder(t, batchSize, events);
    OneByOneAdds(st.table, st.buffer);
    OneByOneAdds(t, Received(events));
    TotalOfConcat(RowsOf(With(st.settled, Ack)), RowsOf(st.buffer));
    MergeAssociative(t, TotalOf(RowsOf(With(st.settled, Ack))), TotalOf(RowsOf(st.buffer)));
  }

  // ----- when deliveries leave the buffer, and how -----

  /** The buffer at every loop head: of the messages since the last tick, those left over when
      whole batches have been taken off, whatever the outcomes of the statements. */
  lemma {:induction false} BufferIsLeftOver(t: Totals, batchSize: nat, events: seq<Event<bool>>)
    ensures Steps(Start(t), batchSize, events).buffer == LeftOver(SinceTick(events, MessageIn), batchSize)
  {
    if events == [] {
    } else {
      var before, e := events[..|events| - 1], events[|events| - 1];
      BufferIsLeftOver(t, batchSize, before);
      BufferNext(Steps(Start(t), batchSize, before), batchSize, SinceTick(before, MessageIn), e);
    }
  }

  lemma BufferNext(st: State, batchSize: nat, pending: seq<Delivery>, e: Event<bool>)
    requires st.buffer == LeftOver(pending, batchSize)
    ensures Step(st, batchSize, e).buffer
            == LeftOver(if e.Tick? then []
                        else if e.Arrival? && e.delivery.body.Message? then pending + [e.delivery]
                        else pending, batchSize)
  {
    if e.Arrival? && e.delivery.body.Message? {
      LeftOverNext(pending, e.delivery, batchSize);
    }
  }

  lemma StepsTick(st: State, batchSize: nat, events: seq<Event<bool>>, dbOk: bool)
    ensures Steps(st, batchSize, events + [Tick(dbOk)]) == Step(Steps(st, batchSize, events), batchSize, Tick(dbOk))
    ensures Received(events + [Tick(dbOk)]) == Received(events)
  {
    assert (events + [Tick(dbOk)])[..|events|] == events;
  }

  /** A tick empties the buffer: everything received is settled then, and if no statement has
      failed, the table is what one UPSERT per received message makes it. */
  lemma TickSettlesAll(t: Totals, batchSize: nat, events: seq<Event<bool>>, dbOk: bool)
    ensures var st := Steps(Start(t), batchSize, events + [Tick(dbOk)]);
            && st.buffer == []
            && multiset(Settled(st.settled)) == multiset(Received(events))
            && (AllOk(events) && dbOk ==> st.table == OneByOne(t, Received(events)))
  {
    StepsTick(Start(t), batchSize, events, dbOk);
    assert Steps(Start(t), batchSize, events + [Tick(dbOk)]).buffer == [];
    ExactlyOnce(t, batchSize, events + [Tick(dbOk)]);
    if AllOk(events) && dbOk {
      BatchingOnlyDelays(t, batchSize, events + [Tick(dbOk)]);
    }
  }

  /** Garbage is rejected, and a message without a row is acknowledged. */
  predicate Proper(s: Settlement) {
    match s.delivery.body
    case Garbage => s.verdict == Nack
    case Message(msg) => ToDailyRow(msg) == None ==> s.verdict == Ack
  }

  predicate AllProper(log: seq<Settlement>) {
    forall i :: 0 <= i < |log| ==> Proper(log[i])
  }

  lemma {:induction false} HalvesAre<B>(ds: seq<Delivery>, f: Delivery -> Option<B>)
    ensures forall i :: 0 <= i < |Having(ds, f)| ==> Having(ds, f)[i] in ds && f(Having(ds, f)[i]).Some?
    ensures forall i :: 0 <= i < |Lacking(ds, f)| ==> Lacking(ds, f)[i] in ds && f(Lacking(ds, f)[i]).None?
  {
    if ds == [] {
    } else {
      HalvesAre(ds[..|ds| - 1], f);
    }
  }

  lemma FlushProper(st: State, dbOk: bool)
    requires AllProper(st.settled) && AllMessages(st.buffer)
    ensures AllProper(Flush(st, dbOk).settled)
  {
    HalvesAre(st.buffer, RowOf);
    var skipped, kept := Lacking(st.buffer, RowOf), Having(st.buffer, RowOf);
    assert AllProper(Settle(skipped, Ack));
    assert AllProper(Settle(kept, if dbOk then Ack else Nack));
  }

  /** In every run each settlement is proper. */
  lemma {:induction false} RunsAreProper(t: Totals, batchSize: nat, events: seq<Event<bool>>)
    ensures AllProper(Steps(Start(t), batchSize, events).settled)
  {
    if events == [] {
    } else {
      var before, e := events[..|events| - 1], events[|events| - 1];
      RunsAreProper(t, batchSize, before);
      var st := Steps(Start(t), batchSize, before);
      ExactlyOnce(t, batchSize, before);
      match e
      case Arrival(d, dbOk) =>
        FlushProper(Receive(st, d), dbOk);
      case Tick(dbOk) =>
        FlushProper(st, dbOk);
      case _ =>
    }
  }

  /** If no statement fails, exactly the garbage is rejected, in arrival order. */
  lemma {:induction false} OnlyGarbageRejected(t: Totals, batchSize: nat, events: seq<Event<bool>>)
    requires AllOk(events)
    ensures With(Steps(Start(t), batchSize, events).settled, Nack) == Lacking(Received(events), MessageIn)
  {
    if events == [] {
    } else {
      var before, e := events[..|events| - 1], events[|events| - 1];
      OnlyGarbageRejected(t, batchSize, before);
      var st := Steps(Start(t), batchSize, before);
      match e
      case Arrival(d, dbOk) =>
        ReceiveRejects(st, Received(before), d);
        FlushRejects(Receive(st, d));
      case Tick(dbOk) =>
        FlushRejects(st);
      case _ =>
    }
  }

  lemma FlushRejects(st: State)
    ensures With(Flush(st, true).settled, Nack) == With(st.settled, Nack)
  {
    var kept, skipped := Having(st.buffer, RowOf), Lacking(st.buffer, RowOf);
    SettledBy(skipped, Ack);
    SettledBy(kept, Ack);
    WithConcat(st.settled, Settle(skipped, Ack), Nack);
    WithConcat(st.settled + Settle(skipped, Ack), Settle(kept, Ack), Nack);
  }

  lemma ReceiveRejects(st: State, received: seq<Delivery>, d: Delivery)
    requires With(st.settled, Nack) == Lacking(received, MessageIn)
    ensures With(Receive(st, d).settled, Nack) == Lacking(received + [d], MessageIn)
  {
    assert (received + [d])[..|received|] == received;
    if !d.body.Message? {
      var log := st.settled + [Settlement(d, Nack)];
      assert log[..|log| - 1] == st.settled;
    }
  }

  // ----- overflow over whole runs -----

  lemma BufferIsReceived(t: Totals, batchSize: nat, events: seq<Event<bool>>)
    ensures forall d :: d in Steps(Start(t), batchSize, events).buffer ==> d in Received(events)
  {
    ExactlyOnce(t, batchSize, events);
    var st := Steps(Start(t), batchSize, events);
    assert forall d :: d in st.buffer ==> d in multiset(st.buffer);
    assert forall d :: d in multiset(Received(events)) ==> d in Received(events);
  }

  /** If every message came from the listeners and a batch is at most 922,337,203 messages, no
      batch of any run overflows: neither the one a tick would flush nor the one the next
      message completes. */
  lemma RunNeverOverflows(t: Totals, batchSize: nat, events: seq<Event<bool>>, next: Delivery, n: nat, k: Key)
    requires 1 <= batchSize <= MAX_SAFE_BATCH
    requires AllFromListeners(Received(events) + [next])
    ensures var batch := Steps(Start(t), batchSize, events).buffer + [next];
            n <= |batch| ==> Within(Get(TotalOf(RowsOf(batch[..n])), k), I64_MAX, I32_MAX)
  {
    var batch := Steps(Start(t), batchSize, events).buffer + [next];
    ExactlyOnce(t, batchSize, events);
    BufferIsReceived(t, batchSize, events);
    var all := Received(events) + [next];
    forall i | 0 <= i < |batch| && batch[i].body.Message?
      ensures FromListeners(batch[i].body.msg)
    {
      assert batch[i] in all;
      var j :| 0 <= j < |all| && all[j] == batch[i];
    }
    if n <= |batch| {
      NoOverflow(batch, n, k);
    }
  }

  // ----- the twelve column arrays -----

  datatype Columns = Columns(
    ts: seq<int>, bid: seq<string>, mid: seq<string>, psn: seq<string>,
    cardA: seq<int>, cardC: seq<int>, cashA: seq<int>, cashC: seq<int>,
    cancA: seq<int>, cancC: seq<int>, othrA: seq<int>, othrC: seq<int>)

  /** All twelve arrays have `n` elements. */
  predicate Aligned(c: Columns, n: nat) {
    && |c.ts| == |c.bid| == |c.mid| == |c.psn| == n
    && |c.cardA| == |c.cardC| == |c.cashA| == |c.cashC| == n
    && |c.cancA| == |c.cancC| == |c.othrA| == |c.othrC| == n
  }

  /** The row that UNNEST makes of index `i`. */
  function RowAt(c: Columns, i: nat): DailyRow
    requires Aligned(c, |c.ts|) && i < |c.ts|
  {
    DailyRow(
      Key(c.ts[i], c.bid[i], c.mid[i], c.psn[i]),
      Buckets(c.cardA[i], c.cardC[i], c.cashA[i], c.cashC[i], c.cancA[i], c.cancC[i], c.othrA[i], c.othrC[i]))
  }

  function Unnest(c: Columns): (rows: seq<DailyRow>)
    requires Aligned(c, |c.ts|)
    ensures |rows| == |c.ts|
  {
    seq(|c.ts|, i requires 0 <= i < |c.ts| => RowAt(c, i))
  }

  method ToColumns(rows: seq<DailyRow>) returns (c: Columns)
    ensures Aligned(c, |rows|)
    ensures Unnest(c) == rows
  {
    c := Columns([], [], [], [], [], [], [], [], [], [], [], []);
    for n := 0 to |rows|
      invariant Aligned(c, n)
      invariant forall i :: 0 <= i < n ==> RowAt(c, i) == rows[i]
    {
      var r := rows[n];
      c := Columns(
        c.ts + [r.key.tsUnix], c.bid + [r.key.bid], c.mid + [r.key.mid], c.psn + [r.key.psn],
        c.cardA + [r.sums.cardAmount], c.cardC + [r.sums.cardCount],
        c.cashA + [r.sums.cashAmount], c.cashC + [r.sums.cashCount],
        c.cancA + [r.sums.cancelAmount], c.cancC + [r.sums.cancelCount],
        c.othrA + [r.sums.otherAmount], c.othrC + [r.sums.otherCount]);
    }
  }

  // ----- the aggregation map -----

  /** The rows of the map carry their own keys. */
  ghost predicate Keyed(agg: map<Key, DailyRow>) {
    forall k :: k in agg ==> agg[k].key == k
  }

  function Sums(agg: map<Key, DailyRow>): Totals {
    map k | k in agg :: agg[k].sums
  }

  /** The entry of the row's key, or a zero row, plus the row. */
  function Accumulate(agg: map<Key, DailyRow>, row: DailyRow): map<Key, DailyRow> {
    var entry := if row.key in agg then agg[row.key] else DailyRow(row.key, ZERO);
    agg[row.key := entry.(sums := Plus(entry.sums, row.sums))]
  }

  lemma Accumulates(agg: map<Key, DailyRow>, rows: seq<DailyRow>, row: DailyRow)
    requires Keyed(agg) && Sums(agg) == TotalOf(rows)
    ensures Keyed(Accumulate(agg, row)) && Sums(Accumulate(agg, row)) == TotalOf(rows + [row])
  {
    SumsOfAccumulate(agg, row);
    assert (rows + [row])[..|rows|] == rows;
  }

  lemma SumsOfAccumulate(agg: map<Key, DailyRow>, row: DailyRow)
    requires Keyed(agg)
    ensures Sums(Accumulate(agg, row)) == Merge(Sums(agg), map[row.key := row.sums])
  {
    var left, right := Sums(Accumulate(agg, row)), Merge(Sums(agg), map[row.key := row.sums]);
    assert left.Keys == agg.Keys + {row.key} == right.Keys;
    forall k | k in left
      ensures left[k] == right[k]
    {
      GetMerge(Sums(agg), map[row.key := row.sums], k);
    }
  }

  /** The map sums up the rows of some deliveries, the group holds those that have a row, and the
      others have been acknowledged. */
  ghost predicate Aggregated(agg: map<Key, DailyRow>, group: seq<Delivery>,
                             before: seq<Settlement>, settled: seq<Settlement>, ds: seq<Delivery>) {
    && Keyed(agg) && Sums(agg) == TotalOf(RowsOf(ds))
    && group == Having(ds, RowOf)
    && settled == before + Settle(Lacking(ds, RowOf), Ack)
  }

  lemma AggregatedNext(agg: map<Key, DailyRow>, group: seq<Delivery>,
                       before: seq<Settlement>, settled: seq<Settlement>, ds: seq<Delivery>, n: nat)
    requires n < |ds| && Aggregated(agg, group, before, settled, ds[..n])
    ensures (match RowOf(ds[n])
             case Some(row) => Aggregated(Accumulate(agg, row), group + [ds[n]], before, settled, ds[..n + 1])
             case None => Aggregated(agg, group, before, settled + [Settlement(ds[n], Ack)], ds[..n + 1]))
  {
    Next(ds, n, RowOf);
    match RowOf(ds[n])
    case Some(row) =>
      Accumulates(agg, RowsOf(ds[..n]), row);
    case None =>
      SettleOneMore(Lacking(ds[..n], RowOf), ds[n], Ack);
      Associative(before, Settle(Lacking(ds[..n], RowOf), Ack), [Settlement(ds[n], Ack)]);
  }

  /** `agg.into_values()`: the rows of the map, in an order nobody knows. */
  method IntoValues(agg: map<Key, DailyRow>) returns (rows: seq<DailyRow>)
    requires Keyed(agg)
    ensures DistinctKeys(rows)
    ensures TotalOf(rows) == Sums(agg)
  {
    rows := [];
    var left := agg.Keys;
    assert agg - left == map[];
    while left != {}
      invariant left <= agg.Keys
      invariant DistinctKeys(rows)
      invariant forall row :: row in rows ==> row.key !in left
      invariant TotalOf(rows) == Sums(agg - left)
      decreases left
    {
      var k :| k in left;
      NextRow(agg, left, rows, k);
      rows := rows + [agg[k]];
      left := left - {k};
    }
    assert agg - left == agg;
  }

  lemma NextRow(agg: map<Key, DailyRow>, left: set<Key>, rows: seq<DailyRow>, k: Key)
    requires k in left && left <= agg.Keys && agg[k].key == k
    requires DistinctKeys(rows) && forall row :: row in rows ==> row.key !in left
    requires TotalOf(rows) == Sums(agg - left)
    ensures DistinctKeys(rows + [agg[k]])
    ensures forall row :: row in rows + [agg[k]] ==> row.key !in left - {k}
    ensures TotalOf(rows + [agg[k]]) == Sums(agg - (left - {k}))
  {
    DistinctAppend(rows, agg[k]);
    SumsStep(agg, left, k);
    assert (rows + [agg[k]])[..|rows|] == rows;
  }

  lemma SumsStep(agg: map<Key, DailyRow>, left: set<Key>, k: Key)
    requires k in left && left <= agg.Keys
    ensures Sums(agg - (left - {k})) == Merge(Sums(agg - left), map[k := agg[k].sums])
  {
    var before, after := Sums(agg - left), Sums(agg - (left - {k}));
    var merged := Merge(before, map[k := agg[k].sums]);
    assert after.Keys == merged.Keys;
    assert forall j :: j in after ==> after[j] == merged[j];
  }

  lemma DistinctAppend(rows: seq<DailyRow>, row: DailyRow)
    requires DistinctKeys(rows) && forall r :: r in rows ==> r.key != row.key
    ensures DistinctKeys(rows + [row])
  {
    assert forall i :: 0 <= i < |rows| ==> rows[i] in rows;
  }

  // ----- the consumer -----

  class Consumer {
    const batchSize: nat
    var deliveries: seq<Delivery>
    var messages: seq<QueueMessage>
    /** The database table. */
    var table: Totals
    /** The acks and nacks sent, in order. */
    var settled: seq<Settlement>

    /** Entry i of one buffer belongs to entry i of the other. */
    ghost predicate Valid()
      reads this
    {
      && |deliveries| == |messages|
      && forall i :: 0 <= i < |deliveries| ==> deliveries[i].body == Message(messages[i])
    }

    ghost function Abstract(): State
      reads this
    {
      State(deliveries, table, settled)
    }

    constructor (batchSize: nat, table: Totals)
      ensures this.batchSize == batchSize && Valid() && Abstract() == Start(table)
    {
      this.batchSize := batchSize;
      this.table := table;
      deliveries, messages, settled := [], [], [];
    }

    method SettleAll(ds: seq<Delivery>, verdict: Verdict)
      modifies this`settled
      ensures settled == old(settled) + Settle(ds, verdict)
    {
      for n := 0 to |ds|
        invariant settled == old(settled) + Settle(ds[..n], verdict)
      {
        settled := settled + [Settlement(ds[n], verdict)];
        assert ds[..n + 1] == ds[..n] + [ds[n]];
        SettleOneMore(ds[..n], ds[n], verdict);
      }
      assert ds[..|ds|] == ds;
    }

    /** The first loop of `flush`: rows with the same key are added up, and deliveries without a
        row are acknowledged at once. */
    method Aggregate() returns (agg: map<Key, DailyRow>, group: seq<Delivery>)
      requires Valid()
      modifies this`settled
      ensures Aggregated(agg, group, old(settled), settled, deliveries)
    {
      agg, group := map[], [];
      for n := 0 to |deliveries|
        invariant deliveries == old(deliveries) && messages == old(messages)
        invariant Aggregated(agg, group, old(settled), settled, deliveries[..n])
      {
        AggregatedNext(agg, group, old(settled), settled, deliveries, n);
        match ToDailyRow(messages[n]) {
          case Some(row) =>
            group := group + [deliveries[n]];
            agg := Accumulate(agg, row);
          case None =>
            settled := settled + [Settlement(deliveries[n], Ack)];
        }
      }
      assert deliveries[..|deliveries|] == deliveries;
    }

    /** `flush`. Since the keys of the statement are distinct, it fails only if the database says
        so, and the order in which the map is read does not matter. */
    method FlushBatch(dbOk: bool)
      requires Valid()
      modifies this
      ensures Valid() && Abstract() == Flush(old(Abstract()), dbOk)
    {
      var agg, group := Aggregate();
      ghost var batch := deliveries;
      deliveries, messages := [], [];
      if |group| == 0 {
        NoRows(batch);
        MergeEmpty(table);
        return;
      }
      var rows := IntoValues(agg);
      var columns := ToColumns(rows);
      UpsertAdds(table, rows);
      var result := if dbOk then Upsert(table, Unnest(columns)) else None;
      match result {
        case Some(t) =>
          table := t;
          SettleAll(group, Ack);
        case None =>
          SettleAll(group, Nack);
      }
    }

    /** The arm of `select!` for a delivery, up to the size check. */
    method OnDelivery(delivery: Delivery)
      requires Valid()
      modifies this
      ensures Valid() && Abstract() == Receive(old(Abstract()), delivery)
    {
      match delivery.body {
        case Message(msg) =>
          messages := messages + [msg];
          deliveries := deliveries + [delivery];
        case Garbage =>
          settled := settled + [Settlement(delivery, Nack)];
      }
    }

    /** The body of the loop. */
    method Turn(event: Event<bool>)
      requires Valid()
      modifies this
      ensures Valid() && Abstract() == Step(old(Abstract()), batchSize, event)
    {
      match event {
        case Arrival(delivery, dbOk) =>
          OnDelivery(delivery);
          if |messages| >= batchSize {
            FlushBatch(dbOk);
          }
        case Tick(dbOk) =>
          if |messages| != 0 {
            FlushBatch(dbOk);
          }
        case _ =>
      }
    }

    /** `run` over the events that the select loop sees. */
    method Run(events: seq<Event<bool>>)
      requires Valid()
      modifies this
      ensures Valid() && Abstract() == Steps(old(Abstract()), batchSize, UpToStop(events))
    {
      ghost var live := UpToStop(events);
      var n := 0;
      while n < |events| && !events[n].StreamEnd? && !events[n].ChannelError?
        invariant n <= |live|
        invariant Valid() && Abstract() == Steps(old(Abstract()), batchSize, live[..n])
        decreases |events| - n
      {
        assert n < |live|;
        StepsNext(old(Abstract()), batchSize, live, n);
        Turn(events[n]);
        n := n + 1;
      }
      assert live[..n] == live;
    }
  }

  lemma StepsNext(st: State, batchSize: nat, events: seq<Event<bool>>, n: nat)
    requires n < |events|
    ensures Steps(st, batchSize, events[..n + 1]) == Step(Steps(st, batchSize, events[..n]), batchSize, events[n])
  {
    assert events[..n + 1][..n] == events[..n];
  }

  lemma NoRows(ds: seq<Delivery>)
    requires Having(ds, RowOf) == []
    ensures RowsOf(ds) == []
  {
    ImagesOfHalves(ds, RowOf);
  }
}
