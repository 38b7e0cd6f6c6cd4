/** The MySQL consumer: rows are buffered, grouped by table, and each group is inserted and
    settled on its own. */
module MysqlConsumer {
  import opened Text
  import opened Messages
  import opened Lists
  import opened Deliveries
  import Amounts

  // ----- rows -----

  datatype KiccRow = KiccRow(
    table: string, bid: string, tid: string, mid: string, psn: string, nick: string,
    tranType: string, cardNumber: string, amount: int, resCode: string, trNo: string,
    acquirer: string, approve: string, date: string, datetime: string)

  predicate IsAlphanumeric(c: char) {
    IsDigit(c) || 'a' <= c <= 'z' || 'A' <= c <= 'Z'
  }

  const TABLE_PREFIX := "kicc_b"

  /** The table of a business number: 1 to 20 letters and digits, once trimmed. */
  function ResolveTable(key: Option<string>): Option<string> {
    match key
    case None => None
    case Some(text) =>
      var k := Trim(text);
      if k == "" || |k| > 20 || !(forall i :: 0 <= i < |k| ==> IsAlphanumeric(k[i])) then None
      else Some(TABLE_PREFIX + k)
  }

  /** Two business numbers share a table exactly when they agree once trimmed. */
  lemma TablesOfKeys(a: string, b: string)
    requires ResolveTable(Some(a)).Some? && ResolveTable(Some(b)).Some?
    ensures ResolveTable(Some(a)) == ResolveTable(Some(b)) <==> Trim(a) == Trim(b)
  {
    if ResolveTable(Some(a)) == ResolveTable(Some(b)) {
      assert Trim(a) == ResolveTable(Some(a)).value[|TABLE_PREFIX|..];
      assert Trim(b) == ResolveTable(Some(b)).value[|TABLE_PREFIX|..];
    }
  }

  /** One to twenty digits and letters name a table, with or without blanks around them. */
  lemma TableOfNumber(before: string, k: string, after: string)
    requires AllBlank(before) && AllBlank(after) && 1 <= |k| <= 20
    requires forall i :: 0 <= i < |k| ==> '0' <= k[i] <= '9' || 'a' <= k[i] <= 'z' || 'A' <= k[i] <= 'Z'
    ensures ResolveTable(Some(k)) == ResolveTable(Some(before + (k + after))) == Some("kicc_b" + k)
  {
    TrimTrimmed(k);
    NotBlank(k[0]);
    NotBlank(k[|k| - 1]);
    TrimBlanks(before, k, after);
  }

  lemma NotBlank(c: char)
    requires c > ' '
    ensures !AllBlank([c])
  {
    assert [c][0] == c;
  }

  /** Nothing else does. */
  lemma NoTable(text: string)
    requires var k := Trim(text);
             || k == "" || |k| > 20
             || exists i :: 0 <= i < |k| && !('0' <= k[i] <= '9') && !('a' <= k[i] <= 'z') && !('A' <= k[i] <= 'Z')
    ensures ResolveTable(Some(text)) == ResolveTable(None) == None
  {
    var k := Trim(text);
    if k != "" && |k| <= 20 {
      var i :| 0 <= i < |k| && !('0' <= k[i] <= '9') && !('a' <= k[i] <= 'z') && !('A' <= k[i] <= 'Z');
      assert !IsAlphanumeric(k[i]);
    }
  }

  function FormatDatetime(date: string, time: string): string {
    if |date| == 8 && |time| == 6 then
      date[..4] + "-" + date[4..6] + "-" + date[6..8] + " " + time[..2] + ":" + time[2..4] + ":" + time[4..6]
    else ""
  }

  function Take(s: string, n: nat): string {
    if |s| <= n then s else s[..n]
  }

  function Column(p: Payload, f: Field): string {
    Trim(Member(p, f, ""))
  }

  /** `to_kicc_row`: no row without a usable table key. */
  function ToKiccRow(msg: QueueMessage): Option<KiccRow> {
    match ResolveTable(msg.tableKey)
    case None => None
    case Some(table) => Some(RowIn(table, msg.tableKey.GetOr(""), msg.payload))
  }

  function RowIn(table: string, bid: string, p: Payload): (row: KiccRow)
    ensures row.table == table
  {
    var date, time := Column(p, ApprovalDate), Column(p, ApprovalTime);
    KiccRow(
      table,
      bid,
      Column(p, TranUniqueNbr),
      Take(Column(p, MerchantNo), 8),
      Column(p, TerminalNo),
      Column(p, IssuerName),
      Take(Column(p, CancelFlag), 1),
      Take(Column(p, CardNo), 10),
      Amounts.ParseAmount(Member(p, Amount, "0")),
      Column(p, ResponseCode),
      Column(p, TranUniqueNbr),
      Column(p, AcquirerName),
      Column(p, ApprovalNo),
      date + time,
      FormatDatetime(date, time))
  }

  function RowOf(d: Delivery): Option<KiccRow> {
    match d.body
    case Message(msg) => ToKiccRow(msg)
    case Garbage => None
  }

  /** In the row of any message the business number is the key as it came, and members that the
      payload lacks leave their columns empty or zero. */
  lemma RowOfAnyMessage(msg: QueueMessage)
    requires ToKiccRow(msg).Some?
    ensures var row := ToKiccRow(msg).value;
            && msg.tableKey == Some(row.bid)
            && row.table == "kicc_b" + Trim(row.bid)
            && (TerminalNo !in msg.payload ==> row.psn == "")
            && (ApprovalDate !in msg.payload || ApprovalTime !in msg.payload ==> row.datetime == "")
            && (Amount !in msg.payload ==> row.amount == 0)
  {
    if Amount !in msg.payload {
      assert TrimZeros("0") == "";
    }
  }

  // ----- the database: one list of rows per table -----

  type Database = map<string, seq<KiccRow>>

  function Get(db: Database, table: string): seq<KiccRow> {
    if table in db then db[table] else []
  }

  /** The reference: each delivery with a row runs its own one-row INSERT, in order. */
  function InsertEach(db: Database, ds: seq<Delivery>): Database {
    if ds == [] then db
    else
      var before := InsertEach(db, ds[..|ds| - 1]);
      match RowOf(ds[|ds| - 1])
      case None => before
      case Some(row) => before[row.table := Get(before, row.table) + [row]]
  }

  // ----- groups -----

  predicate GoesTo(d: Delivery, table: string) {
    RowOf(d).Some? && RowOf(d).value.table == table
  }

  /** The deliveries of one table, in order. */
  function Group(ds: seq<Delivery>, table: string): seq<Delivery> {
    if ds == [] then []
    else
      var before, last := Group(ds[..|ds| - 1], table), ds[|ds| - 1];
      if GoesTo(last, table) then before + [last] else before
  }

  function Rows(ds: seq<Delivery>): seq<KiccRow> {
    Collect(ds, RowOf)
  }

  function TablesOf(ds: seq<Delivery>): set<string> {
    if ds == [] then {}
    else
      var before, row := TablesOf(ds[..|ds| - 1]), RowOf(ds[|ds| - 1]);
      if row.Some? then before + {row.value.table} else before
  }

  /** Every table gets the rows of its own group, in arrival order. */
  lemma {:induction false} InsertEachByTable(db: Database, ds: seq<Delivery>, t: string)
    ensures Get(InsertEach(db, ds), t) == Get(db, t) + Rows(Group(ds, t))
  {
    if ds == [] {
      assert Get(db, t) + [] == Get(db, t);
    } else {
      var init, last := ds[..|ds| - 1], ds[|ds| - 1];
      InsertEachByTable(db, init, t);
      if GoesTo(last, t) {
        CollectConcat(Group(init, t), [last], RowOf);
        One(last, RowOf);
        Associative(Get(db, t), Rows(Group(init, t)), [RowOf(last).value]);
      }
    }
  }

  lemma {:induction false} InsertEachTables(db: Database, ds: seq<Delivery>)
    ensures InsertEach(db, ds).Keys == db.Keys + TablesOf(ds)
  {
    if ds == [] {
    } else {
      var init, last := ds[..|ds| - 1], ds[|ds| - 1];
      InsertEachTables(db, init);
    }
  }

  lemma MoreTables(ds: seq<Delivery>, d: Delivery)
    ensures TablesOf(ds + [d])
            == if RowOf(d).Some? then TablesOf(ds) + {RowOf(d).value.table} else TablesOf(ds)
  {
    assert (ds + [d])[..|ds|] == ds;
  }

  /** The groups partition the batch: a group holds only rows of its table, and every delivery
      with a row is in its own group as often as in the batch and in no other. */
  lemma {:induction false} GroupsPartition(ds: seq<Delivery>, d: Delivery, table: string)
    ensures multiset(Group(ds, table))[d] == if GoesTo(d, table) then multiset(ds)[d] else 0
  {
    if ds == [] {
    } else {
      var init, last := ds[..|ds| - 1], ds[|ds| - 1];
      GroupsPartition(init, d, table);
      assert ds == init + [last];
    }
  }

  // ----- the state machine -----

  datatype State = State(buffer: seq<Delivery>, db: Database, settled: seq<Settlement>)

  function Start(db: Database): State {
    State([], db, [])
  }

  /** The INSERT into a table in `failing` fails; all others succeed. */
  function VerdictOf(d: Delivery, failing: set<string>): Verdict {
    if RowOf(d).Some? && RowOf(d).value.table in failing then Nack else Ack
  }

  /** The deliveries whose own INSERT succeeds. */
  function Passing(ds: seq<Delivery>, failing: set<string>): seq<Delivery> {
    if ds == [] then []
    else
      var before, last := Passing(ds[..|ds| - 1], failing), ds[|ds| - 1];
      if VerdictOf(last, failing).Ack? then before + [last] else before
  }

  function Verdicts(ds: seq<Delivery>, failing: set<string>): seq<Settlement> {
    if ds == [] then []
    else
      var last := ds[|ds| - 1];
      Verdicts(ds[..|ds| - 1], failing) + [Settlement(last, VerdictOf(last, failing))]
  }

  function Flush(st: State, failing: set<string>): State {
    State([], InsertEach(st.db, Passing(st.buffer, failing)), st.settled + Verdicts(st.buffer, failing))
  }

  function Receive(st: State, d: Delivery): State {
    match d.body
    case Garbage => st.(settled := st.settled + [Settlement(d, Nack)])
    case Message(msg) =>
      if ToKiccRow(msg).Some? then st.(buffer := st.buffer + [d])
      else st.(settled := st.settled + [Settlement(d, Ack)])
  }

  /** One turn of the loop of `run`. */
  function Step(st: State, batchSize: nat, e: Event<set<string>>): State {
    match e
    case Arrival(d, failing) =>
      var received := Receive(st, d);
      if |received.buffer| >= batchSize then Flush(received, failing) else received
    case Tick(failing) => if st.buffer != [] then Flush(st, failing) else st
    case _ => st
  }

  /** The state at the loop head after a list of events. */
  function Steps(st: State, batchSize: nat, events: seq<Event<set<string>>>): State {
    if events == [] then st
    else Step(Steps(st, batchSize, events[..|events| - 1]), batchSize, events[|events| - 1])
  }

  /** The log only grows. */
  lemma LogGrows(st: State, batchSize: nat, e: Event<set<string>>)
    ensures st.settled <= Step(st, batchSize, e).settled
  {
  }

  // ----- settlement -----

  lemma {:induction false} VerdictsSettle(ds: seq<Delivery>, failing: set<string>)
    ensures Settled(Verdicts(ds, failing)) == ds
    ensures With(Verdicts(ds, failing), Ack) == Passing(ds, failing)
  {
    if ds == [] {
    } else {
      var init, last := ds[..|ds| - 1], ds[|ds| - 1];
      var verdict := VerdictOf(last, failing);
      assert ds == init + [last];
      VerdictsSettle(init, failing);
      VerdictsNext(ds, failing);
      LogOneMore(Verdicts(init, failing), last, verdict);
    }
  }

  lemma VerdictsNext(ds: seq<Delivery>, failing: set<string>)
    requires ds != []
    ensures var init, last := ds[..|ds| - 1], ds[|ds| - 1];
            var verdict := VerdictOf(last, failing);
            && Verdicts(ds, failing) == Verdicts(init, failing) + [Settlement(last, verdict)]
            && Passing(ds, failing) == if verdict.Ack? then Passing(init, failing) + [last] else Passing(init, failing)
  {
  }

  /** A delivery is acknowledged exactly when the INSERT into its own table succeeds, whatever
      happens to the other groups, and rejected otherwise. */
  lemma {:induction false} OwnInsertDecides(ds: seq<Delivery>, failing: set<string>, d: Delivery)
    ensures var log, passes := Verdicts(ds, failing), RowOf(d).None? || RowOf(d).value.table !in failing;
            && multiset(With(log, Ack))[d] == (if passes then multiset(ds)[d] else 0)
            && multiset(With(log, Nack))[d] == (if passes then 0 else multiset(ds)[d])
  {
    if ds == [] {
    } else {
      var init, last := ds[..|ds| - 1], ds[|ds| - 1];
      assert ds == init + [last];
      OwnInsertDecides(init, failing, d);
      LogOneMore(Verdicts(init, failing), last, VerdictOf(last, failing));
    }
  }

  predicate AllRows(ds: seq<Delivery>) {
    forall i :: 0 <= i < |ds| ==> RowOf(ds[i]).Some?
  }

  /** What every turn keeps: a delivery is buffered or settled once, and the tables hold the rows
      of the acknowledged deliveries. */
  ghost predicate Accounted(st: State, db: Database, received: seq<Delivery>, batchSize: nat) {
    && |st.buffer| < Max(1, batchSize)
    && Consistent(st, db, received)
  }

  ghost predicate Consistent(st: State, db: Database, received: seq<Delivery>) {
    && AllRows(st.buffer)
    && multiset(received) == multiset(Settled(st.settled)) + multiset(st.buffer)
    && st.db == InsertEach(db, With(st.settled, Ack))
  }

  lemma {:induction false} InsertEachConcat(db: Database, a: seq<Delivery>, b: seq<Delivery>)
    ensures InsertEach(db, a + b) == InsertEach(InsertEach(db, a), b)
  {
    if b == [] {
      assert a + b == a;
    } else {
      InsertEachConcat(db, a, b[..|b| - 1]);
      Init(a, b);
    }
  }

  lemma FlushConsistent(st: State, db: Database, received: seq<Delivery>, failing: set<string>)
    requires Consistent(st, db, received)
    ensures Consistent(Flush(st, failing), db, received)
  {
    var log := Verdicts(st.buffer, failing);
    VerdictsSettle(st.buffer, failing);
    SettledConcat(st.settled, log);
    WithConcat(st.settled, log, Ack);
    InsertEachConcat(db, With(st.settled, Ack), Passing(st.buffer, failing));
  }

  lemma ReceiveConsistent(st: State, db: Database, received: seq<Delivery>, d: Delivery)
    requires Consistent(st, db, received)
    ensures Consistent(Receive(st, d), db, received + [d])
  {
    ReceiveCases(st, d);
    ReceiveCounts(st, received, d);
    if RowOf(d).None? {
      LogOneMore(st.settled, d, if d.body.Garbage? then Nack else Ack);
      InsertNothing(db, With(st.settled, Ack), d);
    }
  }

  lemma ReceiveCounts(st: State, received: seq<Delivery>, d: Delivery)
    requires multiset(received) == multiset(Settled(st.settled)) + multiset(st.buffer)
    ensures multiset(received + [d])
            == multiset(Settled(Receive(st, d).settled)) + multiset(Receive(st, d).buffer)
  {
    ReceiveCases(st, d);
    if RowOf(d).None? {
      LogOneMore(st.settled, d, if d.body.Garbage? then Nack else Ack);
    }
  }

  lemma ReceiveCases(st: State, d: Delivery)
    ensures Receive(st, d)
            == if RowOf(d).Some? then st.(buffer := st.buffer + [d])
               else st.(settled := st.settled + [Settlement(d, if d.body.Garbage? then Nack else Ack)])
  {
  }

  lemma LogOneMore(log: seq<Settlement>, d: Delivery, verdict: Verdict)
    ensures Settled(log + [Settlement(d, verdict)]) == Settled(log) + [d]
    ensures With(log + [Settlement(d, verdict)], Ack) == if verdict.Ack? then With(log, Ack) + [d] else With(log, Ack)
    ensures With(log + [Settlement(d, verdict)], Nack)
            == if verdict.Ack? then With(log, Nack) else With(log, Nack) + [d]
  {
    assert (log + [Settlement(d, verdict)])[..|log|] == log;
  }

  lemma InsertNothing(db: Database, ds: seq<Delivery>, d: Delivery)
    requires RowOf(d).None?
    ensures InsertEach(db, ds + [d]) == InsertEach(db, ds)
  {
    assert (ds + [d])[..|ds|] == ds;
  }

  /** Exactly-once settlement and per-message inserts: at every loop head of every run the buffer
      is short of a batch, the deliveries received are exactly those settled once and those
      buffered, and the tables are what one INSERT per acknowledged message would have made
      them, in arrival order. */
  lemma {:induction false} RunAccounts(db: Database, batchSize: nat, events: seq<Event<set<string>>>)
    ensures Accounted(Steps(Start(db), batchSize, events), db, Received(events), batchSize)
  {
    if events == [] {
    } else {
      var before, e := events[..|events| - 1], events[|events| - 1];
      RunAccounts(db, batchSize, before);
      StepAccounts(Steps(Start(db), batchSize, before), db, Received(before), batchSize, e);
    }
  }

  lemma StepAccounts(st: State, db: Database, received: seq<Delivery>, batchSize: nat, e: Event<set<string>>)
    requires Accounted(st, db, received, batchSize)
    ensures Accounted(Step(st, batchSize, e), db, if e.Arrival? then received + [e.delivery] else received, batchSize)
  {
    match e
    case Arrival(d, failing) =>
      ReceiveConsistent(st, db, received, d);
      FlushConsistent(Receive(st, d), db, received + [d], failing);
    case Tick(failing) =>
      FlushConsistent(st, db, received, failing);
    case _ =>
  }

  // ----- when deliveries leave the buffer, and how -----

  /** The buffer at every loop head: of the deliveries with a row since the last tick, those left
      over when whole batches have been taken off. */
  lemma {:induction false} BufferIsLeftOver(db: Database, batchSize: nat, events: seq<Event<set<string>>>)
    ensures Steps(Start(db), batchSize, events).buffer == LeftOver(SinceTick(events, RowOf), batchSize)
  {
    if events == [] {
    } else {
      var before, e := events[..|events| - 1], events[|events| - 1];
      BufferIsLeftOver(db, batchSize, before);
      BufferNext(Steps(Start(db), batchSize, before), batchSize, SinceTick(before, RowOf), e);
    }
  }

  lemma BufferNext(st: State, batchSize: nat, pending: seq<Delivery>, e: Event<set<string>>)
    requires st.buffer == LeftOver(pending, batchSize)
    ensures Step(st, batchSize, e).buffer
            == LeftOver(if e.Tick? then []
                        else if e.Arrival? && RowOf(e.delivery).Some? then pending + [e.delivery]
                        else pending, batchSize)
  {
    if e.Arrival? {
      ReceiveCases(st, e.delivery);
      if RowOf(e.delivery).Some? {
        LeftOverNext(pending, e.delivery, batchSize);
      }
    }
  }

  /** No INSERT into a table fails. */
  predicate NeverFails(events: seq<Event<set<string>>>, table: string) {
    forall i :: 0 <= i < |events| && (events[i].Arrival? || events[i].Tick?) ==> table !in events[i].outcome
  }

  lemma {:induction false} GroupConcat(a: seq<Delivery>, b: seq<Delivery>, table: string)
    ensures Group(a + b, table) == Group(a, table) + Group(b, table)
  {
    if b == [] {
      assert a + b == a;
    } else {
      var init, last := b[..|b| - 1], b[|b| - 1];
      GroupConcat(a, init, table);
      Init(a, b);
      if GoesTo(last, table) {
        Associative(Group(a, table), Group(init, table), [last]);
      }
    }
  }

  /** The deliveries of a table, acknowledged and buffered, are those received, in order. */
  ghost predicate InOrder(st: State, received: seq<Delivery>, table: string) {
    Group(With(st.settled, Ack), table) + Group(st.buffer, table) == Group(received, table)
  }

  lemma FlushInOrder(st: State, received: seq<Delivery>, table: string, failing: set<string>)
    requires InOrder(st, received, table) && table !in failing
    ensures InOrder(Flush(st, failing), received, table)
  {
    var log := Verdicts(st.buffer, failing);
    VerdictsSettle(st.buffer, failing);
    WithConcat(st.settled, log, Ack);
    GroupConcat(With(st.settled, Ack), Passing(st.buffer, failing), table);
    PassingGroups(st.buffer, failing, table);
  }

  lemma ReceiveInOrder(st: State, received: seq<Delivery>, table: string, d: Delivery)
    requires InOrder(st, received, table)
    ensures InOrder(Receive(st, d), received + [d], table)
  {
    ReceiveCases(st, d);
    GroupNext(received, d, table);
    GroupNext(st.buffer, d, table);
    if RowOf(d).None? {
      LogOneMore(st.settled, d, if d.body.Garbage? then Nack else Ack);
      GroupNext(With(st.settled, Ack), d, table);
    }
  }

  lemma GroupNext(ds: seq<Delivery>, d: Delivery, table: string)
    ensures Group(ds + [d], table) == if GoesTo(d, table) then Group(ds, table) + [d] else Group(ds, table)
  {
    assert (ds + [d])[..|ds|] == ds;
  }

  lemma {:induction false} StaysInOrder(db: Database, batchSize: nat, events: seq<Event<set<string>>>, table: string)
    requires NeverFails(events, table)
    ensures InOrder(Steps(Start(db), batchSize, events), Received(events), table)
  {
    if events == [] {
    } else {
      var before, e := events[..|events| - 1], events[|events| - 1];
      StaysInOrder(db, batchSize, before, table);
      var st := Steps(Start(db), batchSize, before);
      match e
      case Arrival(d, failing) =>
        ReceiveInOrder(st, Received(before), table, d);
        FlushInOrder(Receive(st, d), Received(before) + [d], table, failing);
      case Tick(failing) =>
        FlushInOrder(st, Received(before), table, failing);
      case _ =>
    }
  }

  /** Tables do not disturb each other: whatever happens to the INSERTs into other tables, a table
      whose own never fail holds the rows received for it, in arrival order, up to those that are
      still buffered. */
  lemma TableIsolation(db: Database, batchSize: nat, events: seq<Event<set<string>>>, table: string)
    requires NeverFails(events, table)
    ensures var st := Steps(Start(db), batchSize, events);
            Get(st.db, table) + Rows(Group(st.buffer, table)) == Get(db, table) + Rows(Group(Received(events), table))
  {
    var st := Steps(Start(db), batchSize, events);
    var acked := With(st.settled, Ack);
    RunAccounts(db, batchSize, events);
    StaysInOrder(db, batchSize, events, table);
    InsertEachByTable(db, acked, table);
    CollectConcat(Group(acked, table), Group(st.buffer, table), RowOf);
    Associative(Get(db, table), Rows(Group(acked, table)), Rows(Group(st.buffer, table)));
  }

  /** A tick empties the buffer: everything received is settled then, and a table whose INSERTs
      have never failed holds every row received for it. */
  lemma TickSettlesAll(db: Database, batchSize: nat, events: seq<Event<set<string>>>, failing: set<string>,
                       table: string)
    ensures var st := Steps(Start(db), batchSize, events + [Tick(failing)]);
            && st.buffer == []
            && multiset(Settled(st.settled)) == multiset(Received(events))
            && (NeverFails(events, table) && table !in failing ==>
                  Get(st.db, table) == Get(db, table) + Rows(Group(Received(events), table)))
  {
    StepsTick(Start(db), batchSize, events, failing);
    assert Steps(Start(db), batchSize, events + [Tick(failing)]).buffer == [];
    RunAccounts(db, batchSize, events + [Tick(failing)]);
    if NeverFails(events, table) && table !in failing {
      TableIsolation(db, batchSize, events + [Tick(failing)], table);
    }
  }

  lemma StepsTick(st: State, batchSize: nat, events: seq<Event<set<string>>>, failing: set<string>)
    ensures Steps(st, batchSize, events + [Tick(failing)])
            == Step(Steps(st, batchSize, events), batchSize, Tick(failing))
    ensures Received(events + [Tick(failing)]) == Received(events)
  {
    assert (events + [Tick(failing)])[..|events|] == events;
  }

  /** Garbage is rejected, and a message without a table is acknowledged. */
  predicate Proper(s: Settlement) {
    match s.delivery.body
    case Garbage => s.verdict == Nack
    case Message(msg) => ToKiccRow(msg) == None ==> s.verdict == Ack
  }

  predicate AllProper(log: seq<Settlement>) {
    forall i :: 0 <= i < |log| ==> Proper(log[i])
  }

  lemma {:induction false} VerdictsProper(ds: seq<Delivery>, failing: set<string>)
    requires AllRows(ds)
    ensures AllProper(Verdicts(ds, failing))
  {
    if ds == [] {
    } else {
      VerdictsProper(ds[..|ds| - 1], failing);
    }
  }

  /** In every run each settlement is proper. */
  lemma {:induction false} RunsAreProper(db: Database, batchSize: nat, events: seq<Event<set<string>>>)
    ensures AllProper(Steps(Start(db), batchSize, events).settled)
  {
    if events == [] {
    } else {
      var before, e := events[..|events| - 1], events[|events| - 1];
      RunsAreProper(db, batchSize, before);
      RunAccounts(db, batchSize, before);
      StepProper(Steps(Start(db), batchSize, before), batchSize, e);
    }
  }

  lemma StepProper(st: State, batchSize: nat, e: Event<set<string>>)
    requires AllRows(st.buffer) && AllProper(st.settled)
    ensures AllProper(Step(st, batchSize, e).settled)
  {
    match e
    case Arrival(d, failing) =>
      ReceiveProper(st, d);
      FlushProper(Receive(st, d), failing);
    case Tick(failing) =>
      FlushProper(st, failing);
    case _ =>
  }

  lemma ReceiveProper(st: State, d: Delivery)
    requires AllRows(st.buffer) && AllProper(st.settled)
    ensures AllRows(Receive(st, d).buffer) && AllProper(Receive(st, d).settled)
  {
    ReceiveCases(st, d);
  }

  lemma FlushProper(st: State, failing: set<string>)
    requires AllRows(st.buffer) && AllProper(st.settled)
    ensures AllProper(Flush(st, failing).settled)
  {
    VerdictsProper(st.buffer, failing);
  }

  // ----- settling group by group -----

  /** The verdict of a delivery, if it goes to one of some tables. */
  function VerdictIn(d: Delivery, failing: set<string>, tables: set<string>): seq<Settlement> {
    if RowOf(d).Some? && RowOf(d).value.table in tables then [Settlement(d, VerdictOf(d, failing))] else []
  }

  /** The verdicts of the deliveries that go to some tables. */
  function VerdictsIn(ds: seq<Delivery>, failing: set<string>, tables: set<string>): seq<Settlement> {
    if ds == [] then []
    else VerdictsIn(ds[..|ds| - 1], failing, tables) + VerdictIn(ds[|ds| - 1], failing, tables)
  }

  lemma {:induction false} OneMoreGroup(ds: seq<Delivery>, failing: set<string>, done: set<string>, t: string)
    requires t !in done
    ensures multiset(VerdictsIn(ds, failing, done + {t}))
            == multiset(VerdictsIn(ds, failing, done))
               + multiset(Settle(Group(ds, t), if t in failing then Nack else Ack))
  {
    if ds == [] {
    } else {
      var init := ds[..|ds| - 1];
      OneMoreGroup(init, failing, done, t);
      GroupVerdictsNext(ds, failing, t);
    }
  }

  lemma GroupVerdictsNext(ds: seq<Delivery>, failing: set<string>, t: string)
    requires ds != []
    ensures var verdict := if t in failing then Nack else Ack;
            Settle(Group(ds, t), verdict)
            == Settle(Group(ds[..|ds| - 1], t), verdict) + VerdictIn(ds[|ds| - 1], failing, {t})
  {
    SettleOneMore(Group(ds[..|ds| - 1], t), ds[|ds| - 1], if t in failing then Nack else Ack);
  }

  predicate AllGoTo(ds: seq<Delivery>, tables: set<string>) {
    forall i :: 0 <= i < |ds| ==> RowOf(ds[i]).Some? && RowOf(ds[i]).value.table in tables
  }

  lemma {:induction false} AllGroups(ds: seq<Delivery>, failing: set<string>, tables: set<string>)
    requires AllGoTo(ds, tables)
    ensures VerdictsIn(ds, failing, tables) == Verdicts(ds, failing)
  {
    if ds == [] {
    } else {
      AllGroups(ds[..|ds| - 1], failing, tables);
    }
  }

  lemma {:induction false} OwnTable(ds: seq<Delivery>, i: nat)
    requires AllRows(ds) && i < |ds|
    ensures RowOf(ds[i]).value.table in TablesOf(ds)
  {
    if i < |ds| - 1 {
      OwnTable(ds[..|ds| - 1], i);
    }
  }

  lemma OwnTables(ds: seq<Delivery>)
    requires AllRows(ds)
    ensures AllGoTo(ds, TablesOf(ds))
  {
    forall i | 0 <= i < |ds|
      ensures RowOf(ds[i]).value.table in TablesOf(ds)
    {
      OwnTable(ds, i);
    }
  }

  lemma {:induction false} NoGroups(ds: seq<Delivery>, failing: set<string>)
    ensures VerdictsIn(ds, failing, {}) == []
  {
    if ds == [] {
    } else {
      NoGroups(ds[..|ds| - 1], failing);
    }
  }

  /** The tables after the groups in `done` have been inserted. */
  ghost predicate Inserted(db: Database, before: Database, ds: seq<Delivery>, failing: set<string>, done: set<string>) {
    && db.Keys == before.Keys + (done - failing)
    && forall t :: Get(db, t) == Get(before, t) + Share(ds, failing, done, t)
  }

  /** What the groups in `done` add to a table. */
  function Share(ds: seq<Delivery>, failing: set<string>, done: set<string>, t: string): seq<KiccRow> {
    if t in done && t !in failing then Rows(Group(ds, t)) else []
  }

  lemma {:induction false} PassingGroups(ds: seq<Delivery>, failing: set<string>, t: string)
    ensures Group(Passing(ds, failing), t) == if t in failing then [] else Group(ds, t)
  {
    if ds == [] {
    } else {
      var init, last := ds[..|ds| - 1], ds[|ds| - 1];
      PassingGroups(init, failing, t);
      var passed := Passing(init, failing) + [last];
      assert passed[..|passed| - 1] == Passing(init, failing);
    }
  }

  lemma {:induction false} PassingTables(ds: seq<Delivery>, failing: set<string>)
    ensures TablesOf(Passing(ds, failing)) == TablesOf(ds) - failing
  {
    if ds == [] {
    } else {
      var init, last := ds[..|ds| - 1], ds[|ds| - 1];
      PassingTables(init, failing);
      if VerdictOf(last, failing).Ack? {
        MoreTables(Passing(init, failing), last);
      }
    }
  }

  /** Inserting every group is inserting every passing delivery by itself. */
  lemma AllInserted(db: Database, before: Database, ds: seq<Delivery>, failing: set<string>)
    requires Inserted(db, before, ds, failing, TablesOf(ds))
    ensures db == InsertEach(before, Passing(ds, failing))
  {
    var each := InsertEach(before, Passing(ds, failing));
    InsertEachTables(before, Passing(ds, failing));
    PassingTables(ds, failing);
    assert db.Keys == each.Keys;
    forall t | t in db
      ensures db[t] == each[t]
    {
      InsertEachByTable(before, Passing(ds, failing), t);
      PassingGroups(ds, failing, t);
      GroupOfNoTable(ds, t);
      assert Get(db, t) == Get(each, t);
    }
  }

  lemma {:induction false} GroupOfNoTable(ds: seq<Delivery>, t: string)
    ensures t !in TablesOf(ds) ==> Group(ds, t) == []
  {
    if ds == [] {
    } else {
      var init, last := ds[..|ds| - 1], ds[|ds| - 1];
      GroupOfNoTable(init, t);
    }
  }

  // ----- the consumer -----

  class Consumer {
    const batchSize: nat
    var deliveries: seq<Delivery>
    var rows: seq<KiccRow>
    var db: Database
    /** The acks and nacks sent, in order. */
    var settled: seq<Settlement>

    /** Entry i of one buffer belongs to entry i of the other. */
    ghost predicate Valid()
      reads this
    {
      && |deliveries| == |rows|
      && forall i :: 0 <= i < |deliveries| ==> RowOf(deliveries[i]) == Some(rows[i])
    }

    /** The groups of one flush are settled in an order nobody knows, so the log agrees with the
        state machine as a multiset. */
    ghost predicate Refines(st: State)
      reads this
    {
      && Valid()
      && deliveries == st.buffer
      && db == st.db
      && multiset(settled) == multiset(st.settled)
    }

    constructor (batchSize: nat, db: Database)
      ensures this.batchSize == batchSize && Refines(Start(db))
    {
      this.batchSize := batchSize;
      this.db := db;
      deliveries, rows, settled := [], [], [];
    }

    method SettleAll(ds: seq<Delivery>, verdict: Verdict)
      modifies this`settled
      ensures settled == old(settled) + Settle(ds, verdict)
    {
      for n := 0 to |ds|
        invariant settled == old(settled) + Settle(ds[..n], verdict)
      {
        assert ds[..n + 1] == ds[..n] + [ds[n]];
        SettleOneMore(ds[..n], ds[n], verdict);
        settled := settled + [Settlement(ds[n], verdict)];
      }
      assert ds[..|ds|] == ds;
    }

    /** The grouping loop of `flush`. */
    method GroupByTable() returns (groups: Groups)
      requires Valid()
      ensures AreGroups(groups, deliveries)
    {
      groups := map[];
      for n := 0 to |deliveries|
        invariant AreGroups(groups, deliveries[..n])
      {
        Grouped(groups, deliveries[..n], deliveries[n], rows[n]);
        OneMore(deliveries, n);
        groups := AddToGroup(groups, deliveries[n], rows[n]);
      }
      assert deliveries[..|deliveries|] == deliveries;
    }

    /** `flush`: one INSERT per table, each group settled by its own result. */
    method FlushBatch(failing: set<string>, ghost st: State)
      requires Refines(st)
      modifies this
      ensures Refines(Flush(st, failing))
    {
      var groups := GroupByTable();
      ghost var batch, before, log := deliveries, db, settled;
      deliveries, rows := [], [];
      InsertGroups(groups, failing, batch);
      LastGroup(db, settled, before, log, batch, failing);
    }

    /** The groups, in an order nobody knows. */
    method InsertGroups(groups: Groups, failing: set<string>, ghost batch: seq<Delivery>)
      requires AreGroups(groups, batch)
      modifies this`db, this`settled
      ensures Partway(db, settled, old(db), old(settled), batch, failing, TablesOf(batch))
    {
      ghost var before, log := db, settled;
      var left := groups.Keys;
      ghost var done: set<string> := {};
      FirstGroup(db, batch, failing, log);
      while left != {}
        invariant left !! done && left + done == groups.Keys
        invariant Partway(db, settled, before, log, batch, failing, done)
        decreases left
      {
        var table :| table in left;
        NextGroup(db, settled, before, log, batch, failing, done, table);
        assert IsGroup(groups[table], batch, table);
        InsertGroup(table, groups[table], failing);
        left, done := left - {table}, done + {table};
      }
      assert done == groups.Keys;
    }

    method InsertGroup(table: string, group: seq<(Delivery, KiccRow)>, failing: set<string>)
      modifies this`db, this`settled
      ensures db == DbAfter(old(db), table, Seconds(group), failing)
      ensures settled == old(settled) + Settle(Firsts(group), if table in failing then Nack else Ack)
    {
      var groupDeliveries, groupRows := Unzip(group);
      if table in failing {
        SettleAll(groupDeliveries, Nack);
      } else {
        db := db[table := Get(db, table) + groupRows];
        SettleAll(groupDeliveries, Ack);
      }
    }

    /** The arm of `select!` for a delivery, up to the size check. */
    method OnDelivery(delivery: Delivery, ghost st: State)
      requires Refines(st)
      modifies this
      ensures Refines(Receive(st, delivery))
    {
      match delivery.body {
        case Message(msg) =>
          match ToKiccRow(msg) {
            case Some(row) =>
              rows := rows + [row];
              deliveries := deliveries + [delivery];
            case None =>
              settled := settled + [Settlement(delivery, Ack)];
          }
        case Garbage =>
          settled := settled + [Settlement(delivery, Nack)];
      }
    }

    method FlushIfFull(failing: set<string>, ghost st: State)
      requires Refines(st)
      modifies this
      ensures Refines(if |st.buffer| >= batchSize then Flush(st, failing) else st)
    {
      if |rows| >= batchSize {
        FlushBatch(failing, st);
      }
    }

    method OnArrival(delivery: Delivery, failing: set<string>, ghost st: State)
      requires Refines(st)
      modifies this
      ensures Refines(Step(st, batchSize, Arrival(delivery, failing)))
    {
      OnDelivery(delivery, st);
      FlushIfFull(failing, Receive(st, delivery));
    }

    method OnTick(failing: set<string>, ghost st: State)
      requires Refines(st)
      modifies this
      ensures Refines(Step(st, batchSize, Tick(failing)))
    {
      if |rows| != 0 {
        FlushBatch(failing, st);
      }
    }

    /** The body of the loop. */
    method Turn(event: Event<set<string>>, ghost st: State)
      requires Refines(st)
      modifies this
      ensures Refines(Step(st, batchSize, event))
    {
      match event {
        case Arrival(delivery, failing) => OnArrival(delivery, failing, st);
        case Tick(failing) => OnTick(failing, st);
        case _ =>
      }
    }

    /** `run` over the events that the select loop sees. */
    method Run(events: seq<Event<set<string>>>, ghost st: State)
      requires Refines(st)
      modifies this
      ensures Refines(Steps(st, batchSize, UpToStop(events)))
    {
      ghost var live, now := UpToStop(events), st;
      var n := 0;
      while n < |events| && !events[n].StreamEnd? && !events[n].ChannelError?
        invariant n <= |live|
        invariant now == Steps(st, batchSize, live[..n])
        invariant Refines(now)
        decreases |events| - n
      {
        assert n < |live|;
        StepsNext(st, batchSize, live, n);
        Turn(events[n], now);
        now := Step(now, batchSize, events[n]);
        n := n + 1;
      }
      assert live[..n] == live;
    }
  }

  lemma StepsNext(st: State, batchSize: nat, events: seq<Event<set<string>>>, n: nat)
    requires n < |events|
    ensures Steps(st, batchSize, events[..n + 1]) == Step(Steps(st, batchSize, events[..n]), batchSize, events[n])
  {
    assert events[..n + 1][..n] == events[..n];
  }

  type Groups = map<string, seq<(Delivery, KiccRow)>>

  /** A group pairs the deliveries of a table with their rows. */
  ghost predicate IsGroup(group: seq<(Delivery, KiccRow)>, ds: seq<Delivery>, table: string) {
    && Group(ds, table) == Firsts(group)
    && Rows(Group(ds, table)) == Seconds(group)
  }

  ghost predicate AreGroups(groups: Groups, ds: seq<Delivery>) {
    && groups.Keys == TablesOf(ds)
    && forall t :: t in groups ==> IsGroup(groups[t], ds, t)
  }

  function Firsts<A, B>(s: seq<(A, B)>): (r: seq<A>) {
    seq(|s|, i requires 0 <= i < |s| => s[i].0)
  }

  function Seconds<A, B>(s: seq<(A, B)>): (r: seq<B>) {
    seq(|s|, i requires 0 <= i < |s| => s[i].1)
  }

  /** `groups.entry(row.table.clone()).or_default().push((delivery, row))` */
  function AddToGroup(groups: Groups, d: Delivery, row: KiccRow): Groups {
    groups[row.table := (if row.table in groups then groups[row.table] else []) + [(d, row)]]
  }

  lemma OneMore<T>(s: seq<T>, n: nat)
    requires n < |s|
    ensures s[..n + 1] == s[..n] + [s[n]]
  {
  }

  lemma Grouped(groups: Groups, ds: seq<Delivery>, d: Delivery, row: KiccRow)
    requires AreGroups(groups, ds) && RowOf(d) == Some(row)
    ensures AreGroups(AddToGroup(groups, d, row), ds + [d])
  {
    var more := AddToGroup(groups, d, row);
    assert more.Keys == groups.Keys + {row.table} == TablesOf(ds + [d]) by {
      MoreTables(ds, d);
    }
    forall t | t in more
      ensures IsGroup(more[t], ds + [d], t)
    {
      GroupedAt(groups, ds, d, row, t);
    }
  }

  lemma GroupedAt(groups: Groups, ds: seq<Delivery>, d: Delivery, row: KiccRow, t: string)
    requires AreGroups(groups, ds) && RowOf(d) == Some(row)
    requires t in groups || t == row.table
    ensures IsGroup(AddToGroup(groups, d, row)[t], ds + [d], t)
  {
    if t == row.table {
      var group := if t in groups then groups[t] else [];
      assert IsGroup(group, ds, t) by {
        GroupOfNoTable(ds, t);
      }
      GroupGrows(group, ds, d, row);
    } else {
      OtherGroup(ds, d, t);
    }
  }

  lemma OtherGroup(ds: seq<Delivery>, d: Delivery, table: string)
    requires !GoesTo(d, table)
    ensures Group(ds + [d], table) == Group(ds, table)
  {
    assert (ds + [d])[..|ds|] == ds;
  }

  lemma GroupGrows(group: seq<(Delivery, KiccRow)>, ds: seq<Delivery>, d: Delivery, row: KiccRow)
    requires IsGroup(group, ds, row.table) && RowOf(d) == Some(row)
    ensures IsGroup(group + [(d, row)], ds + [d], row.table)
  {
    assert (ds + [d])[..|ds|] == ds;
    var g := Group(ds, row.table);
    assert Group(ds + [d], row.table) == g + [d];
    assert Rows(g + [d]) == Rows(g) + [row] by {
      CollectConcat(g, [d], RowOf);
      One(d, RowOf);
    }
    PairAppended(group, (d, row));
  }

  lemma PairAppended<A, B>(s: seq<(A, B)>, p: (A, B))
    ensures Firsts(s + [p]) == Firsts(s) + [p.0]
    ensures Seconds(s + [p]) == Seconds(s) + [p.1]
  {
  }

  method Unzip(group: seq<(Delivery, KiccRow)>) returns (ds: seq<Delivery>, rows: seq<KiccRow>)
    ensures ds == Firsts(group) && rows == Seconds(group)
  {
    ds, rows := [], [];
    for n := 0 to |group|
      invariant |ds| == |rows| == n
      invariant forall i :: 0 <= i < n ==> ds[i] == group[i].0 && rows[i] == group[i].1
    {
      ds, rows := ds + [group[n].0], rows + [group[n].1];
    }
  }

  /** The log after the groups in `done` have been settled. */
  ghost predicate SettledFor(log: seq<Settlement>, before: seq<Settlement>, ds: seq<Delivery>,
                             failing: set<string>, done: set<string>) {
    multiset(log) == multiset(before) + multiset(VerdictsIn(ds, failing, done))
  }

  /** The tables after one INSERT of all rows of a group. */
  function DbAfter(db: Database, table: string, rows: seq<KiccRow>, failing: set<string>): Database {
    if table in failing then db else db[table := Get(db, table) + rows]
  }

  /** The groups in `done` have been inserted and settled. */
  ghost predicate Partway(db: Database, settled: seq<Settlement>, before: Database, log: seq<Settlement>,
                          ds: seq<Delivery>, failing: set<string>, done: set<string>) {
    Inserted(db, before, ds, failing, done) && SettledFor(settled, log, ds, failing, done)
  }

  lemma NextGroup(db: Database, settled: seq<Settlement>, before: Database, log: seq<Settlement>,
                  ds: seq<Delivery>, failing: set<string>, done: set<string>, t: string)
    requires Partway(db, settled, before, log, ds, failing, done) && t !in done
    ensures Partway(DbAfter(db, t, Rows(Group(ds, t)), failing),
                    settled + Settle(Group(ds, t), if t in failing then Nack else Ack),
                    before, log, ds, failing, done + {t})
  {
    InsertedNext(db, before, ds, failing, done, t);
    SettledNext(settled, log, ds, failing, done, t);
  }

  /** Once all groups are done, the batch has been inserted and settled as the state machine says. */
  lemma LastGroup(db: Database, settled: seq<Settlement>, before: Database, log: seq<Settlement>,
                  ds: seq<Delivery>, failing: set<string>)
    requires Partway(db, settled, before, log, ds, failing, TablesOf(ds)) && AllRows(ds)
    ensures db == InsertEach(before, Passing(ds, failing))
    ensures multiset(settled) == multiset(log + Verdicts(ds, failing))
  {
    AllInserted(db, before, ds, failing);
    OwnTables(ds);
    AllGroups(ds, failing, TablesOf(ds));
  }

  lemma FirstGroup(db: Database, ds: seq<Delivery>, failing: set<string>, log: seq<Settlement>)
    ensures Partway(db, log, db, log, ds, failing, {})
  {
    NoGroups(ds, failing);
    forall t
      ensures Get(db, t) == Get(db, t) + []
    {
    }
  }

  lemma SettledNext(log: seq<Settlement>, before: seq<Settlement>, ds: seq<Delivery>,
                    failing: set<string>, done: set<string>, t: string)
    requires SettledFor(log, before, ds, failing, done) && t !in done
    ensures SettledFor(log + Settle(Group(ds, t), if t in failing then Nack else Ack),
                       before, ds, failing, done + {t})
  {
    OneMoreGroup(ds, failing, done, t);
  }

  lemma InsertedNext(db: Database, before: Database, ds: seq<Delivery>, failing: set<string>,
                     done: set<string>, t: string)
    requires Inserted(db, before, ds, failing, done) && t !in done
    ensures Inserted(DbAfter(db, t, Rows(Group(ds, t)), failing), before, ds, failing, done + {t})
  {
    if t in failing {
      assert done + {t} - failing == done - failing;
    } else {
      assert done + {t} - failing == (done - failing) + {t};
      ShareOf(db, before, ds, failing, done, t);
    }
  }

  lemma ShareOf(db: Database, before: Database, ds: seq<Delivery>, failing: set<string>, done: set<string>, t: string)
    requires Inserted(db, before, ds, failing, done) && t !in done && t !in failing
    ensures forall u :: Get(db[t := Get(db, t) + Rows(Group(ds, t))], u)
                        == Get(before, u) + Share(ds, failing, done + {t}, u)
  {
    assert Get(before, t) + [] == Get(before, t);
  }
}
