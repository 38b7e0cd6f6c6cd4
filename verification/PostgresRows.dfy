/** From queue messages to rows of `kicc_daily_totals`. */
module PostgresRows {
  import opened Text
  import opened Messages
  import opened Deliveries
  import opened DailyTotals
  import opened Lists
  import Amounts
  import Calendar
  import Parser

  /** Any cancel flag other than "0" cancels. */
  predicate IsCancel(p: Payload) {
    var flag := Trim(Member(p, CancelFlag, ""));
    flag != "" && flag != "0"
  }

  function AmountOf(msg: QueueMessage): int {
    Amounts.ParseAmount(Member(msg.payload, Amount, "0"))
  }

  /** Each message counts once, in the cancel, card or other bucket. */
  function BucketsOf(msg: QueueMessage): Buckets {
    var amount := AmountOf(msg);
    if IsCancel(msg.payload) then ZERO.(cancelAmount := amount, cancelCount := 1)
    else if Trim(Member(msg.payload, MsgType, "")) == "0200" then ZERO.(cardAmount := amount, cardCount := 1)
    else ZERO.(otherAmount := amount, otherCount := 1)
  }

  /** `to_daily_row`: no row without a table key, an eight-byte date and a readable time. */
  function ToDailyRow(msg: QueueMessage): Option<DailyRow> {
    var p := msg.payload;
    if msg.tableKey.GetOr("") == "" then None
    else
      var date, time := Trim(Member(p, ApprovalDate, "")), Trim(Member(p, ApprovalTime, ""));
      if |date| != 8 then None
      else
        match Calendar.ParseDatetimeUnix(date, time)
        case None => None
        case Some(tsUnix) =>
          var key := Key(tsUnix, msg.tableKey.value,
                         Trim(Member(p, MerchantNo, "")), Trim(Member(p, TerminalNo, "")));
          Some(DailyRow(key, BucketsOf(msg)))
  }

  /** The key of any message: its business number as it came, and the trimmed merchant and
      terminal, which are empty if the payload lacks them. */
  lemma KeyOfAnyMessage(msg: QueueMessage)
    requires ToDailyRow(msg).Some?
    ensures var key := ToDailyRow(msg).value.key;
            && msg.tableKey == Some(key.bid) && key.bid != ""
            && key.mid == (if MerchantNo in msg.payload then Trim(msg.payload[MerchantNo]) else "")
            && key.psn == (if TerminalNo in msg.payload then Trim(msg.payload[TerminalNo]) else "")
  {
  }

  // ----- the rows of a list of deliveries -----

  function RowOf(d: Delivery): Option<DailyRow> {
    match d.body
    case Message(msg) => ToDailyRow(msg)
    case Garbage => None
  }

  /** The rows of the convertible deliveries, in order. */
  function RowsOf(ds: seq<Delivery>): seq<DailyRow> {
    Collect(ds, RowOf)
  }

  // ----- bucket conservation -----

  function AmountIn(d: Delivery): Option<int> {
    if RowOf(d).Some? then Some(AmountOf(d.body.msg)) else None
  }

  function Sum(s: seq<int>): int {
    if s == [] then 0 else Sum(s[..|s| - 1]) + s[|s| - 1]
  }

  /** For any batch the amounts over all keys and buckets add up to the parsed amounts of the
      convertible messages, the counts to their number, and the cash bucket stays zero. */
  lemma {:induction false} BucketConservation(ds: seq<Delivery>)
    ensures var g := GrandTotal(TotalOf(RowsOf(ds)));
            && g.cardAmount + g.cancelAmount + g.otherAmount == Sum(Collect(ds, AmountIn))
            && g.cardCount + g.cancelCount + g.otherCount == |Having(ds, RowOf)|
            && g.cashAmount == 0
            && g.cashCount == 0
  {
    if ds == [] {
    } else {
      var init, last := ds[..|ds| - 1], ds[|ds| - 1];
      BucketConservation(init);
      if RowOf(last).Some? {
        RowBuckets(last);
        LastRow(RowsOf(init), RowOf(last).value);
        LastAmount(Collect(init, AmountIn), AmountIn(last).value);
      }
    }
  }

  lemma LastAmount(amounts: seq<int>, amount: int)
    ensures Sum(amounts + [amount]) == Sum(amounts) + amount
  {
    assert (amounts + [amount])[..|amounts|] == amounts;
  }

  lemma RowBuckets(d: Delivery)
    requires RowOf(d).Some?
    ensures var b := RowOf(d).value.sums;
            && b.cardAmount + b.cancelAmount + b.otherAmount == AmountIn(d).value
            && b.cardCount + b.cancelCount + b.otherCount == 1
            && b.cashAmount == b.cashCount == 0
  {
    RowFacts(d.body.msg);
  }

  lemma LastRow(rows: seq<DailyRow>, row: DailyRow)
    ensures GrandTotal(TotalOf(rows + [row])) == Plus(GrandTotal(TotalOf(rows)), row.sums)
  {
    assert (rows + [row])[..|rows|] == rows;
    GrandTotalAdd(TotalOf(rows), row.key, row.sums);
  }

  /** A message lands in exactly one bucket: cancel if its cancel flag is set, card if it is an
      uncancelled 0200, other otherwise. */
  lemma OneBucket(msg: QueueMessage)
    requires ToDailyRow(msg).Some?
    ensures var b := ToDailyRow(msg).value.sums;
            && {b.cardCount, b.cancelCount, b.otherCount} == {0, 1}
            && b.cardCount + b.cancelCount + b.otherCount == 1
            && (b.cancelCount == 1 <==> IsCancel(msg.payload))
            && (b.cardCount == 1 <==> !IsCancel(msg.payload) && Trim(Member(msg.payload, MsgType, "")) == "0200")
  {
    RowFacts(msg);
  }

  // ----- overflow -----

  /** What the two listeners put into the queues: parsed card payloads, and HTTP events, which
      have no table key. */
  ghost predicate FromListeners(msg: QueueMessage) {
    msg.tableKey == None || exists frame, nowMs :: Parser.ParseFrame(frame, nowMs) == Some(msg)
  }

  lemma CardAmountBounded(msg: QueueMessage)
    requires FromListeners(msg) && msg.tableKey != None
    ensures -Amounts.MAX_AMOUNT <= AmountOf(msg) <= Amounts.MAX_AMOUNT
  {
    var frame, nowMs :| Parser.ParseFrame(frame, nowMs) == Some(msg);
    Parser.ParsedAmount(frame, nowMs);
    Amounts.ShortAmountBounded(msg.payload[Amount]);
  }

  predicate Within(b: Buckets, amount: int, count: int) {
    && -amount <= b.cardAmount <= amount && 0 <= b.cardCount <= count
    && -amount <= b.cashAmount <= amount && 0 <= b.cashCount <= count
    && -amount <= b.cancelAmount <= amount && 0 <= b.cancelCount <= count
    && -amount <= b.otherAmount <= amount && 0 <= b.otherCount <= count
  }

  ghost predicate AllFromListeners(ds: seq<Delivery>) {
    forall i :: 0 <= i < |ds| && ds[i].body.Message? ==> FromListeners(ds[i].body.msg)
  }

  lemma RowWithin(d: Delivery)
    requires d.body.Message? && FromListeners(d.body.msg) && RowOf(d).Some?
    ensures Within(RowOf(d).value.sums, Amounts.MAX_AMOUNT, 1)
  {
    RowFacts(d.body.msg);
    CardAmountBounded(d.body.msg);
    BucketsWithin(d.body.msg);
  }

  lemma RowFacts(msg: QueueMessage)
    requires ToDailyRow(msg).Some?
    ensures msg.tableKey != None && ToDailyRow(msg).value.sums == BucketsOf(msg)
  {
  }

  lemma BucketsWithin(msg: QueueMessage)
    requires -Amounts.MAX_AMOUNT <= AmountOf(msg) <= Amounts.MAX_AMOUNT
    ensures Within(BucketsOf(msg), Amounts.MAX_AMOUNT, 1)
  {
  }

  lemma {:induction false} TotalsWithin(ds: seq<Delivery>, k: Key)
    requires AllFromListeners(ds)
    ensures Within(Get(TotalOf(RowsOf(ds)), k), |ds| * Amounts.MAX_AMOUNT, |ds|)
  {
    if ds == [] {
    } else {
      var init, last := ds[..|ds| - 1], ds[|ds| - 1];
      TotalsWithin(init, k);
      if RowOf(last).Some? {
        RowWithin(last);
        AddedWithin(RowsOf(init), RowOf(last).value, k, |init| * Amounts.MAX_AMOUNT, |init|);
      }
    }
  }

  lemma AddedWithin(rows: seq<DailyRow>, row: DailyRow, k: Key, amount: nat, count: nat)
    requires Within(Get(TotalOf(rows), k), amount, count) && Within(row.sums, Amounts.MAX_AMOUNT, 1)
    ensures Within(Get(TotalOf(rows + [row]), k), amount + Amounts.MAX_AMOUNT, count + 1)
  {
    assert (rows + [row])[..|rows|] == rows;
    GetMerge(TotalOf(rows), map[row.key := row.sums], k);
  }

  const MAX_SAFE_BATCH := 922_337_203

  /** With at most 922,337,203 deliveries in a batch no partial sum of the aggregation leaves the
      range of its `i64` or `i32`: neither after `n` deliveries nor at the end. */
  lemma NoOverflow(ds: seq<Delivery>, n: nat, k: Key)
    requires n <= |ds| <= MAX_SAFE_BATCH
    requires AllFromListeners(ds)
    ensures Within(Get(TotalOf(RowsOf(ds[..n])), k), I64_MAX, I32_MAX)
  {
    TotalsWithin(ds[..n], k);
  }
}
