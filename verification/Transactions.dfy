/** A card transaction from the bytes a terminal sends to the rows of both databases. */
module Transactions {
  import opened Text
  import opened Messages
  import opened DailyTotals
  import Amounts
  import Calendar
  import Parser
  import Pg = PostgresRows
  import My = MysqlConsumer

  /** What a terminal sends: twenty values, space-padded, and a filler. */
  function Sent(values: map<Field, string>, filler: string): string
    requires Parser.Fits(values)
  {
    Parser.Compose(values, |Parser.LAYOUT|) + filler
  }

  lemma MemberOfSent(values: map<Field, string>, nowMs: int, f: Field, default: string)
    requires Parser.Fits(values) && f != CardNo && f != BusinessNo
    ensures Member(Parser.MessageOf(values, nowMs).payload, f, default) == values[f] == Trim(values[f])
  {
    TrimTrimmed(values[f]);
    Parser.PublishedRaw(f, values[f]);
    assert Parser.HasPlace(f);
  }

  // ----- kicc_daily_totals -----

  /** A business number, a date of eight bytes that is read as a day, and an hour of the day. */
  predicate Bookable(values: map<Field, string>)
    requires Parser.Fits(values)
  {
    && values[BusinessNo] != ""
    && Calendar.ParseDate(values[ApprovalDate]).Some?
    && Calendar.ParseHour(values[ApprovalTime]).Some?
  }

  /** The hour, the business number, the merchant and the terminal. */
  function KeyOf(values: map<Field, string>): Key
    requires Parser.Fits(values) && Bookable(values)
  {
    var date, hour := Calendar.ParseDate(values[ApprovalDate]).value, Calendar.ParseHour(values[ApprovalTime]).value;
    Key(Calendar.HourStart(Calendar.DayNumber(date), hour),
        values[BusinessNo], values[MerchantNo], values[TerminalNo])
  }

  function AmountSent(values: map<Field, string>): int
    requires Parser.Fits(values)
  {
    Amounts.ParseAmount(values[Amount])
  }

  function Booked(values: map<Field, string>, amount: int): Buckets
    requires Parser.Fits(values)
  {
    if values[CancelFlag] != "" && values[CancelFlag] != "0" then Buckets(0, 0, 0, 0, amount, 1, 0, 0)
    else if values[MsgType] == "0200" then Buckets(amount, 1, 0, 0, 0, 0, 0, 0)
    else Buckets(0, 0, 0, 0, 0, 0, amount, 1)
  }

  lemma BucketsOfSent(values: map<Field, string>, nowMs: int)
    requires Parser.Fits(values)
    ensures Pg.BucketsOf(Parser.MessageOf(values, nowMs)) == Booked(values, AmountSent(values))
  {
    MemberOfSent(values, nowMs, CancelFlag, "");
    MemberOfSent(values, nowMs, MsgType, "");
    MemberOfSent(values, nowMs, Amount, "0");
  }

  lemma RowOfSent(values: map<Field, string>, nowMs: int)
    requires Parser.Fits(values)
    ensures Pg.ToDailyRow(Parser.MessageOf(values, nowMs))
            == if Bookable(values)
               then Some(DailyRow(KeyOf(values), Booked(values, AmountSent(values))))
               else None
  {
    MemberOfSent(values, nowMs, ApprovalDate, "");
    MemberOfSent(values, nowMs, ApprovalTime, "");
    MemberOfSent(values, nowMs, MerchantNo, "");
    MemberOfSent(values, nowMs, TerminalNo, "");
    BucketsOfSent(values, nowMs);
  }

  /** From the wire to the daily totals: a transaction gets a row exactly when it has a business
      number, a readable date and an hour, and the row books its ten-digit amount once, in its own bucket
      of its own hour, merchant and terminal. */
  lemma BookedAsSent(values: map<Field, string>, filler: string, nowMs: int, n: nat)
    requires Parser.Fits(values)
    requires n <= Amounts.MAX_AMOUNT && values[Amount] == Digits(n, Amounts.AMOUNT_WIDTH)
    ensures Parser.ParseFrame(Sent(values, filler), nowMs).Some?
    ensures Pg.ToDailyRow(Parser.ParseFrame(Sent(values, filler), nowMs).value)
            == if Bookable(values) then Some(DailyRow(KeyOf(values), Booked(values, n))) else None
  {
    Parser.ParseOfComposed(values, filler, nowMs);
    RowOfSent(values, nowMs);
    Amounts.PaddedAmountSurvives(n);
  }

  /** A transaction of day `d`, sent at hour `h`, is booked under the Unix second at which that hour
      began in Korea. */
  lemma BookedInItsHour(values: map<Field, string>, filler: string, nowMs: int, n: nat,
                        d: Calendar.Date, h: nat, m: nat, sec: nat)
    requires Parser.Fits(values) && values[BusinessNo] != ""
    requires n <= Amounts.MAX_AMOUNT && values[Amount] == Digits(n, Amounts.AMOUNT_WIDTH)
    requires Calendar.Valid(d) && 0 <= d.year < 10000 && values[ApprovalDate] == Calendar.DateText(d)
    requires h < 24 && values[ApprovalTime] == Calendar.TimeText(h, m, sec)
    ensures Parser.ParseFrame(Sent(values, filler), nowMs).Some?
    ensures Pg.ToDailyRow(Parser.ParseFrame(Sent(values, filler), nowMs).value)
            == Some(DailyRow(
                 Key(86400 * Calendar.DayNumber(d) + 3600 * h - 32400,
                     values[BusinessNo], values[MerchantNo], values[TerminalNo]),
                 Booked(values, n)))
  {
    BookedAsSent(values, filler, nowMs, n);
    Calendar.DateWritten(d);
    Calendar.TimeWritten(h, m, sec);
    KeyOfHour(values, d, h);
  }

  lemma KeyOfHour(values: map<Field, string>, d: Calendar.Date, h: nat)
    requires Parser.Fits(values) && values[BusinessNo] != ""
    requires Calendar.ParseDate(values[ApprovalDate]) == Some(d)
    requires Calendar.ParseHour(values[ApprovalTime]) == Some(h)
    ensures Bookable(values)
    ensures KeyOf(values) == Key(86400 * Calendar.DayNumber(d) + 3600 * h - 32400,
                                 values[BusinessNo], values[MerchantNo], values[TerminalNo])
  {
  }

  // ----- kicc_b tables -----

  predicate HasTable(values: map<Field, string>)
    requires Parser.Fits(values)
  {
    var k := values[BusinessNo];
    k != "" && forall i :: 0 <= i < |k| ==> '0' <= k[i] <= '9' || 'a' <= k[i] <= 'z' || 'A' <= k[i] <= 'Z'
  }

  lemma TableOfSent(values: map<Field, string>)
    requires Parser.Fits(values)
    ensures My.ResolveTable(Some(values[BusinessNo]))
            == if HasTable(values) then Some(My.TABLE_PREFIX + values[BusinessNo]) else None
  {
    TrimTrimmed(values[BusinessNo]);
  }

  predicate Complete(values: map<Field, string>) {
    forall f :: f in values
  }

  /** The columns of a transaction, from the values it was sent with. */
  function Columns(values: map<Field, string>): My.KiccRow
    requires Complete(values)
  {
    My.KiccRow(
      My.TABLE_PREFIX + values[BusinessNo],
      values[BusinessNo],
      values[TranUniqueNbr],
      My.Take(values[MerchantNo], 8),
      values[TerminalNo],
      values[IssuerName],
      values[CancelFlag],
      My.Take(Parser.MaskCardNo(values[CardNo]), 10),
      Amounts.ParseAmount(values[Amount]),
      values[ResponseCode],
      values[TranUniqueNbr],
      values[AcquirerName],
      values[ApprovalNo],
      values[ApprovalDate] + values[ApprovalTime],
      My.FormatDatetime(values[ApprovalDate], values[ApprovalTime]))
  }

  /** From the wire to the transaction tables: a transaction gets a row exactly when its business
      number names a table, and each column of the row is its own value. */
  lemma InsertedAsSent(values: map<Field, string>, filler: string, nowMs: int)
    requires Parser.Fits(values)
    ensures Parser.ParseFrame(Sent(values, filler), nowMs).Some?
    ensures My.ToKiccRow(Parser.ParseFrame(Sent(values, filler), nowMs).value)
            == if HasTable(values) then Some(Columns(values)) else None
  {
    Parser.ParseOfComposed(values, filler, nowMs);
    ColumnsOfSent(values, nowMs);
  }

  /** The columns of a message hold the values sent. */
  ghost predicate Carries(p: Payload, values: map<Field, string>)
    requires Complete(values)
  {
    && (forall f :: f != CardNo && f != BusinessNo ==> My.Column(p, f) == values[f])
    && My.Column(p, CardNo) == Parser.MaskCardNo(values[CardNo])
    && Member(p, Amount, "0") == values[Amount]
    && |values[CancelFlag]| <= 1
  }

  lemma ColumnsOfSent(values: map<Field, string>, nowMs: int)
    requires Parser.Fits(values)
    ensures My.ToKiccRow(Parser.MessageOf(values, nowMs)) == if HasTable(values) then Some(Columns(values)) else None
  {
    SentCarries(values, nowMs);
    RowOfCarried(Parser.MessageOf(values, nowMs), values);
  }

  lemma SentCarries(values: map<Field, string>, nowMs: int)
    requires Parser.Fits(values)
    ensures Carries(Parser.MessageOf(values, nowMs).payload, values)
  {
    var p := Parser.MessageOf(values, nowMs).payload;
    assert forall f :: f != CardNo && f != BusinessNo ==> My.Column(p, f) == values[f] by {
      forall f | f != CardNo && f != BusinessNo
        ensures My.Column(p, f) == values[f]
      {
        ColumnOfSent(values, nowMs, f);
      }
    }
    assert My.Column(p, CardNo) == Parser.MaskCardNo(values[CardNo]) by {
      CardOfSent(values, nowMs);
    }
    assert Member(p, Amount, "0") == values[Amount] by {
      MemberOfSent(values, nowMs, Amount, "0");
    }
    assert |values[CancelFlag]| <= Parser.Width(CancelFlag);
  }

  lemma RowOfCarried(msg: QueueMessage, values: map<Field, string>)
    requires Parser.Fits(values) && Carries(msg.payload, values) && msg.tableKey == Some(values[BusinessNo])
    ensures My.ToKiccRow(msg) == if HasTable(values) then Some(Columns(values)) else None
  {
    TableOfSent(values);
    RowInCarried(msg.payload, values);
  }

  lemma RowInCarried(p: Payload, values: map<Field, string>)
    requires Complete(values) && Carries(p, values)
    ensures My.RowIn(My.TABLE_PREFIX + values[BusinessNo], values[BusinessNo], p) == Columns(values)
  {
  }

  lemma ColumnOfSent(values: map<Field, string>, nowMs: int, f: Field)
    requires Parser.Fits(values) && f != CardNo && f != BusinessNo
    ensures My.Column(Parser.MessageOf(values, nowMs).payload, f) == values[f]
  {
    MemberOfSent(values, nowMs, f, "");
  }

  lemma CardOfSent(values: map<Field, string>, nowMs: int)
    requires Parser.Fits(values)
    ensures My.Column(Parser.MessageOf(values, nowMs).payload, CardNo) == Parser.MaskCardNo(values[CardNo])
  {
    assert Parser.HasPlace(CardNo);
    MaskTrimmed(values[CardNo]);
  }

  lemma MaskTrimmed(text: string)
    ensures Trim(Parser.MaskCardNo(text)) == Parser.MaskCardNo(text)
  {
    TrimTrimmed(Parser.MaskCardNo(text));
  }

  /** Of a card number of 14 bytes or more the tables keep the first six and nothing else. */
  lemma CardColumn(text: string)
    requires Trimmed(text) && |text| >= 14 && '*' !in text
    ensures My.Take(Parser.MaskCardNo(text), 10) == text[..6] + "****"
  {
    TrimTrimmed(text);
  }

  /** The date and the time can be read back from the datetime column, which separates their parts. */
  lemma DatetimeReads(date: string, time: string)
    requires |date| == 8 && |time| == 6
    ensures var r := My.FormatDatetime(date, time);
            && |r| == 19
            && r[..4] + r[5..7] + r[8..10] == date
            && r[11..13] + r[14..16] + r[17..] == time
            && [r[4], r[7], r[10], r[13], r[16]] == ['-', '-', ' ', ':', ':']
  {
    var r := My.FormatDatetime(date, time);
    assert r[..4] == date[..4] && r[5..7] == date[4..6] && r[8..10] == date[6..8];
    assert r[11..13] == time[..2] && r[14..16] == time[2..4] && r[17..] == time[4..6];
  }

  /** A date or a time of another length leaves the column empty. */
  lemma DatetimeMissing(date: string, time: string)
    requires |date| != 8 || |time| != 6
    ensures My.FormatDatetime(date, time) == ""
  {
  }

  /** Columns of limited width keep the front of a text. */
  lemma TakeKeepsFront(s: string, n: nat)
    ensures My.Take(s, n) <= s
    ensures |My.Take(s, n)| == n || (|s| < n && My.Take(s, n) == s)
  {
  }
}
