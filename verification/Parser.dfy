/** The fixed-layout parser of card payloads. */
module Parser {
  import opened Text
  import opened Messages

  const MIN_PAYLOAD := 153

  /** The fields in payload order: No. 1 to No. 20. */
  const LAYOUT: seq<Field> := [
    MerchantType, MsgType, TranUniqueNbr, ResponseCode, TerminalNo,
    Installment, Amount, CardNo, ApprovalNo, ApprovalDate,
    ApprovalTime, OrigDate, CardType, IssuerCode, IssuerName,
    AcquirerCode, AcquirerName, MerchantNo, BusinessNo, CancelFlag]

  function Offset(f: Field): nat {
    match f
    case MerchantType => 0
    case MsgType => 8
    case TranUniqueNbr => 12
    case ResponseCode => 24
    case TerminalNo => 26
    case Installment => 33
    case Amount => 35
    case CardNo => 45
    case ApprovalNo => 61
    case ApprovalDate => 71
    case ApprovalTime => 79
    case OrigDate => 85
    case CardType => 93
    case IssuerCode => 94
    case IssuerName => 97
    case AcquirerCode => 111
    case AcquirerName => 114
    case MerchantNo => 128
    case BusinessNo => 142
    case CancelFlag => 152
  }

  function Width(f: Field): nat {
    match f
    case MerchantType => 8
    case MsgType => 4
    case TranUniqueNbr => 12
    case ResponseCode => 2
    case TerminalNo => 7
    case Installment => 2
    case Amount => 10
    case CardNo => 16
    case ApprovalNo => 10
    case ApprovalDate => 8
    case ApprovalTime => 6
    case OrigDate => 8
    case CardType => 1
    case IssuerCode => 3
    case IssuerName => 14
    case AcquirerCode => 3
    case AcquirerName => 14
    case MerchantNo => 14
    case BusinessNo => 10
    case CancelFlag => 1
  }

  /** `field`: the bytes at an offset, cut at the end of the payload, trimmed. */
  function Extract(payload: string, offset: nat, len: nat): (r: string)
    ensures |r| <= len && Trimmed(r)
  {
    var end := if offset + len <= |payload| then offset + len else |payload|;
    if offset >= |payload| then "" else Trim(payload[offset..end])
  }

  function FieldText(frame: string, f: Field): string {
    Extract(frame, Offset(f), Width(f))
  }

  /** A field that lies within the payload is its slice, trimmed. */
  lemma TextOfSlice(frame: string, f: Field, slice: string)
    requires Offset(f) + Width(f) <= |frame|
    requires frame[Offset(f)..Offset(f) + Width(f)] == slice
    ensures FieldText(frame, f) == Trim(slice)
  {
  }

  lemma TextFits(frame: string, f: Field)
    ensures |FieldText(frame, f)| <= Width(f)
  {
  }

  // ----- masking -----

  function Stars(n: nat): (r: string)
    ensures |r| == n
  {
    seq(n, _ => '*')
  }

  /** The first six and last four digits stay; a short or already masked number is kept. */
  function MaskCardNo(text: string): string {
    var s := Trim(text);
    if |s| < 10 || '*' in s then s else s[..6] + Stars(|s| - 10) + s[|s| - 4..]
  }

  function MaskBusinessNo(text: string): string {
    var s := Trim(text);
    if |s| <= 6 then s else s[..6] + "****"
  }

  /** A mask keeps the length, the first six and the last four, and hides every byte between. */
  lemma CardMaskHides(text: string, i: nat)
    requires Trimmed(text) && |text| >= 10 && '*' !in text && i < |text|
    ensures |MaskCardNo(text)| == |text|
    ensures MaskCardNo(text)[i] == if i < 6 || i >= |text| - 4 then text[i] else '*'
  {
    TrimTrimmed(text);
  }

  /** Short or masked card numbers are kept; of a business number the first six bytes are kept. */
  lemma OtherMasks(text: string)
    requires Trimmed(text)
    ensures |text| < 10 || '*' in text ==> MaskCardNo(text) == text
    ensures |text| <= 6 ==> MaskBusinessNo(text) == text
    ensures |text| > 6 ==> MaskBusinessNo(text) == text[..6] + "****"
  {
    TrimTrimmed(text);
  }

  /** Masking what is masked changes nothing. */
  lemma MasksIdempotent(text: string)
    ensures MaskCardNo(MaskCardNo(text)) == MaskCardNo(text)
    ensures MaskBusinessNo(MaskBusinessNo(text)) == MaskBusinessNo(text)
  {
    TrimTrimmed(MaskCardNo(text));
    TrimTrimmed(MaskBusinessNo(text));
    var s, card := Trim(text), MaskCardNo(text);
    if |s| == 10 && '*' !in s {
      assert card == s;
    } else if |s| > 10 && '*' !in s {
      assert card[6] == '*';
    }
  }

  /** What the queue is given for a field: two fields are masked, the others are sent raw. */
  function Published(f: Field, text: string): string {
    if f.CardNo? then MaskCardNo(text)
    else if f.BusinessNo? then MaskBusinessNo(text)
    else text
  }

  // ----- parse_frame -----

  /** Every field takes up at least one byte of the payload. */
  predicate HasPlace(f: Field): (b: bool)
    ensures b
  {
    Width(f) > 0
  }

  /** `None` is the error of a payload shorter than its last field; `nowMs` is the clock. */
  function ParseFrame(frame: string, nowMs: int): Option<QueueMessage> {
    if |frame| < MIN_PAYLOAD then None
    else Some(MessageOf(Texts(frame), nowMs))
  }

  /** The twenty extracted fields. */
  function Texts(frame: string): (texts: map<Field, string>)
    ensures forall f :: f in texts
  {
    map f: Field | HasPlace(f) :: FieldText(frame, f)
  }

  /** The message built from the twenty extracted fields. */
  function MessageOf(texts: map<Field, string>, nowMs: int): QueueMessage
    requires forall f :: f in texts
  {
    QueueMessage(
      texts[TranUniqueNbr],
      "card_tx_" + texts[MsgType],
      map f: Field | HasPlace(f) :: Published(f, texts[f]),
      nowMs,
      nowMs,
      Some(texts[BusinessNo]))
  }

  lemma ParsedField(frame: string, nowMs: int, f: Field)
    requires |frame| >= MIN_PAYLOAD
    ensures ParseFrame(frame, nowMs).Some?
    ensures f in ParseFrame(frame, nowMs).value.payload
    ensures ParseFrame(frame, nowMs).value.payload[f] == Published(f, FieldText(frame, f))
  {
  }

  lemma ParsedHeader(frame: string, nowMs: int)
    requires |frame| >= MIN_PAYLOAD
    ensures ParseFrame(frame, nowMs).Some?
    ensures var msg := ParseFrame(frame, nowMs).value;
            && msg.id == FieldText(frame, TranUniqueNbr)
            && msg.eventType == "card_tx_" + FieldText(frame, MsgType)
            && msg.timestamp == msg.receivedAt == nowMs
            && msg.tableKey == Some(FieldText(frame, BusinessNo))
  {
  }

  /** The amount of a parsed payload is at most ten bytes long. */
  lemma ParsedAmount(frame: string, nowMs: int)
    requires |frame| >= MIN_PAYLOAD
    ensures ParseFrame(frame, nowMs).Some?
    ensures var payload := ParseFrame(frame, nowMs).value.payload;
            Amount in payload && |payload[Amount]| <= 10
  {
    ParsedField(frame, nowMs, Amount);
    PublishedRaw(Amount, FieldText(frame, Amount));
    TextFits(frame, Amount);
  }

  lemma PublishedRaw(f: Field, text: string)
    requires f != CardNo && f != BusinessNo
    ensures Published(f, text) == text
  {
  }

  /** Frames of 153 bytes or more are parsed, and no others. */
  lemma ParsedIff(frame: string, nowMs: int)
    ensures ParseFrame(frame, nowMs) == None <==> |frame| < 153
  {
  }

  /** The published layout: the bytes of a frame, from `lo` to `hi`, that each member of the payload
      is read from. */
  lemma PublishedLayout(frame: string, nowMs: int, f: Field, lo: nat, hi: nat)
    requires |frame| >= 153
    requires (lo, hi) == (match f
                          case MerchantType => (0, 8)
                          case MsgType => (8, 12)
                          case TranUniqueNbr => (12, 24)
                          case ResponseCode => (24, 26)
                          case TerminalNo => (26, 33)
                          case Installment => (33, 35)
                          case Amount => (35, 45)
                          case CardNo => (45, 61)
                          case ApprovalNo => (61, 71)
                          case ApprovalDate => (71, 79)
                          case ApprovalTime => (79, 85)
                          case OrigDate => (85, 93)
                          case CardType => (93, 94)
                          case IssuerCode => (94, 97)
                          case IssuerName => (97, 111)
                          case AcquirerCode => (111, 114)
                          case AcquirerName => (114, 128)
                          case MerchantNo => (128, 142)
                          case BusinessNo => (142, 152)
                          case CancelFlag => (152, 153))
    ensures lo <= hi <= 153 && ParseFrame(frame, nowMs).Some?
    ensures var text := Trim(frame[lo..hi]);
            Member(ParseFrame(frame, nowMs).value.payload, f, "?")
            == if f.CardNo? then MaskCardNo(text) else if f.BusinessNo? then MaskBusinessNo(text) else text
  {
    PublishedAt(frame, nowMs, f, lo, hi);
  }

  lemma PublishedAt(frame: string, nowMs: int, f: Field, lo: nat, hi: nat)
    requires |frame| >= MIN_PAYLOAD && lo == Offset(f) && hi == lo + Width(f) <= MIN_PAYLOAD
    ensures ParseFrame(frame, nowMs).Some?
    ensures Member(ParseFrame(frame, nowMs).value.payload, f, "?") == Published(f, Trim(frame[lo..hi]))
  {
    ParsedField(frame, nowMs, f);
    TextOfSlice(frame, f, frame[lo..hi]);
  }

  /** The id, the event type, the times and the raw business number of the message. */
  lemma MessageHeader(frame: string, nowMs: int)
    requires |frame| >= 153
    ensures ParseFrame(frame, nowMs).Some?
    ensures var msg := ParseFrame(frame, nowMs).value;
            && msg.id == Trim(frame[12..24])
            && msg.eventType == "card_tx_" + Trim(frame[8..12])
            && msg.timestamp == nowMs && msg.receivedAt == nowMs
            && msg.tableKey == Some(Trim(frame[142..152]))
  {
    TextAt(frame, TranUniqueNbr, 12, 24);
    TextAt(frame, MsgType, 8, 12);
    TextAt(frame, BusinessNo, 142, 152);
    HeaderOf(frame, nowMs, Trim(frame[12..24]), Trim(frame[8..12]), Trim(frame[142..152]));
  }

  lemma HeaderOf(frame: string, nowMs: int, id: string, msgType: string, businessNo: string)
    requires |frame| >= MIN_PAYLOAD && id == FieldText(frame, TranUniqueNbr)
    requires msgType == FieldText(frame, MsgType) && businessNo == FieldText(frame, BusinessNo)
    ensures ParseFrame(frame, nowMs).Some?
    ensures var msg := ParseFrame(frame, nowMs).value;
            && msg.id == id && msg.eventType == "card_tx_" + msgType
            && msg.timestamp == nowMs && msg.receivedAt == nowMs
            && msg.tableKey == Some(businessNo)
  {
    ParsedHeader(frame, nowMs);
  }

  lemma TextAt(frame: string, f: Field, lo: nat, hi: nat)
    requires lo == Offset(f) && hi == lo + Width(f) <= |frame|
    ensures FieldText(frame, f) == Trim(frame[lo..hi])
  {
    TextOfSlice(frame, f, frame[lo..hi]);
  }

  // ----- the layout -----

  /** The index of a field in the layout. */
  function Position(f: Field): nat {
    match f
    case MerchantType => 0
    case MsgType => 1
    case TranUniqueNbr => 2
    case ResponseCode => 3
    case TerminalNo => 4
    case Installment => 5
    case Amount => 6
    case CardNo => 7
    case ApprovalNo => 8
    case ApprovalDate => 9
    case ApprovalTime => 10
    case OrigDate => 11
    case CardType => 12
    case IssuerCode => 13
    case IssuerName => 14
    case AcquirerCode => 15
    case AcquirerName => 16
    case MerchantNo => 17
    case BusinessNo => 18
    case CancelFlag => 19
  }

  lemma LayoutOfPosition(f: Field)
    ensures Position(f) < |LAYOUT| && LAYOUT[Position(f)] == f
  {
  }

  lemma PositionOfLayout(k: nat)
    requires k < |LAYOUT|
    ensures Position(LAYOUT[k]) == k
  {
  }

  /** Where the first `k` fields end when they are laid end to end. */
  function End(k: nat): nat
    requires k <= |LAYOUT|
  {
    if k == 0 then 0 else End(k - 1) + Width(LAYOUT[k - 1])
  }

  /** Every field starts where the fields before it end, and the last one ends at byte 153. */
  lemma OffsetsAreEnds(f: Field)
    ensures Position(f) < |LAYOUT| && LAYOUT[Position(f)] == f
    ensures Offset(f) == End(Position(f))
    ensures End(|LAYOUT|) == MIN_PAYLOAD
  {
    LayoutOfPosition(f);
    Ends();
  }

  lemma Ends()
    ensures End(0) == 0 && End(1) == 8 && End(2) == 12 && End(3) == 24 && End(4) == 26
    ensures End(5) == 33 && End(6) == 35 && End(7) == 45 && End(8) == 61 && End(9) == 71
    ensures End(10) == 79 && End(11) == 85 && End(12) == 93 && End(13) == 94 && End(14) == 97
    ensures End(15) == 111 && End(16) == 114 && End(17) == 128 && End(18) == 142 && End(19) == 152
    ensures End(20) == 153
  {
  }

  lemma {:induction false} EndsIncrease(i: nat, j: nat)
    requires i <= j <= |LAYOUT|
    ensures End(i) <= End(j)
  {
    if i == j {
    } else {
      EndsIncrease(i, j - 1);
    }
  }

  predicate Covers(f: Field, byte: nat) {
    Offset(f) <= byte < Offset(f) + Width(f)
  }

  lemma {:induction false} CoveredBelow(byte: nat, k: nat)
    requires k <= |LAYOUT| && byte < End(k)
    ensures exists f :: Covers(f, byte)
  {
    var f := LAYOUT[k - 1];
    OffsetsAreEnds(f);
    PositionOfLayout(k - 1);
    if byte < End(k - 1) {
      CoveredBelow(byte, k - 1);
    } else {
      assert Covers(f, byte);
    }
  }

  /** The fields tile the first 153 bytes: every byte below 153 lies in exactly one field, and
      no field reaches beyond. */
  lemma FieldsTile(byte: nat)
    ensures (exists f :: Covers(f, byte)) <==> byte < MIN_PAYLOAD
    ensures forall f, g :: Covers(f, byte) && Covers(g, byte) ==> f == g
  {
    OffsetsAreEnds(MerchantType);
    if byte < MIN_PAYLOAD {
      CoveredBelow(byte, |LAYOUT|);
    }
    forall f | Covers(f, byte)
      ensures byte < MIN_PAYLOAD
    {
      OffsetsAreEnds(f);
      EndsIncrease(Position(f) + 1, |LAYOUT|);
    }
    forall f, g | Covers(f, byte) && Covers(g, byte)
      ensures f == g
    {
      OffsetsAreEnds(f);
      OffsetsAreEnds(g);
      if Position(f) < Position(g) {
        EndsIncrease(Position(f) + 1, Position(g));
      } else if Position(g) < Position(f) {
        EndsIncrease(Position(g) + 1, Position(f));
      }
    }
  }

  // ----- writing a payload -----

  /** Twenty trimmed values, each fitting its field. */
  predicate Fits(values: map<Field, string>) {
    forall f :: f in values && |values[f]| <= Width(f) && Trimmed(values[f])
  }

  function Pad(v: string, width: nat): (r: string)
    requires |v| <= width
    ensures |r| == width
  {
    v + Spaces(width - |v|)
  }

  /** The first `k` fields, space-padded and laid end to end. */
  function Compose(values: map<Field, string>, k: nat): (r: string)
    requires Fits(values) && k <= |LAYOUT|
    ensures |r| == End(k)
  {
    if k == 0 then ""
    else Compose(values, k - 1) + Pad(values[LAYOUT[k - 1]], Width(LAYOUT[k - 1]))
  }

  lemma SliceOfFirst(a: string, b: string, lo: nat, hi: nat)
    requires lo <= hi <= |a|
    ensures (a + b)[lo..hi] == a[lo..hi]
  {
  }

  lemma SliceOfSecond(a: string, b: string)
    ensures (a + b)[|a|..|a| + |b|] == b
  {
  }

  lemma {:induction false} ComposeAt(values: map<Field, string>, j: nat, k: nat)
    requires Fits(values) && j < k <= |LAYOUT|
    ensures End(j + 1) <= End(k)
    ensures Compose(values, k)[End(j)..End(j + 1)] == Pad(values[LAYOUT[j]], Width(LAYOUT[j]))
  {
    var before, last := Compose(values, k - 1), Pad(values[LAYOUT[k - 1]], Width(LAYOUT[k - 1]));
    if j < k - 1 {
      ComposeAt(values, j, k - 1);
      SliceOfFirst(before, last, End(j), End(j + 1));
    } else {
      SliceOfSecond(before, last);
    }
  }

  /** The fixed-layout round trip: parsing a payload written from twenty values gives back those
      values, with the card and business numbers masked in the payload and the business number
      raw in the table key. */
  lemma ParseOfComposed(values: map<Field, string>, filler: string, nowMs: int)
    requires Fits(values)
    ensures ParseFrame(Compose(values, |LAYOUT|) + filler, nowMs) == Some(MessageOf(values, nowMs))
  {
    var frame := Compose(values, |LAYOUT|) + filler;
    OffsetsAreEnds(MerchantType);
    forall f
      ensures FieldText(frame, f) == values[f]
    {
      ComposedField(values, filler, f);
    }
    assert Texts(frame) == values;
  }

  lemma ComposedField(values: map<Field, string>, filler: string, f: Field)
    requires Fits(values)
    ensures FieldText(Compose(values, |LAYOUT|) + filler, f) == values[f]
  {
    OffsetsAreEnds(f);
    ComposedAt(values, filler, Position(f));
  }

  lemma ComposedAt(values: map<Field, string>, filler: string, k: nat)
    requires Fits(values) && k < |LAYOUT|
    ensures Extract(Compose(values, |LAYOUT|) + filler, End(k), Width(LAYOUT[k])) == values[LAYOUT[k]]
  {
    var body, f := Compose(values, |LAYOUT|), LAYOUT[k];
    ComposeAt(values, k, |LAYOUT|);
    SliceOfFirst(body, filler, End(k), End(k + 1));
    TrimPadded(values[f], Width(f) - |values[f]|);
  }
}
