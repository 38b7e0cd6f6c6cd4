/** The response a payload gets: the payload itself with its message type and its response code
    rewritten in place. */
module Response {
  import opened Text
  import opened Messages
  import opened Parser

  /** 0100 becomes 0110 and 0200 becomes 0210; other types stay. */
  function ResponseType(msgType: string): string {
    if msgType == "0100" then "0110"
    else if msgType == "0200" then "0210"
    else msgType
  }

  predicate TypeIsWritten(frame: string, msgType: string) {
    |frame| >= 12 && ResponseType(msgType) != ""
  }

  /** The byte at index `i` of a response. */
  function ResponseByte(frame: string, msgType: string, i: nat): char
    requires i < |frame|
    requires TypeIsWritten(frame, msgType) ==> |ResponseType(msgType)| == 4
  {
    if TypeIsWritten(frame, msgType) && 8 <= i < 12 then ResponseType(msgType)[i - 8]
    else if |frame| >= 26 && 24 <= i < 26 then '0'
    else frame[i]
  }

  /** The response, byte by byte. `None` is the panic of copying a message type that is not four
      bytes long into a four-byte slice. */
  function ResponseTo(frame: string, msgType: string): (r: Option<string>)
    ensures r.Some? ==> |r.value| == |frame|
  {
    if TypeIsWritten(frame, msgType) && |ResponseType(msgType)| != 4 then None
    else Some(seq(|frame|, i requires 0 <= i < |frame| => ResponseByte(frame, msgType, i)))
  }

  /** `build_response`: two slices of a copy of the frame are overwritten. */
  method BuildResponse(frame: string, msgType: string) returns (r: Option<string>)
    ensures r == ResponseTo(frame, msgType)
  {
    var resp := frame;
    var respType := if msgType == "0100" then "0110" else if msgType == "0200" then "0210" else msgType;
    if |resp| >= 12 && respType != "" {
      if |respType| != 4 {
        return None;
      }
      resp := resp[..8] + respType + resp[12..];
    }
    if |resp| >= 26 {
      resp := resp[..24] + "00" + resp[26..];
    }
    assert resp == ResponseTo(frame, msgType).value;
    r := Some(resp);
  }

  /** What `process_frame` sends back, whatever the dedup store and the broker did: a payload
      that does not parse is answered with an empty message type. */
  function Reply(frame: string): (r: Option<string>)
    ensures r.Some? ==> |r.value| == |frame|
  {
    ResponseTo(frame, if |frame| < MIN_PAYLOAD then "" else FieldText(frame, MsgType))
  }

  /** The message type is that of the parsed message, and the clock has no part in the response. */
  lemma ReplyAnyTime(frame: string, nowMs: int)
    requires ParseFrame(frame, nowMs).Some?
    ensures Reply(frame) == ResponseTo(frame, Member(ParseFrame(frame, nowMs).value.payload, MsgType, ""))
  {
    ParsedField(frame, nowMs, MsgType);
  }

  lemma ReplyUnparsed(frame: string, nowMs: int)
    requires ParseFrame(frame, nowMs).None?
    ensures Reply(frame) == ResponseTo(frame, "")
  {
  }

  /** A frame has a response exactly when it is too short to parse or its trimmed message type is
      empty or four bytes long. */
  lemma AnsweredIff(frame: string)
    ensures Reply(frame).Some?
            <==> |frame| < MIN_PAYLOAD || |FieldText(frame, MsgType)| == 0 || |FieldText(frame, MsgType)| == 4
  {
  }

  /** A payload written from twenty values has no response exactly when its message type is one to
      three bytes long. */
  lemma ComposedPanics(values: map<Field, string>, filler: string)
    requires Fits(values)
    ensures Reply(Compose(values, |LAYOUT|) + filler) == None <==> 1 <= |values[MsgType]| <= 3
  {
    OffsetsAreEnds(MsgType);
    ComposedField(values, filler, MsgType);
    TextFits(Compose(values, |LAYOUT|) + filler, MsgType);
  }

  /** Twenty values of which only the type is not blank, and it is too short. */
  function ShortType(): (values: map<Field, string>)
    ensures Fits(values) && values[MsgType] == "1"
  {
    map f: Field | HasPlace(f) :: if f == MsgType then "1" else ""
  }

  /** A payload without a response. */
  lemma PanicWitness()
    ensures Reply(Compose(ShortType(), |LAYOUT|)) == None
  {
    var frame := Compose(ShortType(), |LAYOUT|);
    ComposedPanics(ShortType(), "");
    assert frame + "" == frame;
  }

  /** Bytes outside the two rewritten slices stay. */
  lemma UntouchedSlice(frame: string, msgType: string, lo: nat, hi: nat)
    requires ResponseTo(frame, msgType).Some?
    requires lo <= hi <= |frame|
    requires hi <= 8 || (12 <= lo && hi <= 24) || 26 <= lo
    ensures ResponseTo(frame, msgType).value[lo..hi] == frame[lo..hi]
  {
    var r := ResponseTo(frame, msgType).value;
    assert forall i :: lo <= i < hi ==> r[i] == frame[i];
  }

  /** The first eight bytes stay, so a response is framed like its request. */
  lemma ReplyHead(frame: string)
    requires Reply(frame).Some? && |frame| >= 8
    ensures Reply(frame).value[..8] == frame[..8]
  {
    if |frame| >= MIN_PAYLOAD {
      UntouchedSlice(frame, FieldText(frame, MsgType), 0, 8);
    } else {
      UntouchedSlice(frame, "", 0, 8);
    }
  }

  lemma OtherRanges(f: Field)
    requires f != MsgType && f != ResponseCode
    ensures var lo, hi := Offset(f), Offset(f) + Width(f);
            hi <= MIN_PAYLOAD && (hi <= 8 || (12 <= lo && hi <= 24) || 26 <= lo)
  {
  }

  /** A field that shares no byte with the two rewritten slices is read unchanged. */
  lemma OtherFieldsKept(frame: string, f: Field)
    requires |frame| >= MIN_PAYLOAD && Reply(frame).Some?
    requires f != MsgType && f != ResponseCode
    ensures FieldText(Reply(frame).value, f) == FieldText(frame, f)
  {
    OtherRanges(f);
    var lo, hi := Offset(f), Offset(f) + Width(f);
    UntouchedSlice(frame, FieldText(frame, MsgType), lo, hi);
    TextOfSlice(frame, f, frame[lo..hi]);
    TextOfSlice(Reply(frame).value, f, frame[lo..hi]);
  }

  lemma RewrittenFields(frame: string)
    requires |frame| >= MIN_PAYLOAD && Reply(frame).Some?
    ensures FieldText(Reply(frame).value, MsgType) == ResponseType(FieldText(frame, MsgType))
    ensures FieldText(Reply(frame).value, ResponseCode) == "00"
  {
    RewrittenCode(frame, FieldText(frame, MsgType));
    RewrittenType(frame);
  }

  lemma RewrittenCode(frame: string, msgType: string)
    requires |frame| >= MIN_PAYLOAD && ResponseTo(frame, msgType).Some?
    ensures FieldText(ResponseTo(frame, msgType).value, ResponseCode) == "00"
  {
    RewrittenSlices(frame, msgType);
    TextOfSlice(ResponseTo(frame, msgType).value, ResponseCode, "00");
    TrimTrimmed("00");
  }

  lemma RewrittenType(frame: string)
    requires |frame| >= MIN_PAYLOAD && ResponseTo(frame, FieldText(frame, MsgType)).Some?
    ensures var t := FieldText(frame, MsgType);
            FieldText(ResponseTo(frame, t).value, MsgType) == ResponseType(t)
  {
    var t := FieldText(frame, MsgType);
    var r := ResponseTo(frame, t).value;
    RewrittenSlices(frame, t);
    if t == "" {
      TextOfSlice(frame, MsgType, frame[8..12]);
      TextOfSlice(r, MsgType, frame[8..12]);
    } else {
      TextOfSlice(r, MsgType, ResponseType(t));
      TypeTrimmed(t);
      TrimTrimmed(ResponseType(t));
    }
  }

  /** The four bytes of the type: an approval request is answered 0110, a 0200 is answered 0210, and
      any other type is sent back as it came. */
  lemma TypeAnswered(frame: string)
    requires |frame| >= MIN_PAYLOAD && Reply(frame).Some?
    ensures var t, r := Trim(frame[8..12]), Reply(frame).value;
            && |r| == |frame| && r[24..26] == "00"
            && (t == "0100" ==> r[8..12] == "0110")
            && (t == "0200" ==> r[8..12] == "0210")
            && (t != "0100" && t != "0200" ==> r[8..12] == frame[8..12])
  {
    var t := FieldText(frame, MsgType);
    TextOfSlice(frame, MsgType, frame[8..12]);
    RewrittenSlices(frame, t);
    if t != "" {
      FullTrim(frame[8..12]);
    }
  }

  /** A trimmed text that is as long as before was not trimmed. */
  lemma FullTrim(s: string)
    ensures |Trim(s)| == |s| ==> Trim(s) == s
  {
  }

  /** A payload that is too short to parse is sent back, with the response code "00" if it reaches
      that far. */
  lemma ShortReply(frame: string)
    requires |frame| < 153
    ensures Reply(frame) == Some(if |frame| >= 26 then frame[..24] + "00" + frame[26..] else frame)
  {
    var r := Reply(frame).value;
    var expected := if |frame| >= 26 then frame[..24] + "00" + frame[26..] else frame;
    assert forall i :: 0 <= i < |frame| ==> r[i] == expected[i];
    assert r == expected;
  }

  lemma TypeTrimmed(t: string)
    requires Trimmed(t)
    ensures Trimmed(ResponseType(t))
  {
  }

  lemma RewrittenSlices(frame: string, msgType: string)
    requires |frame| >= 26 && ResponseTo(frame, msgType).Some?
    ensures var r := ResponseTo(frame, msgType).value;
            && r[24..26] == "00"
            && r[8..12] == if msgType == "" then frame[8..12] else ResponseType(msgType)
  {
  }

  /** The response is the same transaction: it parses to the same id, table key and fields, with
      the type mapped and the response code "00". */
  lemma ReplyKeepsTransaction(frame: string, nowMs: int)
    requires |frame| >= MIN_PAYLOAD && Reply(frame).Some?
    ensures ParseFrame(frame, nowMs).Some?
    ensures var before := ParseFrame(frame, nowMs).value;
            var msgType := ResponseType(Member(before.payload, MsgType, ""));
            ParseFrame(Reply(frame).value, nowMs) == Some(before.(
              eventType := "card_tx_" + msgType,
              payload := before.payload[MsgType := msgType][ResponseCode := "00"]))
  {
    var r := Reply(frame).value;
    ParsedHeader(frame, nowMs);
    ParsedHeader(r, nowMs);
    RewrittenFields(frame);
    OtherFieldsKept(frame, TranUniqueNbr);
    OtherFieldsKept(frame, BusinessNo);
    ParsedField(frame, nowMs, MsgType);
    ReplyPayload(frame, nowMs);
  }

  lemma ReplyPayload(frame: string, nowMs: int)
    requires |frame| >= MIN_PAYLOAD && Reply(frame).Some?
    requires ParseFrame(frame, nowMs).Some? && ParseFrame(Reply(frame).value, nowMs).Some?
    ensures var before, after :=
              ParseFrame(frame, nowMs).value.payload, ParseFrame(Reply(frame).value, nowMs).value.payload;
            && MsgType in before
            && after == before[MsgType := ResponseType(before[MsgType])][ResponseCode := "00"]
  {
    var before, after := ParseFrame(frame, nowMs).value.payload, ParseFrame(Reply(frame).value, nowMs).value.payload;
    forall f
      ensures f in before && f in after && Rewritten(f, before[f], after[f])
    {
      ReplyField(frame, nowMs, f);
    }
    TwoUpdates(before, after);
  }

  /** How a field of the response relates to the same field of the frame. */
  predicate Rewritten(f: Field, before: string, after: string) {
    after == (if f == MsgType then ResponseType(before) else if f == ResponseCode then "00" else before)
  }

  lemma TwoUpdates(before: Payload, after: Payload)
    requires forall f :: f in before && f in after && Rewritten(f, before[f], after[f])
    ensures after == before[MsgType := ResponseType(before[MsgType])][ResponseCode := "00"]
  {
  }

  lemma ReplyField(frame: string, nowMs: int, f: Field)
    requires |frame| >= MIN_PAYLOAD && Reply(frame).Some?
    ensures ParseFrame(frame, nowMs).Some? && ParseFrame(Reply(frame).value, nowMs).Some?
    ensures var before, after :=
              ParseFrame(frame, nowMs).value.payload, ParseFrame(Reply(frame).value, nowMs).value.payload;
            f in before && f in after && Rewritten(f, before[f], after[f])
  {
    ParsedField(frame, nowMs, f);
    ParsedField(Reply(frame).value, nowMs, f);
    if f == MsgType || f == ResponseCode {
      RewrittenFields(frame);
    } else {
      OtherFieldsKept(frame, f);
    }
  }

  /** Answering a response changes nothing. */
  lemma ReplyIdempotent(frame: string)
    requires Reply(frame).Some?
    ensures Reply(Reply(frame).value) == Reply(frame)
  {
    var r := Reply(frame).value;
    if |frame| >= MIN_PAYLOAD {
      RewrittenFields(frame);
      RewriteTwice(frame, FieldText(frame, MsgType));
    } else {
      RewriteTwice(frame, "");
    }
  }

  lemma RewriteTwice(frame: string, msgType: string)
    requires ResponseTo(frame, msgType).Some?
    ensures ResponseTo(ResponseTo(frame, msgType).value, ResponseType(msgType)) == ResponseTo(frame, msgType)
  {
    var r := ResponseTo(frame, msgType).value;
    assert ResponseTo(r, ResponseType(msgType)).value == r;
  }
}
