/** HTTP and TCP handlers around the duplicate filter and the broker, interleaved in any way. */
module Ingestion {
  import opened Text
  import opened Messages
  import opened Dedup
  import Parser
  import Response

  // ----- requests -----

  datatype IncomingEvent = IncomingEvent(id: string, eventType: string, payload: Payload, timestamp: Option<int>)

  predicate IsIdChar(c: char) {
    IsDigit(c) || 'a' <= c <= 'z' || 'A' <= c <= 'Z' || c == '-' || c == '_'
  }

  /** `validate_event` */
  predicate ValidEvent(e: IncomingEvent) {
    && 1 <= |e.id| <= 128
    && (forall i :: 0 <= i < |e.id| ==> IsIdChar(e.id[i]))
    && 1 <= |e.eventType| <= 64
  }

  function MessageOf(e: IncomingEvent, now: int): QueueMessage {
    QueueMessage(e.id, e.eventType, e.payload, e.timestamp.GetOr(now), now, None)
  }

  const ACCEPTED := 202
  const CONFLICT := 409
  const UNPROCESSABLE := 422
  const INTERNAL_ERROR := 500
  const UNAVAILABLE := 503

  // ----- the two handlers, run without interruption -----

  /** What the broker does with a publish: it refuses the message, rejects it with a negative
      confirmation, takes it without a confirmation that arrives, or takes and confirms it. */
  datatype Broker = Refused | Nacked | TakenUnconfirmed | Confirmed

  predicate Takes(broker: Broker) {
    broker == TakenUnconfirmed || broker == Confirmed
  }

  /** `publish` waits for a confirmation and does not look at it, so a negative one is a success. */
  predicate Confirms(broker: Broker) {
    broker == Nacked || broker == Confirmed
  }

  class AppState {
    const dedup: DedupChecker
    /** The messages that the broker has taken. */
    var queue: seq<QueueMessage>

    constructor (ttl: nat)
      ensures fresh(dedup) && dedup.ttl == ttl && dedup.keys == map[] && queue == []
    {
      dedup := new DedupChecker(ttl);
      queue := [];
    }

    method Publish(msg: QueueMessage, broker: Broker) returns (ok: bool)
      modifies this`queue
      ensures queue == if broker == TakenUnconfirmed || broker == Confirmed then old(queue) + [msg] else old(queue)
      ensures ok <==> broker == Nacked || broker == Confirmed
    {
      if broker == Refused {
        return false;
      }
      if broker != Nacked {
        queue := queue + [msg];
      }
      return broker != TakenUnconfirmed;
    }

    /** `handle_event`: the status says exactly how far the event got. */
    method HandleEvent(e: IncomingEvent, now: int, link: Link, broker: Broker) returns (status: int)
      modifies this`queue, dedup
      ensures var answer := AnswerOf(old(dedup.keys), dedup.ttl, e.id, now, link);
              && (status == 422 <==> !ValidEvent(e))
              && (status == 503 <==> ValidEvent(e) && answer == Failed)
              && (status == 409 <==> ValidEvent(e) && answer == Duplicate)
              && (status == 202 <==> ValidEvent(e) && answer == New && Confirms(broker))
              && (status == 500 <==> ValidEvent(e) && answer == New && !Confirms(broker))
              && queue == (if ValidEvent(e) && answer == New && Takes(broker)
                           then old(queue) + [QueueMessage(e.id, e.eventType, e.payload,
                                                           if e.timestamp.Some? then e.timestamp.value else now,
                                                           now, None)]
                           else old(queue))
      ensures dedup.keys == if ValidEvent(e) then KeysAfter(old(dedup.keys), dedup.ttl, e.id, now, link)
                            else old(dedup.keys)
    {
      if |e.id| == 0 || |e.id| > 128 {
        return UNPROCESSABLE;
      }
      if !(forall i :: 0 <= i < |e.id| ==> IsIdChar(e.id[i])) {
        return UNPROCESSABLE;
      }
      if |e.eventType| == 0 || |e.eventType| > 64 {
        return UNPROCESSABLE;
      }
      var answer := dedup.IsNew(e.id, now, link);
      if answer == Failed {
        return UNAVAILABLE;
      }
      if answer == Duplicate {
        return CONFLICT;
      }
      var ok := Publish(MessageOf(e, now), broker);
      return if ok then ACCEPTED else INTERNAL_ERROR;
    }

    /** `process_frame`: new, duplicate and failed frames all get the same response; only a new
        one that parses is published. `None` is a panic in `build_response`. */
    method ProcessFrame(frame: string, now: int, link: Link, broker: Broker) returns (response: Option<string>)
      modifies this`queue, dedup
      ensures response == Response.Reply(frame)
      ensures (match Parser.ParseFrame(frame, now)
               case None => queue == old(queue) && dedup.keys == old(dedup.keys)
               case Some(msg) =>
                 && dedup.keys == KeysAfter(old(dedup.keys), dedup.ttl, msg.id, now, link)
                 && queue == if AnswerOf(old(dedup.keys), dedup.ttl, msg.id, now, link) == New && Takes(broker)
                             then old(queue) + [msg] else old(queue))
    {
      var parsed := Parser.ParseFrame(frame, now);
      match parsed {
        case None =>
          Response.ReplyUnparsed(frame, now);
          response := Response.BuildResponse(frame, "");
        case Some(msg) =>
          Response.ReplyAnyTime(frame, now);
          var msgType := Member(msg.payload, MsgType, "");
          var answer := dedup.IsNew(msg.id, now, link);
          if answer == New {
            var _ := Publish(msg, broker);
          }
          response := Response.BuildResponse(frame, msgType);
      }
    }
  }

  /** Which parsed frames the duplicate filter passes. One with a blank transaction number never
      passes, so it is answered like any other but published by nobody. */
  lemma FramePasses(frame: string, now: int, keys: Keys, ttl: nat, link: Link)
    requires |frame| >= Parser.MIN_PAYLOAD
    ensures Parser.ParseFrame(frame, now).Some?
    ensures var id := Parser.ParseFrame(frame, now).value.id;
            AnswerOf(keys, ttl, id, now, link) == New
            <==> |Parser.FieldText(frame, TranUniqueNbr)| > 0 && ttl > 0 && link == Up && !Taken(keys, id, now)
  {
    Parser.ParsedHeader(frame, now);
    Parser.TextFits(frame, TranUniqueNbr);
  }

  // ----- interleaving -----

  datatype Source = Http(event: IncomingEvent) | Tcp(msg: QueueMessage)

  function IdOf(r: Source): string {
    if r.Http? then r.event.id else r.msg.id
  }

  /** What a handler does: it wins a SET, or its SET takes effect but the reply is lost, it sends
      its message to the broker, the broker takes it, and an HTTP handler answers. */
  datatype Deed = Win | LostWin | Send | Enqueued | Status(code: int)

  datatype Entry = Entry(who: nat, id: string, at: int, deed: Deed)

  /** What a publish waits for: the broker's positive or negative confirmation, or an error. */
  datatype Confirmation = BrokerAck | BrokerNack | NoReply

  /** `Gone`: the client hung up and its handler was dropped. */
  datatype Pc = Arrived | Won | Waiting | Done | Gone

  /** `sentAt`: when the handler sent its message; `taken`: whether the broker took it, once the
      broker has decided. */
  datatype Handler = Handler(source: Source, pc: Pc, sentAt: Option<int>, taken: Option<bool>)

  datatype State = State(now: int, keys: Keys, handlers: map<nat, Handler>, log: seq<Entry>)

  /** A client that hangs up while the SET is under way counts as a lost request or reply. */
  datatype Step =
    | Advance(time: nat)
    | Begin(who: nat, source: Source)
    | CheckDuplicate(who: nat, link: Link)
    | SendToBroker(who: nat)
    | BrokerDecides(who: nat, taken: bool)
    | AwaitConfirm(who: nat, reply: Confirmation)
    | Drop(who: nat)

  /** The broker confirms only what it has taken, and rejects only what it has not. */
  predicate Enabled(s: State, step: Step) {
    match step
    case Advance(_) => true
    case Begin(who, _) => who !in s.handlers
    case CheckDuplicate(who, _) => who in s.handlers && s.handlers[who].pc == Arrived
    case SendToBroker(who) => who in s.handlers && s.handlers[who].pc == Won
    case BrokerDecides(who, _) =>
      who in s.handlers && s.handlers[who].sentAt != None && s.handlers[who].taken == None
    case AwaitConfirm(who, reply) =>
      && who in s.handlers && s.handlers[who].pc == Waiting
      && (reply == BrokerAck ==> s.handlers[who].taken == Some(true))
      && (reply == BrokerNack ==> s.handlers[who].taken == Some(false))
    case Drop(who) =>
      && who in s.handlers && s.handlers[who].source.Http?
      && (s.handlers[who].pc == Arrived || s.handlers[who].pc == Won || s.handlers[who].pc == Waiting)
  }

  /** A handler moves on and leaves entries in the log. */
  function Move(s: State, who: nat, h: Handler, deeds: seq<Deed>): State {
    s.(handlers := s.handlers[who := h],
       log := s.log + Entries(who, IdOf(h.source), s.now, deeds))
  }

  function Entries(who: nat, id: string, at: int, deeds: seq<Deed>): (r: seq<Entry>)
    ensures |r| == |deeds|
  {
    seq(|deeds|, i requires 0 <= i < |deeds| => Entry(who, id, at, deeds[i]))
  }

  /** TCP handlers send no status. */
  function Answering(source: Source, code: int): seq<Deed> {
    if source.Http? then [Status(code)] else []
  }

  /** A handler that is told of a failure does not know whether it has set the key. */
  function Checking(source: Source, answer: Answer, marked: bool): seq<Deed> {
    match answer
    case New => [Win]
    case Duplicate => Answering(source, CONFLICT)
    case Failed => if marked then [LostWin] + Answering(source, UNAVAILABLE) else Answering(source, UNAVAILABLE)
  }

  function Deciding(taken: bool): seq<Deed> {
    if taken then [Enqueued] else []
  }

  function CodeOf(reply: Confirmation): int {
    if reply == NoReply then INTERNAL_ERROR else ACCEPTED
  }

  function Unsent(source: Source, pc: Pc): Handler {
    Handler(source, pc, None, None)
  }

  function Apply(s: State, ttl: nat, step: Step): State
    requires Enabled(s, step)
  {
    match step
    case Advance(time) => s.(now := s.now + time)
    case Begin(who, source) =>
      if source.Http? && !ValidEvent(source.event) then Move(s, who, Unsent(source, Done), [Status(UNPROCESSABLE)])
      else Move(s, who, Unsent(source, Arrived), [])
    case CheckDuplicate(who, link) =>
      var h := s.handlers[who];
      var id := IdOf(h.source);
      var answer, marked := AnswerOf(s.keys, ttl, id, s.now, link), Marks(s.keys, ttl, id, s.now, link);
      Move(s.(keys := KeysAfter(s.keys, ttl, id, s.now, link)),
           who, h.(pc := if answer == New then Won else Done), Checking(h.source, answer, marked))
    case SendToBroker(who) =>
      Move(s, who, s.handlers[who].(pc := Waiting, sentAt := Some(s.now)), [Send])
    case BrokerDecides(who, taken) =>
      Move(s, who, s.handlers[who].(taken := Some(taken)), Deciding(taken))
    case AwaitConfirm(who, reply) =>
      var h := s.handlers[who];
      Move(s, who, h.(pc := Done), Answering(h.source, CodeOf(reply)))
    case Drop(who) => Move(s, who, s.handlers[who].(pc := Gone), [])
  }

  const INITIAL := State(0, map[], map[], [])

  predicate CanRun(ttl: nat, steps: seq<Step>)
    decreases |steps|, 0
  {
    steps == []
    || (CanRun(ttl, steps[..|steps| - 1])
        && Enabled(After(ttl, steps[..|steps| - 1]), steps[|steps| - 1]))
  }

  function After(ttl: nat, steps: seq<Step>): State
    requires CanRun(ttl, steps)
    decreases |steps|, 1
  {
    if steps == [] then INITIAL
    else Apply(After(ttl, steps[..|steps| - 1]), ttl, steps[|steps| - 1])
  }

  // ----- what each step answers -----

  /** A request is answered 422 exactly when its id is not one to 128 letters, digits, hyphens and
      underscores, or its type not one to 64 bytes; otherwise its handler goes on. */
  lemma RequestAnswered(s: State, ttl: nat, who: nat, e: IncomingEvent)
    requires who !in s.handlers
    ensures var t := Apply(s, ttl, Begin(who, Http(e)));
            var fine := && 1 <= |e.id| <= 128 && 1 <= |e.eventType| <= 64
                        && forall i :: 0 <= i < |e.id| ==>
                             || '0' <= e.id[i] <= '9' || 'a' <= e.id[i] <= 'z' || 'A' <= e.id[i] <= 'Z'
                             || e.id[i] == '-' || e.id[i] == '_';
            && t == State(s.now, s.keys, s.handlers[who := Unsent(Http(e), if fine then Arrived else Done)],
                          if fine then s.log else s.log + [Entry(who, e.id, s.now, Status(422))])
            && (fine <==> ValidEvent(e))
  {
    var fine := && 1 <= |e.id| <= 128 && 1 <= |e.eventType| <= 64
                && forall i :: 0 <= i < |e.id| ==>
                     || '0' <= e.id[i] <= '9' || 'a' <= e.id[i] <= 'z' || 'A' <= e.id[i] <= 'Z'
                     || e.id[i] == '-' || e.id[i] == '_';
    assert fine ==> forall i :: 0 <= i < |e.id| ==> IsIdChar(e.id[i]);
    assert ValidEvent(e) ==> fine by {
      assert ValidEvent(e) ==> forall i :: 0 <= i < |e.id| ==> IsIdChar(e.id[i]);
    }
  }

  /** The duplicate check of a valid event: on a free id the handler wins and goes on, a held id is
      answered 409, and a store that fails, with or without having set the key, 503. */
  lemma CheckAnswered(s: State, ttl: nat, who: nat, e: IncomingEvent, link: Link)
    requires Enabled(s, CheckDuplicate(who, link)) && s.handlers[who].source == Http(e)
    requires ValidEvent(e) && ttl > 0
    ensures var t := Apply(s, ttl, CheckDuplicate(who, link));
            var held := "dedup:" + e.id in s.keys && s.now < s.keys["dedup:" + e.id];
            && t.handlers == s.handlers[who := s.handlers[who].(pc := if !held && link == Up then Won else Done)]
            && t.keys == (if held || link == RequestLost then s.keys else s.keys["dedup:" + e.id := s.now + ttl])
            && t.log == s.log + Entries(who, e.id, s.now,
                                        if link == RequestLost then [Status(503)]
                                        else if link == ReplyLost then (if held then [] else [LostWin]) + [Status(503)]
                                        else if held then [Status(409)]
                                        else [Win])
  {
    AnswerUp(s.keys, ttl, e.id, s.now);
    AnswerFailed(s.keys, ttl, e.id, s.now, link);
  }

  /** The end of a request: 202 for a positive and for a negative confirmation, 500 for none. */
  lemma ConfirmationAnswered(s: State, ttl: nat, who: nat, reply: Confirmation)
    requires Enabled(s, AwaitConfirm(who, reply))
    ensures var h := s.handlers[who];
            var deeds := if h.source.Tcp? then [] else [Status(if reply.NoReply? then 500 else 202)];
            Apply(s, ttl, AwaitConfirm(who, reply))
            == State(s.now, s.keys, s.handlers[who := h.(pc := Done)],
                     s.log + Entries(who, IdOf(h.source), s.now, deeds))
  {
  }

  /** A TCP handler is never dropped: a terminal that hangs up does not stop its transaction. */
  lemma {:induction false} TerminalNeverDrops(ttl: nat, steps: seq<Step>, who: nat)
    requires CanRun(ttl, steps)
    ensures var s := After(ttl, steps);
            who in s.handlers && s.handlers[who].source.Tcp? ==> s.handlers[who].pc != Gone
  {
    if steps == [] {
    } else {
      var before := steps[..|steps| - 1];
      TerminalNeverDrops(ttl, before, who);
      TerminalGoesOn(After(ttl, before), ttl, steps[|steps| - 1], who);
    }
  }

  lemma TerminalGoesOn(s: State, ttl: nat, step: Step, who: nat)
    requires Enabled(s, step)
    requires who in s.handlers && s.handlers[who].source.Tcp? ==> s.handlers[who].pc != Gone
    ensures var t := Apply(s, ttl, step);
            who in t.handlers && t.handlers[who].source.Tcp? ==> t.handlers[who].pc != Gone
  {
  }

  lemma RunOn(ttl: nat, steps: seq<Step>, step: Step)
    requires CanRun(ttl, steps) && Enabled(After(ttl, steps), step)
    ensures CanRun(ttl, steps + [step]) && After(ttl, steps + [step]) == Apply(After(ttl, steps), ttl, step)
  {
    assert (steps + [step])[..|steps|] == steps;
  }

  /** The steps of a request that meets no trouble: up to the win, and from there. */
  function ToWin(who: nat, e: IncomingEvent): seq<Step> {
    [Begin(who, Http(e))] + [CheckDuplicate(who, Up)]
  }

  function FromWin(who: nat): seq<Step> {
    [SendToBroker(who)] + ([BrokerDecides(who, true)] + [AwaitConfirm(who, BrokerAck)])
  }

  lemma CheckWins(s: State, ttl: nat, who: nat, e: IncomingEvent)
    requires who in s.handlers && s.handlers[who] == Unsent(Http(e), Arrived) && ValidEvent(e) && ttl > 0
    requires "dedup:" + e.id in s.keys ==> s.keys["dedup:" + e.id] <= s.now
    ensures var t := Apply(s, ttl, CheckDuplicate(who, Up));
            && t.handlers == s.handlers[who := Unsent(Http(e), Won)]
            && t.now == s.now
            && t.log == s.log + Entries(who, e.id, s.now, [Win])
  {
    CheckAnswered(s, ttl, who, e, Up);
  }

  lemma FreshEventWins(ttl: nat, steps: seq<Step>, who: nat, e: IncomingEvent)
    requires CanRun(ttl, steps) && who !in After(ttl, steps).handlers && ValidEvent(e) && ttl > 0
    requires var s := After(ttl, steps); "dedup:" + e.id in s.keys ==> s.keys["dedup:" + e.id] <= s.now
    ensures CanRun(ttl, steps + ToWin(who, e))
    ensures var s, t := After(ttl, steps), After(ttl, steps + ToWin(who, e));
            && t.handlers == s.handlers[who := Unsent(Http(e), Won)]
            && t.now == s.now
            && t.log == s.log + Entries(who, e.id, s.now, [Win])
  {
    var s, begun := After(ttl, steps), steps + [Begin(who, Http(e))];
    RequestAnswered(s, ttl, who, e);
    RunOn(ttl, steps, Begin(who, Http(e)));
    assert s.handlers[who := Unsent(Http(e), Arrived)][who := Unsent(Http(e), Won)]
        == s.handlers[who := Unsent(Http(e), Won)];
    CheckWins(After(ttl, begun), ttl, who, e);
    RunOn(ttl, begun, CheckDuplicate(who, Up));
    assert steps + ToWin(who, e) == begun + [CheckDuplicate(who, Up)];
  }

  lemma JoinEntries(log: seq<Entry>, who: nat, id: string, at: int, a: seq<Deed>, b: seq<Deed>)
    ensures (log + Entries(who, id, at, a)) + Entries(who, id, at, b) == log + Entries(who, id, at, a + b)
  {
  }

  lemma WinnerIsTaken(ttl: nat, steps: seq<Step>, who: nat, e: IncomingEvent)
    requires CanRun(ttl, steps) && who in After(ttl, steps).handlers
    requires After(ttl, steps).handlers[who] == Unsent(Http(e), Won)
    ensures var taken := (steps + [SendToBroker(who)]) + [BrokerDecides(who, true)];
            && CanRun(ttl, taken)
            && var s, t := After(ttl, steps), After(ttl, taken);
               && who in t.handlers && t.handlers[who] == Handler(Http(e), Waiting, Some(s.now), Some(true))
               && t.now == s.now
               && t.log == s.log + Entries(who, e.id, s.now, [Send, Enqueued])
  {
    var s, sent := After(ttl, steps), steps + [SendToBroker(who)];
    RunOn(ttl, steps, SendToBroker(who));
    RunOn(ttl, sent, BrokerDecides(who, true));
    JoinEntries(s.log, who, e.id, s.now, [Send], [Enqueued]);
  }

  lemma WinnerGetsThrough(ttl: nat, steps: seq<Step>, who: nat, e: IncomingEvent)
    requires CanRun(ttl, steps) && who in After(ttl, steps).handlers
    requires After(ttl, steps).handlers[who] == Unsent(Http(e), Won)
    ensures CanRun(ttl, steps + FromWin(who))
    ensures var s := After(ttl, steps);
            After(ttl, steps + FromWin(who)).log == s.log + Entries(who, e.id, s.now, [Send, Enqueued, Status(202)])
  {
    var s, taken := After(ttl, steps), (steps + [SendToBroker(who)]) + [BrokerDecides(who, true)];
    WinnerIsTaken(ttl, steps, who, e);
    RunOn(ttl, taken, AwaitConfirm(who, BrokerAck));
    assert steps + FromWin(who) == taken + [AwaitConfirm(who, BrokerAck)];
    JoinEntries(s.log, who, e.id, s.now, [Send, Enqueued], [Status(202)]);
  }

  /** After any run a valid event on a free id can get through: it wins, is queued once, and is
      answered 202. */
  lemma FreshEventAccepted(ttl: nat, steps: seq<Step>, who: nat, e: IncomingEvent)
    requires CanRun(ttl, steps) && who !in After(ttl, steps).handlers && ValidEvent(e) && ttl > 0
    requires var s := After(ttl, steps); "dedup:" + e.id in s.keys ==> s.keys["dedup:" + e.id] <= s.now
    ensures CanRun(ttl, steps + (ToWin(who, e) + FromWin(who)))
    ensures var s := After(ttl, steps);
            After(ttl, steps + (ToWin(who, e) + FromWin(who))).log
            == s.log + Entries(who, e.id, s.now, [Win]) + Entries(who, e.id, s.now, [Send, Enqueued, Status(202)])
  {
    var won := steps + ToWin(who, e);
    FreshEventWins(ttl, steps, who, e);
    WinnerGetsThrough(ttl, won, who, e);
    assert steps + (ToWin(who, e) + FromWin(who)) == won + FromWin(who);
  }

  // ----- wins are spaced -----

  predicate IsMark(e: Entry, id: string) {
    e.id == id && (e.deed.Win? || e.deed.LostWin?)
  }

  /** Any two SETs of a key that took effect are at least the time to live apart. */
  ghost predicate Spaced(log: seq<Entry>, ttl: nat, id: string) {
    forall i, j :: 0 <= i < j < |log| && IsMark(log[i], id) && IsMark(log[j], id) ==> log[i].at + ttl <= log[j].at
  }

  /** The key of every such SET is held for the time to live. */
  ghost predicate Held(s: State, ttl: nat, id: string) {
    forall i :: 0 <= i < |s.log| && IsMark(s.log[i], id) ==>
      s.log[i].at <= s.now && KeyOf(id) in s.keys && s.log[i].at + ttl <= s.keys[KeyOf(id)]
  }

  lemma MoveKeepsSpacing(s: State, ttl: nat, who: nat, h: Handler, deeds: seq<Deed>, id: string)
    requires Spaced(s.log, ttl, id)
    requires forall i :: 0 <= i < |deeds| ==> !deeds[i].Win? && !deeds[i].LostWin?
    ensures Spaced(Move(s, who, h, deeds).log, ttl, id)
    ensures Held(s, ttl, id) ==> Held(Move(s, who, h, deeds), ttl, id)
  {
  }

  lemma MarkKeepsSpacing(s: State, ttl: nat, who: nat, h: Handler, deeds: seq<Deed>, id: string)
    requires Spaced(s.log, ttl, id) && Held(s, ttl, id)
    requires !Taken(s.keys, IdOf(h.source), s.now)
    requires forall i :: 1 <= i < |deeds| ==> !deeds[i].Win? && !deeds[i].LostWin?
    ensures var t := Move(s.(keys := s.keys[KeyOf(IdOf(h.source)) := s.now + ttl]), who, h, deeds);
            Spaced(t.log, ttl, id) && Held(t, ttl, id)
  {
    KeysDiffer(IdOf(h.source), id);
  }

  lemma StepKeepsSpacing(s: State, ttl: nat, step: Step, id: string)
    requires Spaced(s.log, ttl, id) && Held(s, ttl, id) && Enabled(s, step)
    ensures Spaced(Apply(s, ttl, step).log, ttl, id) && Held(Apply(s, ttl, step), ttl, id)
  {
    match step
    case Advance(_) =>
    case Begin(who, source) =>
      MoveKeepsSpacing(s, ttl, who, Unsent(source, Done), [Status(UNPROCESSABLE)], id);
      MoveKeepsSpacing(s, ttl, who, Unsent(source, Arrived), [], id);
    case CheckDuplicate(who, link) =>
      CheckKeepsSpacing(s, ttl, who, link, id);
    case SendToBroker(who) =>
      MoveKeepsSpacing(s, ttl, who, s.handlers[who].(pc := Waiting, sentAt := Some(s.now)), [Send], id);
    case BrokerDecides(who, taken) =>
      MoveKeepsSpacing(s, ttl, who, s.handlers[who].(taken := Some(taken)), Deciding(taken), id);
    case AwaitConfirm(who, reply) =>
      var h := s.handlers[who];
      MoveKeepsSpacing(s, ttl, who, h.(pc := Done), Answering(h.source, CodeOf(reply)), id);
    case Drop(who) =>
      MoveKeepsSpacing(s, ttl, who, s.handlers[who].(pc := Gone), [], id);
  }

  lemma CheckKeepsSpacing(s: State, ttl: nat, who: nat, link: Link, id: string)
    requires Spaced(s.log, ttl, id) && Held(s, ttl, id) && Enabled(s, CheckDuplicate(who, link))
    ensures var t := Apply(s, ttl, CheckDuplicate(who, link));
            Spaced(t.log, ttl, id) && Held(t, ttl, id)
  {
    var h := s.handlers[who];
    var own := IdOf(h.source);
    var answer, marked := AnswerOf(s.keys, ttl, own, s.now, link), Marks(s.keys, ttl, own, s.now, link);
    var next, deeds := h.(pc := if answer == New then Won else Done), Checking(h.source, answer, marked);
    if marked {
      MarkKeepsSpacing(s, ttl, who, next, deeds, id);
    } else {
      MoveKeepsSpacing(s, ttl, who, next, deeds, id);
    }
  }

  /** In every interleaving of HTTP and TCP handlers two SETs that took effect for one id, and so
      two wins, are at least the time to live apart. */
  lemma {:induction false} WinsSpaced(ttl: nat, steps: seq<Step>, id: string)
    requires CanRun(ttl, steps)
    ensures Spaced(After(ttl, steps).log, ttl, id)
    ensures Held(After(ttl, steps), ttl, id)
  {
    if steps == [] {
    } else {
      var before := steps[..|steps| - 1];
      WinsSpaced(ttl, before, id);
      StepKeepsSpacing(After(ttl, before), ttl, steps[|steps| - 1], id);
    }
  }

  // ----- how many wins fit into a window -----

  /** The times of the wins of an id within [from, from + length). */
  function WinsIn(log: seq<Entry>, id: string, from: int, length: nat): seq<int> {
    if log == [] then []
    else
      var before, last := WinsIn(log[..|log| - 1], id, from, length), log[|log| - 1];
      if last.id == id && last.deed.Win? && from <= last.at < from + length then before + [last.at] else before
  }

  lemma {:induction false} WinsInFromLog(log: seq<Entry>, id: string, from: int, length: nat, k: nat)
    requires k < |WinsIn(log, id, from, length)|
    ensures from <= WinsIn(log, id, from, length)[k] < from + length
    ensures exists i :: 0 <= i < |log| && IsMark(log[i], id) && log[i].at == WinsIn(log, id, from, length)[k]
  {
    var init := log[..|log| - 1];
    if k < |WinsIn(init, id, from, length)| {
      WinsInFromLog(init, id, from, length, k);
      var i :| 0 <= i < |init| && IsMark(init[i], id) && init[i].at == WinsIn(init, id, from, length)[k];
      assert log[i] == init[i];
    } else {
      assert IsMark(log[|log| - 1], id);
    }
  }

  lemma {:induction false} WinsInSpread(log: seq<Entry>, ttl: nat, id: string, from: int, length: nat)
    requires Spaced(log, ttl, id)
    ensures var wins := WinsIn(log, id, from, length);
            |wins| > 0 ==> from + (|wins| - 1) * ttl <= wins[|wins| - 1] < from + length
  {
    if log == [] {
    } else {
      var init, last := log[..|log| - 1], log[|log| - 1];
      var before, wins := WinsIn(init, id, from, length), WinsIn(log, id, from, length);
      WinsInSpread(init, ttl, id, from, length);
      if |wins| > |before| > 0 {
        WinsInFromLog(init, id, from, length, |before| - 1);
        var i :| 0 <= i < |init| && IsMark(init[i], id) && init[i].at == before[|before| - 1];
        assert log[i] == init[i] && IsMark(log[i], id) && IsMark(last, id);
        OneMoreTtl(|before|, ttl);
      }
    }
  }

  /** Wins of one id in a half-open window of a given length number at most the length divided by
      the time to live, rounded up. */
  lemma WinsPerWindow(ttl: nat, steps: seq<Step>, id: string, from: int, length: nat)
    requires CanRun(ttl, steps) && ttl > 0
    ensures |WinsIn(After(ttl, steps).log, id, from, length)| <= (length + ttl - 1) / ttl
  {
    var wins := WinsIn(After(ttl, steps).log, id, from, length);
    WinsSpaced(ttl, steps, id);
    WinsInSpread(After(ttl, steps).log, ttl, id, from, length);
    if |wins| > 0 {
      RoundedUp(|wins|, length, ttl);
    }
  }

  lemma RoundedUp(n: nat, length: nat, ttl: nat)
    requires n > 0 && ttl > 0 && (n - 1) * ttl < length
    ensures n <= (length + ttl - 1) / ttl
  {
    var m := length + ttl - 1;
    var q := m / ttl;
    OneMoreTtl(n, ttl);
    OneMoreTtl(q + 1, ttl);
    assert m < (q + 1) * ttl;
    if q < n {
      Multiply(q + 1, n, ttl);
    }
  }

  lemma OneMoreTtl(n: nat, ttl: nat)
    requires n > 0
    ensures n * ttl == (n - 1) * ttl + ttl
  {
  }

  lemma Multiply(a: nat, b: nat, ttl: nat)
    requires a <= b
    ensures a * ttl <= b * ttl
  {
  }

  // ----- what each handler does -----

  /** The deeds of one handler, in order. */
  function Trace(log: seq<Entry>, who: nat): seq<Deed> {
    if log == [] then []
    else
      var before, last := Trace(log[..|log| - 1], who), log[|log| - 1];
      if last.who == who then before + [last.deed] else before
  }

  lemma {:induction false} TraceConcat(a: seq<Entry>, b: seq<Entry>, who: nat)
    ensures Trace(a + b, who) == Trace(a, who) + Trace(b, who)
  {
    if b == [] {
      assert a + b == a;
    } else {
      TraceConcat(a, b[..|b| - 1], who);
      assert (a + b)[..|a + b| - 1] == a + b[..|b| - 1];
    }
  }

  lemma {:induction false} TraceOfEntries(who: nat, id: string, at: int, deeds: seq<Deed>, other: nat)
    ensures Trace(Entries(who, id, at, deeds), other) == if who == other then deeds else []
  {
    if deeds == [] {
    } else {
      var entries := Entries(who, id, at, deeds);
      assert entries[..|deeds| - 1] == Entries(who, id, at, deeds[..|deeds| - 1]);
      TraceOfEntries(who, id, at, deeds[..|deeds| - 1], other);
    }
  }

  /** The steps that one handler took after it began, in order. */
  function Inputs(steps: seq<Step>, who: nat): seq<Step> {
    if steps == [] then []
    else
      var before, last := Inputs(steps[..|steps| - 1], who), steps[|steps| - 1];
      if IsInput(last, who) then before + [last] else before
  }

  predicate IsInput(step: Step, who: nat) {
    !step.Advance? && !step.Begin? && step.who == who
  }

  lemma {:induction false} InputsHave(steps: seq<Step>, who: nat, step: Step)
    requires IsInput(step, who)
    ensures step in Inputs(steps, who) <==> step in steps
  {
    if steps == [] {
    } else {
      InputsHave(steps[..|steps| - 1], who, step);
      assert steps == steps[..|steps| - 1] + [steps[|steps| - 1]];
    }
  }

  /** What a handler at a given point has been given and has done. */
  ghost predicate Story(h: Handler, who: nat, inputs: seq<Step>, trace: seq<Deed>) {
    if h.sentAt == None then h.taken == None && EarlyStory(h, who, inputs, trace)
    else SentStory(h, who, inputs, trace)
  }

  /** A handler that has not sent anything. */
  ghost predicate EarlyStory(h: Handler, who: nat, inputs: seq<Step>, trace: seq<Deed>) {
    match h.pc
    case Arrived => inputs == [] && trace == []
    case Won => inputs == [CheckDuplicate(who, Up)] && trace == [Win]
    case Waiting => false
    case Done =>
      || (h.source.Http? && inputs == [] && trace == [Status(UNPROCESSABLE)])
      || (inputs == [CheckDuplicate(who, Up)] && trace == Answering(h.source, CONFLICT))
      || (exists link :: inputs == [CheckDuplicate(who, link)] && trace == Answering(h.source, UNAVAILABLE))
      || (inputs == [CheckDuplicate(who, ReplyLost)] && trace == [LostWin] + Answering(h.source, UNAVAILABLE))
    case Gone =>
      || (inputs == [Drop(who)] && trace == [])
      || (inputs == [CheckDuplicate(who, Up), Drop(who)] && trace == [Win])
  }

  /** A handler that has sent its message. The broker may decide before or after the handler ends. */
  ghost predicate SentStory(h: Handler, who: nat, inputs: seq<Step>, trace: seq<Deed>) {
    && |inputs| >= 2 && |trace| >= 2
    && inputs[..2] == [CheckDuplicate(who, Up), SendToBroker(who)] && trace[..2] == [Win, Send]
    && (if h.taken == None then UndecidedStory(h, who, inputs[2..], trace[2..])
        else DecidedStory(h, who, inputs[2..], trace[2..]))
  }

  ghost predicate UndecidedStory(h: Handler, who: nat, rest: seq<Step>, deeds: seq<Deed>) {
    if h.pc == Waiting then rest == [] && deeds == []
    else |rest| == 1 && Ends(h, who, rest[0]) && rest[0] != AwaitConfirm(who, BrokerAck)
         && rest[0] != AwaitConfirm(who, BrokerNack) && deeds == LastWords(h.source, rest[0])
  }

  ghost predicate DecidedStory(h: Handler, who: nat, rest: seq<Step>, deeds: seq<Deed>)
    requires h.taken != None
  {
    var taken := h.taken.value;
    if h.pc == Waiting then rest == [BrokerDecides(who, taken)] && deeds == Deciding(taken)
    else |rest| == 2 && (EndedKnowing(h, who, taken, rest, deeds) || EndedBefore(h, who, taken, rest, deeds))
  }

  ghost predicate EndedKnowing(h: Handler, who: nat, taken: bool, rest: seq<Step>, deeds: seq<Deed>)
    requires |rest| == 2
  {
    && rest[0] == BrokerDecides(who, taken) && Ends(h, who, rest[1])
    && (rest[1] == AwaitConfirm(who, BrokerAck) ==> taken)
    && (rest[1] == AwaitConfirm(who, BrokerNack) ==> !taken)
    && deeds == Deciding(taken) + LastWords(h.source, rest[1])
  }

  ghost predicate EndedBefore(h: Handler, who: nat, taken: bool, rest: seq<Step>, deeds: seq<Deed>)
    requires |rest| == 2
  {
    && rest[1] == BrokerDecides(who, taken) && Ends(h, who, rest[0])
    && rest[0] != AwaitConfirm(who, BrokerAck) && rest[0] != AwaitConfirm(who, BrokerNack)
    && deeds == LastWords(h.source, rest[0]) + Deciding(taken)
  }

  /** The step that ended a handler. */
  predicate Ends(h: Handler, who: nat, step: Step) {
    || (step.AwaitConfirm? && step.who == who && h.pc == Done)
    || (step == Drop(who) && h.pc == Gone)
  }

  function LastWords(source: Source, step: Step): seq<Deed> {
    if step.AwaitConfirm? then Answering(source, CodeOf(step.reply)) else []
  }

  ghost predicate StoryOf(s: State, steps: seq<Step>, who: nat) {
    if who in s.handlers then Story(s.handlers[who], who, Inputs(steps, who), Trace(s.log, who))
    else Inputs(steps, who) == [] && Trace(s.log, who) == []
  }

  lemma MoveTrace(s: State, who: nat, h: Handler, deeds: seq<Deed>, other: nat)
    ensures Trace(Move(s, who, h, deeds).log, other)
            == if other == who then Trace(s.log, other) + deeds else Trace(s.log, other)
  {
    TraceConcat(s.log, Entries(who, IdOf(h.source), s.now, deeds), other);
    TraceOfEntries(who, IdOf(h.source), s.now, deeds, other);
    assert Trace(s.log, other) + [] == Trace(s.log, other);
  }

  lemma InputsNext(steps: seq<Step>, step: Step, who: nat)
    ensures Inputs(steps + [step], who)
            == if IsInput(step, who) then Inputs(steps, who) + [step] else Inputs(steps, who)
  {
    assert (steps + [step])[..|steps|] == steps;
  }

  /** What a step makes of the handler it is about, and what the handler does. */
  function Next(s: State, ttl: nat, step: Step): (Handler, seq<Deed>)
    requires Enabled(s, step) && !step.Advance?
  {
    match step
    case Begin(_, source) =>
      if source.Http? && !ValidEvent(source.event) then (Unsent(source, Done), [Status(UNPROCESSABLE)])
      else (Unsent(source, Arrived), [])
    case CheckDuplicate(who, link) =>
      var h := s.handlers[who];
      var id := IdOf(h.source);
      var answer := AnswerOf(s.keys, ttl, id, s.now, link);
      (h.(pc := if answer == New then Won else Done),
       Checking(h.source, answer, Marks(s.keys, ttl, id, s.now, link)))
    case SendToBroker(who) => (s.handlers[who].(pc := Waiting, sentAt := Some(s.now)), [Send])
    case BrokerDecides(who, taken) => (s.handlers[who].(taken := Some(taken)), Deciding(taken))
    case AwaitConfirm(who, reply) =>
      (s.handlers[who].(pc := Done), Answering(s.handlers[who].source, CodeOf(reply)))
    case Drop(who) => (s.handlers[who].(pc := Gone), [])
  }

  lemma StepIsMove(s: State, ttl: nat, step: Step)
    requires Enabled(s, step) && !step.Advance?
    ensures var (h, deeds) := Next(s, ttl, step);
            Apply(s, ttl, step) == Move(s.(keys := Apply(s, ttl, step).keys), step.who, h, deeds)
  {
  }

  lemma StepStory(s: State, ttl: nat, steps: seq<Step>, step: Step, who: nat)
    requires StoryOf(s, steps, who) && Enabled(s, step)
    ensures StoryOf(Apply(s, ttl, step), steps + [step], who)
  {
    InputsNext(steps, step, who);
    if !step.Advance? {
      var (h, deeds) := Next(s, ttl, step);
      StepIsMove(s, ttl, step);
      MoveTrace(s.(keys := Apply(s, ttl, step).keys), step.who, h, deeds, who);
      if step.who == who {
        OwnStory(s, ttl, step, Inputs(steps, who), Trace(s.log, who));
      }
    }
  }

  /** The story goes on with each step of the handler. */
  lemma OwnStory(s: State, ttl: nat, step: Step, inputs: seq<Step>, trace: seq<Deed>)
    requires Enabled(s, step) && !step.Advance?
    requires if step.Begin? then inputs == [] && trace == []
             else Story(s.handlers[step.who], step.who, inputs, trace)
    ensures var (h, deeds) := Next(s, ttl, step);
            Story(h, step.who, if step.Begin? then inputs else inputs + [step], trace + deeds)
  {
    if step.CheckDuplicate? {
      FirstStory(s, ttl, step.who, step.link);
      assert inputs + [step] == [step];
    } else if !step.Begin? && s.handlers[step.who].sentAt != None {
      LaterStory(s.handlers[step.who], step, inputs, trace);
    }
    assert trace + [] == trace;
    assert [] + Next(s, ttl, step).1 == Next(s, ttl, step).1;
  }

  lemma FirstStory(s: State, ttl: nat, who: nat, link: Link)
    requires Enabled(s, CheckDuplicate(who, link))
    requires s.handlers[who].sentAt == None && s.handlers[who].taken == None
    ensures var (h, deeds) := Next(s, ttl, CheckDuplicate(who, link));
            Story(h, who, [CheckDuplicate(who, link)], deeds)
  {
  }

  /** The steps after the send. */
  lemma LaterStory(h: Handler, step: Step, inputs: seq<Step>, trace: seq<Deed>)
    requires step.BrokerDecides? || step.AwaitConfirm? || step.Drop?
    requires h.sentAt != None && Story(h, step.who, inputs, trace)
    requires step.BrokerDecides? ==> h.taken == None
    requires !step.BrokerDecides? ==> h.pc == Waiting
    requires step.AwaitConfirm? && step.reply == BrokerAck ==> h.taken == Some(true)
    requires step.AwaitConfirm? && step.reply == BrokerNack ==> h.taken == Some(false)
    ensures var h' := if step.BrokerDecides? then h.(taken := Some(step.taken))
                      else h.(pc := if step.Drop? then Gone else Done);
            var deeds := if step.BrokerDecides? then Deciding(step.taken) else LastWords(h.source, step);
            Story(h', step.who, inputs + [step], trace + deeds)
  {
    var deeds := if step.BrokerDecides? then Deciding(step.taken) else LastWords(h.source, step);
    assert (inputs + [step])[..2] == inputs[..2] && (inputs + [step])[2..] == inputs[2..] + [step];
    assert (trace + deeds)[..2] == trace[..2] && (trace + deeds)[2..] == trace[2..] + deeds;
  }

  lemma {:induction false} EveryStory(ttl: nat, steps: seq<Step>, who: nat)
    requires CanRun(ttl, steps)
    ensures StoryOf(After(ttl, steps), steps, who)
  {
    if steps == [] {
    } else {
      var before, step := steps[..|steps| - 1], steps[|steps| - 1];
      EveryStory(ttl, before, who);
      StepStory(After(ttl, before), ttl, before, step, who);
      assert steps == before + [step];
    }
  }

  /** A handler wins at most once and first; it sends at most once, right after its win; the broker
      takes the message once, after the send; a 202 follows the send; and a handler that answers
      409, 422 or 503 has not won. */
  ghost predicate Orderly(trace: seq<Deed>) {
    forall i :: 0 <= i < |trace| ==>
      && (trace[i] == Win ==> i == 0)
      && (trace[i] == Send ==> i == 1 && trace[0] == Win)
      && (trace[i] == Enqueued ==> i >= 2 && trace[1] == Send && trace[0] == Win)
      && (trace[i] == Status(ACCEPTED) ==> i >= 2 && trace[1] == Send)
      && (trace[i] in {Status(CONFLICT), Status(UNPROCESSABLE), Status(UNAVAILABLE)} ==> trace[0] != Win)
      && (forall j :: i < j < |trace| ==> trace[i] != trace[j])
  }

  lemma StoryOrderly(h: Handler, who: nat, inputs: seq<Step>, trace: seq<Deed>)
    requires Story(h, who, inputs, trace)
    ensures Orderly(trace)
  {
    assert |trace| >= 2 ==> trace[..2][0] == trace[0] && trace[..2][1] == trace[1];
    assert forall i :: 2 <= i < |trace| ==> trace[i] == trace[2..][i - 2];
  }

  /** In every interleaving of HTTP and TCP handlers each publish attempt is backed by the
      handler's own, only win, and a 202 by a publish attempt. */
  lemma EveryHandler(ttl: nat, steps: seq<Step>, who: nat)
    requires CanRun(ttl, steps)
    ensures Orderly(Trace(After(ttl, steps).log, who))
  {
    EveryStory(ttl, steps, who);
    var s := After(ttl, steps);
    if who in s.handlers {
      StoryOrderly(s.handlers[who], who, Inputs(steps, who), Trace(s.log, who));
    }
  }

  /** What the inputs of a handler say about its deeds. */
  ghost predicate Decided(steps: seq<Step>, who: nat, trace: seq<Deed>) {
    && (Enqueued in trace <==> BrokerDecides(who, true) in steps)
    && (Send in trace <==> SendToBroker(who) in steps)
    && (Win in trace ==> CheckDuplicate(who, Up) in steps)
    && (Win in trace || LostWin in trace ==> (LostWin in trace <==> CheckDuplicate(who, ReplyLost) in steps))
    && (Status(ACCEPTED) in trace ==> (AwaitConfirm(who, BrokerNack) in steps <==> Enqueued !in trace))
  }

  /** Nothing can happen to the handler's message any more: the broker has decided, or the handler
      ended before it sent anything. */
  predicate Settled(h: Handler) {
    h.taken != None || (h.sentAt == None && (h.pc == Done || h.pc == Gone))
  }

  /** The reply to a handler's SET was lost, or its client hung up before it sent its message, or
      the broker did not take the message. */
  ghost predicate Loses(steps: seq<Step>, who: nat) {
    || CheckDuplicate(who, ReplyLost) in steps
    || (Drop(who) in steps && SendToBroker(who) !in steps)
    || BrokerDecides(who, false) in steps
  }

  lemma InputsDecide(h: Handler, who: nat, inputs: seq<Step>, trace: seq<Deed>)
    requires Story(h, who, inputs, trace)
    ensures Decided(inputs, who, trace)
    ensures (Win in trace || LostWin in trace) && Settled(h) ==> (Enqueued in trace <==> !Loses(inputs, who))
  {
    if h.sentAt != None {
      RestDecides(h, who, inputs[2..], trace[2..]);
      SplitAtTwo(inputs, CheckDuplicate(who, Up), SendToBroker(who));
      SplitAtTwo(trace, Win, Send);
    }
  }

  lemma SplitAtTwo<T>(s: seq<T>, a: T, b: T)
    requires |s| >= 2 && s[..2] == [a, b]
    ensures forall x :: x in s <==> x == a || x == b || x in s[2..]
  {
    assert s == [a, b] + s[2..];
  }

  /** The same of the steps and deeds after the send. */
  lemma RestDecides(h: Handler, who: nat, rest: seq<Step>, deeds: seq<Deed>)
    requires if h.taken == None then UndecidedStory(h, who, rest, deeds) else DecidedStory(h, who, rest, deeds)
    ensures Enqueued in deeds <==> BrokerDecides(who, true) in rest
    ensures h.taken != None ==> (BrokerDecides(who, true) in rest <==> BrokerDecides(who, false) !in rest)
    ensures Status(ACCEPTED) in deeds ==> (AwaitConfirm(who, BrokerNack) in rest <==> Enqueued !in deeds)
    ensures Win !in deeds && LostWin !in deeds && Send !in deeds
    ensures forall step :: step in rest ==> step.BrokerDecides? || step.AwaitConfirm? || step.Drop?
  {
  }

  /** In every interleaving the inputs decide what a handler has done: the broker has its message
      exactly when it took it; a mark without a known win is exactly a lost reply; and a 202 means a
      queued message exactly when the broker has not rejected it. */
  lemma DeedsOfInputs(ttl: nat, steps: seq<Step>, who: nat)
    requires CanRun(ttl, steps)
    ensures Decided(steps, who, Trace(After(ttl, steps).log, who))
  {
    EveryStory(ttl, steps, who);
    InputsOfSteps(steps, who);
    var s := After(ttl, steps);
    if who in s.handlers {
      InputsDecide(s.handlers[who], who, Inputs(steps, who), Trace(s.log, who));
    }
  }

  lemma InputsOfSteps(steps: seq<Step>, who: nat)
    ensures forall step :: IsInput(step, who) ==> (step in Inputs(steps, who) <==> step in steps)
  {
    forall step | IsInput(step, who)
      ensures step in Inputs(steps, who) <==> step in steps
    {
      InputsHave(steps, who, step);
    }
  }

  // ----- what a duplicate answer means -----

  /** Every key was set by an entry of the log. */
  ghost predicate KeysLogged(s: State, ttl: nat, id: string) {
    KeyOf(id) in s.keys ==> exists i :: LoggedAt(s, ttl, id, i)
  }

  ghost predicate LoggedAt(s: State, ttl: nat, id: string, i: nat) {
    i < |s.log| && IsMark(s.log[i], id) && KeyOf(id) in s.keys && s.keys[KeyOf(id)] == s.log[i].at + ttl
  }

  lemma StepKeysLogged(s: State, ttl: nat, step: Step, id: string)
    requires KeysLogged(s, ttl, id) && Enabled(s, step)
    ensures KeysLogged(Apply(s, ttl, step), ttl, id)
  {
    var t := Apply(s, ttl, step);
    if step.CheckDuplicate? && t.keys != s.keys && IdOf(s.handlers[step.who].source) == id {
      assert LoggedAt(t, ttl, id, |s.log|);
    } else if KeyOf(id) in t.keys {
      if step.CheckDuplicate? {
        KeysDiffer(IdOf(s.handlers[step.who].source), id);
      }
      var i :| LoggedAt(s, ttl, id, i);
      assert LoggedAt(t, ttl, id, i);
    }
  }

  lemma {:induction false} AllKeysLogged(ttl: nat, steps: seq<Step>, id: string)
    requires CanRun(ttl, steps)
    ensures KeysLogged(After(ttl, steps), ttl, id)
  {
    if steps == [] {
    } else {
      var before := steps[..|steps| - 1];
      AllKeysLogged(ttl, before, id);
      StepKeysLogged(After(ttl, before), ttl, steps[|steps| - 1], id);
    }
  }

  /** Entry `i` is the SET that makes `id` a duplicate now. */
  predicate Holds(s: State, ttl: nat, id: string, i: nat) {
    i < |s.log| && IsMark(s.log[i], id) && s.log[i].at <= s.now < s.log[i].at + ttl
  }

  /** An id is a duplicate exactly when a SET for it took effect less than the time to live ago,
      and there is only one such SET. */
  lemma DuplicateIff(ttl: nat, steps: seq<Step>, id: string)
    requires CanRun(ttl, steps)
    ensures var s := After(ttl, steps);
            && (Taken(s.keys, id, s.now) <==> exists i :: Holds(s, ttl, id, i))
            && (forall i, j :: Holds(s, ttl, id, i) && Holds(s, ttl, id, j) ==> i == j)
  {
    var s := After(ttl, steps);
    WinsSpaced(ttl, steps, id);
    AllKeysLogged(ttl, steps, id);
    if Taken(s.keys, id, s.now) {
      var i :| LoggedAt(s, ttl, id, i);
      assert Holds(s, ttl, id, i);
    }
    if exists i :: Holds(s, ttl, id, i) {
      var i :| Holds(s, ttl, id, i);
    }
  }

  lemma {:induction false} EntryInTrace(log: seq<Entry>, i: nat)
    requires i < |log|
    ensures log[i].deed in Trace(log, log[i].who)
  {
    if i < |log| - 1 {
      EntryInTrace(log[..|log| - 1], i);
    }
  }

  // ----- what a 409 means -----

  lemma LogGrows(s: State, ttl: nat, step: Step)
    requires Enabled(s, step)
    ensures s.log <= Apply(s, ttl, step).log
  {
  }

  /** Entry `i` is the SET that made entry `k` a duplicate: it took effect for the same id less
      than the time to live before. */
  ghost predicate Holder(log: seq<Entry>, ttl: nat, i: nat, k: nat) {
    i < k < |log| && IsMark(log[i], log[k].id) && log[i].at <= log[k].at < log[i].at + ttl
  }

  /** The step that answers 409. */
  lemma AnswersConflict(ttl: nat, steps: seq<Step>, step: Step, k: nat)
    requires CanRun(ttl, steps) && Enabled(After(ttl, steps), step)
    requires var s := After(ttl, steps);
             |s.log| <= k < |Apply(s, ttl, step).log| && Apply(s, ttl, step).log[k].deed == Status(CONFLICT)
    ensures var s, t := After(ttl, steps), Apply(After(ttl, steps), ttl, step);
            && s.log == t.log[..k]
            && step == CheckDuplicate(t.log[k].who, Up)
            && t.log[k].at == s.now
            && Taken(s.keys, t.log[k].id, s.now)
  {
  }

  /** Every 409 of every interleaving has a holder. */
  lemma {:induction false} ConflictHasHolder(ttl: nat, steps: seq<Step>, k: nat)
    requires CanRun(ttl, steps)
    requires k < |After(ttl, steps).log| && After(ttl, steps).log[k].deed == Status(CONFLICT)
    ensures exists i: nat :: Holder(After(ttl, steps).log, ttl, i, k)
  {
    var before, step := steps[..|steps| - 1], steps[|steps| - 1];
    var s, log := After(ttl, before), After(ttl, steps).log;
    LogGrows(s, ttl, step);
    if k < |s.log| {
      ConflictHasHolder(ttl, before, k);
      var i: nat :| Holder(s.log, ttl, i, k);
      assert log[i] == s.log[i] && log[k] == s.log[k];
      assert Holder(log, ttl, i, k);
    } else {
      AnswersConflict(ttl, before, step, k);
      DuplicateIff(ttl, before, log[k].id);
      var i: nat :| Holds(s, ttl, log[k].id, i);
      assert log[i] == s.log[i];
      assert Holder(log, ttl, i, k);
    }
  }

  /** Entry `i` holds the id of the 409 at entry `k`; and once nothing can happen to the holder's
      message any more, the broker has it exactly when the holder lost it nowhere. */
  ghost predicate Outcome(s: State, steps: seq<Step>, ttl: nat, i: nat, k: nat) {
    && Holder(s.log, ttl, i, k)
    && s.log[i].who in s.handlers
    && (Settled(s.handlers[s.log[i].who]) ==>
          (Enqueued in Trace(s.log, s.log[i].who) <==> !Loses(steps, s.log[i].who)))
  }

  lemma HolderOutcome(ttl: nat, steps: seq<Step>, i: nat, k: nat)
    requires CanRun(ttl, steps) && Holder(After(ttl, steps).log, ttl, i, k)
    ensures Outcome(After(ttl, steps), steps, ttl, i, k)
  {
    var s := After(ttl, steps);
    var h := s.log[i].who;
    EntryInTrace(s.log, i);
    EveryStory(ttl, steps, h);
    InputsOfSteps(steps, h);
    InputsDecide(s.handlers[h], h, Inputs(steps, h), Trace(s.log, h));
  }

  /** What a 409 means, over the whole run: it has a holder, which marked the id less than the time
      to live before; and once the fate of the holder's message is settled, the broker has it
      exactly when the reply to the holder's SET was not lost, its client did not hang up before
      the send, and the broker did not refuse it, be it before the 409 or after. */
  lemma ConflictOutcome(ttl: nat, steps: seq<Step>, k: nat)
    requires CanRun(ttl, steps)
    requires k < |After(ttl, steps).log| && After(ttl, steps).log[k].deed == Status(CONFLICT)
    ensures exists i: nat :: Outcome(After(ttl, steps), steps, ttl, i, k)
  {
    ConflictHasHolder(ttl, steps, k);
    var i: nat :| Holder(After(ttl, steps).log, ttl, i, k);
    HolderOutcome(ttl, steps, i, k);
  }

  /** No reply of the store is lost, no client hangs up, and the broker takes what it is sent. */
  predicate NoLoss(steps: seq<Step>) {
    forall i :: 0 <= i < |steps| ==>
      && !(steps[i].CheckDuplicate? && steps[i].link == ReplyLost)
      && !steps[i].Drop?
      && !(steps[i].BrokerDecides? && !steps[i].taken)
  }

  /** In runs without such losses a client may take a 409 as success: the message of its holder is
      queued as soon as its fate is settled. */
  lemma ConflictIsSuccess(ttl: nat, steps: seq<Step>, k: nat)
    requires CanRun(ttl, steps) && NoLoss(steps)
    requires k < |After(ttl, steps).log| && After(ttl, steps).log[k].deed == Status(CONFLICT)
    ensures var s := After(ttl, steps);
            exists i: nat :: Holder(s.log, ttl, i, k) && s.log[i].who in s.handlers
                             && (Settled(s.handlers[s.log[i].who]) ==> Enqueued in Trace(s.log, s.log[i].who))
  {
    var s := After(ttl, steps);
    ConflictOutcome(ttl, steps, k);
    var i: nat :| Outcome(s, steps, ttl, i, k);
    var h := s.log[i].who;
    assert !Loses(steps, h);
    assert Holder(s.log, ttl, i, k);
  }

  // ----- runs that lose a message -----

  const EVENT := IncomingEvent("a", "purchase", map[], None)

  /** States one step apart. */
  ghost predicate Chained(states: seq<State>, steps: seq<Step>) {
    && |states| == |steps| + 1 && states[0] == INITIAL
    && forall n :: 0 <= n < |steps| ==> Leads(states[n], steps[n], states[n + 1])
  }

  ghost predicate Leads(s: State, step: Step, t: State) {
    Enabled(s, step) && Apply(s, 300, step) == t
  }

  lemma {:induction false} ChainRuns(states: seq<State>, steps: seq<Step>, n: nat)
    requires Chained(states, steps) && n <= |steps|
    ensures CanRun(300, steps[..n]) && After(300, steps[..n]) == states[n]
  {
    if n == 0 {
    } else {
      ChainRuns(states, steps, n - 1);
      assert steps[..n][..n - 1] == steps[..n - 1];
      assert Leads(states[n - 1], steps[n - 1], states[n]);
    }
  }

  /** At time zero. */
  function Held300(handlers: map<nat, Handler>, log: seq<Entry>): State {
    State(0, map[KeyOf("a") := 300], handlers, log)
  }

  function By(who: nat, deed: Deed): Entry {
    Entry(who, "a", 0, deed)
  }

  const FRESH := Unsent(Http(EVENT), Arrived)
  const WINNER := Unsent(Http(EVENT), Won)
  const SENT := Handler(Http(EVENT), Waiting, Some(0), None)
  const REFUSED := Handler(Http(EVENT), Waiting, Some(0), Some(false))

  /** The broker refuses the first of two equal events, and the retry is a duplicate. */
  const RETRY: seq<Step> := [
    Begin(1, Http(EVENT)), CheckDuplicate(1, Up), SendToBroker(1), BrokerDecides(1, false), AwaitConfirm(1, NoReply),
    Begin(2, Http(EVENT)), CheckDuplicate(2, Up)]

  const FAILED_LOG := [By(1, Win), By(1, Send), By(1, Status(INTERNAL_ERROR))]

  const RETRY_STATES: seq<State> := [
    INITIAL,
    State(0, map[], map[1 := FRESH], []),
    Held300(map[1 := WINNER], [By(1, Win)]),
    Held300(map[1 := SENT], [By(1, Win), By(1, Send)]),
    Held300(map[1 := REFUSED], [By(1, Win), By(1, Send)]),
    Held300(map[1 := REFUSED.(pc := Done)], FAILED_LOG),
    Held300(map[1 := REFUSED.(pc := Done), 2 := FRESH], FAILED_LOG),
    Held300(map[1 := REFUSED.(pc := Done), 2 := FRESH.(pc := Done)], FAILED_LOG + [By(2, Status(CONFLICT))])]

  lemma RetryStart(n: nat)
    requires n < 4
    ensures Leads(RETRY_STATES[n], RETRY[n], RETRY_STATES[n + 1])
  {
  }

  lemma RetryEnd(n: nat)
    requires 4 <= n < |RETRY|
    ensures Leads(RETRY_STATES[n], RETRY[n], RETRY_STATES[n + 1])
  {
  }

  lemma RetryChained()
    ensures Chained(RETRY_STATES, RETRY)
  {
    forall n | 0 <= n < |RETRY|
      ensures Leads(RETRY_STATES[n], RETRY[n], RETRY_STATES[n + 1])
    {
      if n < 4 {
        RetryStart(n);
      } else {
        RetryEnd(n);
      }
    }
  }

  /** A 409 is no proof that the event was queued: a retry after a failed publish gets one although
      the broker has taken nothing. */
  lemma ConflictWithoutMessage()
    ensures CanRun(300, RETRY)
    ensures After(300, RETRY).log
            == [By(1, Win), By(1, Send), By(1, Status(INTERNAL_ERROR)), By(2, Status(CONFLICT))]
  {
    RetryChained();
    ChainRuns(RETRY_STATES, RETRY, |RETRY|);
    assert RETRY[..|RETRY|] == RETRY;
  }

  /** The second event is a duplicate while the first is on its way, and only then the broker
      refuses the first. */
  const LATE: seq<Step> := [
    Begin(1, Http(EVENT)), CheckDuplicate(1, Up), Begin(2, Http(EVENT)), CheckDuplicate(2, Up),
    SendToBroker(1), BrokerDecides(1, false), AwaitConfirm(1, NoReply)]

  const LATE_STATES: seq<State> := [
    INITIAL,
    State(0, map[], map[1 := FRESH], []),
    Held300(map[1 := WINNER], [By(1, Win)]),
    Held300(map[1 := WINNER, 2 := FRESH], [By(1, Win)]),
    Held300(map[1 := WINNER, 2 := FRESH.(pc := Done)], [By(1, Win), By(2, Status(CONFLICT))]),
    Held300(map[1 := SENT, 2 := FRESH.(pc := Done)], [By(1, Win), By(2, Status(CONFLICT)), By(1, Send)]),
    Held300(map[1 := REFUSED, 2 := FRESH.(pc := Done)], [By(1, Win), By(2, Status(CONFLICT)), By(1, Send)]),
    Held300(map[1 := REFUSED.(pc := Done), 2 := FRESH.(pc := Done)],
            [By(1, Win), By(2, Status(CONFLICT)), By(1, Send), By(1, Status(INTERNAL_ERROR))])]

  lemma LateStart(n: nat)
    requires n < 4
    ensures Leads(LATE_STATES[n], LATE[n], LATE_STATES[n + 1])
  {
  }

  lemma LateMiddle(n: nat)
    requires 4 <= n < 6
    ensures Leads(LATE_STATES[n], LATE[n], LATE_STATES[n + 1])
  {
  }

  lemma LateEnd()
    ensures Leads(LATE_STATES[6], LATE[6], LATE_STATES[7])
  {
  }

  lemma LateChained()
    ensures Chained(LATE_STATES, LATE)
  {
    forall n | 0 <= n < |LATE|
      ensures Leads(LATE_STATES[n], LATE[n], LATE_STATES[n + 1])
    {
      if n < 4 {
        LateStart(n);
      } else if n < 6 {
        LateMiddle(n);
      } else {
        LateEnd();
      }
    }
  }

  /** Nor does a 409 promise that the event will be queued. */
  lemma ConflictBeforeRefusal()
    ensures CanRun(300, LATE)
    ensures After(300, LATE).log
            == [By(1, Win), By(2, Status(CONFLICT)), By(1, Send), By(1, Status(INTERNAL_ERROR))]
  {
    LateChained();
    ChainRuns(LATE_STATES, LATE, |LATE|);
    assert LATE[..|LATE|] == LATE;
  }

  /** The first client hangs up before its message is sent, and sends its event again. */
  const HUNG_UP: seq<Step> := [
    Begin(1, Http(EVENT)), CheckDuplicate(1, Up), Drop(1), Begin(2, Http(EVENT)), CheckDuplicate(2, Up)]

  const HUNG_UP_STATES: seq<State> := [
    INITIAL,
    State(0, map[], map[1 := FRESH], []),
    Held300(map[1 := WINNER], [By(1, Win)]),
    Held300(map[1 := WINNER.(pc := Gone)], [By(1, Win)]),
    Held300(map[1 := WINNER.(pc := Gone), 2 := FRESH], [By(1, Win)]),
    Held300(map[1 := WINNER.(pc := Gone), 2 := FRESH.(pc := Done)], [By(1, Win), By(2, Status(CONFLICT))])]

  lemma HungUpStart(n: nat)
    requires n < 3
    ensures Leads(HUNG_UP_STATES[n], HUNG_UP[n], HUNG_UP_STATES[n + 1])
  {
  }

  lemma HungUpEnd(n: nat)
    requires 3 <= n < |HUNG_UP|
    ensures Leads(HUNG_UP_STATES[n], HUNG_UP[n], HUNG_UP_STATES[n + 1])
  {
  }

  lemma HungUpChained()
    ensures Chained(HUNG_UP_STATES, HUNG_UP)
  {
    forall n | 0 <= n < |HUNG_UP|
      ensures Leads(HUNG_UP_STATES[n], HUNG_UP[n], HUNG_UP_STATES[n + 1])
    {
      if n < 3 {
        HungUpStart(n);
      } else {
        HungUpEnd(n);
      }
    }
  }

  /** A retry after a lost connection gets a 409 although nothing was ever sent. */
  lemma ConflictAfterHangUp()
    ensures CanRun(300, HUNG_UP)
    ensures After(300, HUNG_UP).log == [By(1, Win), By(2, Status(CONFLICT))]
  {
    HungUpChained();
    ChainRuns(HUNG_UP_STATES, HUNG_UP, |HUNG_UP|);
    assert HUNG_UP[..|HUNG_UP|] == HUNG_UP;
  }

  /** The broker rejects the message, and the client is told that it was accepted. */
  const REJECTED: seq<Step> := [
    Begin(1, Http(EVENT)), CheckDuplicate(1, Up), SendToBroker(1), BrokerDecides(1, false),
    AwaitConfirm(1, BrokerNack)]

  lemma AcceptedWithoutMessage()
    ensures CanRun(300, REJECTED)
    ensures After(300, REJECTED).log == [By(1, Win), By(1, Send), By(1, Status(ACCEPTED))]
  {
    assert REJECTED[..4] == RETRY[..4];
    RetryChained();
    ChainRuns(RETRY_STATES, RETRY, 4);
    assert REJECTED[..5] == REJECTED;
    assert REJECTED[..5][..4] == REJECTED[..4];
  }
}
