/** What the broker hands a consumer, and how the consumer settles it. */
module Deliveries {
  import opened Text
  import opened Messages

  /** A body that does not deserialise is `Garbage`. */
  datatype Body = Message(msg: QueueMessage) | Garbage

  datatype Delivery = Delivery(tag: nat, body: Body)

  /** `Nack` is a negative acknowledgement without requeue: the broker dead-letters the message. */
  datatype Verdict = Ack | Nack

  datatype Settlement = Settlement(delivery: Delivery, verdict: Verdict)

  /** What `select!` yields in the loop of a consumer. `outcome` is what the database would answer
      if this event made the consumer flush. */
  datatype Event<Outcome> =
    | Arrival(delivery: Delivery, outcome: Outcome)
    | Tick(outcome: Outcome)
    | StreamEnd
    | ChannelError

  /** The events before the one that ends the loop. */
  function UpToStop<O>(events: seq<Event<O>>): (live: seq<Event<O>>)
    ensures live <= events
    ensures forall i :: 0 <= i < |live| ==> live[i].Arrival? || live[i].Tick?
    ensures |live| < |events| ==> events[|live|].StreamEnd? || events[|live|].ChannelError?
  {
    if events == [] || events[0].StreamEnd? || events[0].ChannelError? then []
    else [events[0]] + UpToStop(events[1..])
  }

  /** The deliveries received, in arrival order. */
  function Received<O>(events: seq<Event<O>>): seq<Delivery> {
    if events == [] then []
    else
      var before, last := Received(events[..|events| - 1]), events[|events| - 1];
      if last.Arrival? then before + [last.delivery] else before
  }

  function MessageIn(d: Delivery): Option<QueueMessage> {
    match d.body
    case Message(msg) => Some(msg)
    case Garbage => None
  }

  /** In arrival order, the deliveries with an image that have come since the last tick. */
  function SinceTick<O, B>(events: seq<Event<O>>, f: Delivery -> Option<B>): seq<Delivery> {
    if events == [] || events[|events| - 1].Tick? then []
    else
      var before, last := SinceTick(events[..|events| - 1], f), events[|events| - 1];
      if last.Arrival? && f(last.delivery).Some? then before + [last.delivery] else before
  }

  // ----- settlement logs -----

  function Settle(ds: seq<Delivery>, verdict: Verdict): (log: seq<Settlement>)
    ensures |log| == |ds|
  {
    seq(|ds|, i requires 0 <= i < |ds| => Settlement(ds[i], verdict))
  }

  lemma SettleOneMore(ds: seq<Delivery>, d: Delivery, verdict: Verdict)
    ensures Settle(ds + [d], verdict) == Settle(ds, verdict) + [Settlement(d, verdict)]
  {
  }

  /** The deliveries of a log, whatever their verdict. */
  function Settled(log: seq<Settlement>): seq<Delivery> {
    if log == [] then [] else Settled(log[..|log| - 1]) + [log[|log| - 1].delivery]
  }

  /** The deliveries of a log that got a given verdict. */
  function With(log: seq<Settlement>, verdict: Verdict): seq<Delivery> {
    if log == [] then []
    else
      var before, last := With(log[..|log| - 1], verdict), log[|log| - 1];
      if last.verdict == verdict then before + [last.delivery] else before
  }

  lemma {:induction false} SettledConcat(a: seq<Settlement>, b: seq<Settlement>)
    ensures Settled(a + b) == Settled(a) + Settled(b)
  {
    if b == [] {
      assert a + b == a;
    } else {
      SettledConcat(a, b[..|b| - 1]);
      assert (a + b)[..|a + b| - 1] == a + b[..|b| - 1];
    }
  }

  lemma {:induction false} WithConcat(a: seq<Settlement>, b: seq<Settlement>, verdict: Verdict)
    ensures With(a + b, verdict) == With(a, verdict) + With(b, verdict)
  {
    if b == [] {
      assert a + b == a;
    } else {
      WithConcat(a, b[..|b| - 1], verdict);
      assert (a + b)[..|a + b| - 1] == a + b[..|b| - 1];
    }
  }

  lemma {:induction false} SettledBy(ds: seq<Delivery>, verdict: Verdict)
    ensures Settled(Settle(ds, verdict)) == ds
    ensures With(Settle(ds, verdict), verdict) == ds
    ensures forall other :: other != verdict ==> With(Settle(ds, verdict), other) == []
  {
    if ds == [] {
    } else {
      var log := Settle(ds, verdict);
      assert log[..|ds| - 1] == Settle(ds[..|ds| - 1], verdict);
      SettledBy(ds[..|ds| - 1], verdict);
    }
  }

  /** A log splits into its acknowledged and its rejected deliveries. */
  lemma {:induction false} LogSplits(log: seq<Settlement>)
    ensures multiset(Settled(log)) == multiset(With(log, Ack)) + multiset(With(log, Nack))
  {
    if log == [] {
    } else {
      LogSplits(log[..|log| - 1]);
    }
  }
}
